/**
 Where the guarantees of the lazy cell about its factory and its exceptions stop: the exact modes and numbers
 of threads, with the runs that show it.
 */
module LazyLimits {
  import opened Options
  import opened LazyCell
  import opened LazySafety
  import opened LazyTheorems
  import opened LazyRuns

  /** The uses of the cell in which the factory runs once: under the lock, or without one on one thread. */
  predicate Single(mode: Mode, n: nat) {
    n == 0 || mode.ExecutionAndPublication? || (mode.NoLock? && n == 1)
  }

  /** Without threads nothing happens. */
  lemma {:induction false} NoThreads(mode: Mode, initial: T, sched: seq<Action>)
    ensures Exec(Init(mode, 0, initial), sched) == Init(mode, 0, initial)
    decreases |sched|
  {
    if sched != [] {
      NoThreads(mode, initial, sched[..|sched| - 1]);
    }
  }

  /**
   Every run starts the factory at most once exactly under the lock, or without one on a single thread.
   Without a lock two threads can both fetch the factory; in PublicationOnly it stays until publication.
   */
  lemma OneFactoryCall(mode: Mode, n: nat, initial: T)
    ensures (forall sched: seq<Action> :: Exec(Init(mode, n, initial), sched).cell.log.starts <= 1)
            <==> Single(mode, n)
  {
    hide Exec;
    if n == 0 {
      forall sched: seq<Action> ensures Exec(Init(mode, n, initial), sched).cell.log.starts <= 1 {
        NoThreads(mode, initial, sched);
      }
    } else if mode.PublicationOnly? {
      var sched := NestsDeep(n, initial, 1);
      assert Exec(Init(mode, n, initial), sched).cell.log.starts > 1;
    } else if Supported(mode, n) {
      forall sched: seq<Action> ensures Exec(Init(mode, n, initial), sched).cell.log.starts <= 1 {
        FactoryRunsOnce(mode, n, initial, sched);
      }
    } else {
      var sched, c := TwoStarts(Init(mode, n, initial));
      StartsOf(Init(mode, n, initial), sched, c);
      assert Exec(Init(mode, n, initial), sched).cell.log.starts == 2;
    }
  }

  lemma StartsOf(start: State, sched: seq<Action>, c: Cell)
    requires Reaches(start, sched, c, Busy(0, Run), Busy(0, Run))
    ensures Exec(start, sched).cell == c
  {
  }

  ghost predicate ReturnsNested(s: State, t: nat) {
    && t < |s.threads| && s.threads[t].Busy? && s.threads[t].nest > 0
    && s.threads[t].pc.Done? && s.threads[t].pc.outcome.Returned?
  }

  /**
   No read that a factory makes ever returns, in any run, exactly where the factory runs once. Without a
   lock such a read may return the value of another thread, and in PublicationOnly that of a factory call
   of its own.
   */
  lemma NestedReadsThrow(mode: Mode, n: nat, initial: T)
    ensures (forall sched: seq<Action>, t: nat :: !ReturnsNested(Exec(Init(mode, n, initial), sched), t))
            <==> Single(mode, n)
  {
    hide Exec;
    if Single(mode, n) {
      forall sched: seq<Action>, t: nat ensures !ReturnsNested(Exec(Init(mode, n, initial), sched), t) {
        Constants(Init(mode, n, initial), sched);
        if t < n {
          NestedReadsEnd(mode, n, initial, sched, t);
        }
      }
    } else if mode.PublicationOnly? {
      var start := Init(mode, n, initial);
      var sched := NestsDeep(n, initial, 1);
      var s;
      sched, s := RaceReturns(start, sched, Exec(start, sched), 1, initial);
      assert ReturnsNested(Exec(start, sched), 0);
    } else {
      var sched := NestedReturn(Init(mode, n, initial));
      assert ReturnsNested(Exec(Init(mode, n, initial), sched), 0);
    }
  }

  /** While thread 0 is inside the factory, thread 1 publishes; then the factory of thread 0 reads. */
  lemma NestedReturn(start: State) returns (sched: seq<Action>)
    requires |start.threads| >= 2 && start.threads[0] == start.threads[1] == Idle
    requires start.cell == NewCell(NoLock, start.cell.log.initial)
    ensures ReturnsNested(Exec(start, sched), 0)
  {
    var v := start.cell.log.initial;
    var c;
    var x := Busy(0, Run);
    sched, c := TwoStarts(start);
    var d := c.(log := c.log.(produced := c.log.produced + [v]));
    var e := d.(value := v, log := d.log.(published := d.log.published + [v]));
    var f := e.(inited := true);
    var g := f.(log := f.log.(reentered := true));
    assert Reaches(start, sched, c, x, Busy(0, Run));
    sched := Publishes(start, sched, c, d, e, f, v);
    sched := First(start, sched, f, x, Busy(0, ReadFinal), FactoryReads, Move(g, Busy(1, TestInited)));
    sched := First(start, sched, g, Busy(1, TestInited), Busy(0, ReadFinal), Go, Move(g, Busy(1, ReadFast)));
    sched := First(start, sched, g, Busy(1, ReadFast), Busy(0, ReadFinal), Go, Move(g, Busy(1, Done(Returned(v)))));
  }

  /** How many factory calls a thread is inside of. */
  function FactoryDepth(s: State, t: nat): nat {
    if t >= |s.threads| || s.threads[t].Idle? then 0
    else s.threads[t].nest + if s.threads[t].pc.Run? then 1 else 0
  }

  /**
   The factory never runs inside itself exactly in the modes that clear the factory field before the call;
   in PublicationOnly a factory that reads the cell is entered again without bound.
   */
  lemma FactoryNestsOnlyUncleared(mode: Mode, n: nat, initial: T)
    ensures (forall sched: seq<Action>, t: nat :: FactoryDepth(Exec(Init(mode, n, initial), sched), t) <= 1)
            <==> n == 0 || !mode.PublicationOnly?
  {
    hide Exec;
    if n > 0 && mode.PublicationOnly? {
      var sched := NestsDeep(n, initial, 1);
      assert FactoryDepth(Exec(Init(mode, n, initial), sched), 0) == 2;
    } else {
      forall sched: seq<Action>, t: nat ensures FactoryDepth(Exec(Init(mode, n, initial), sched), t) <= 1 {
        Constants(Init(mode, n, initial), sched);
        if t < n {
          OneFactory(mode, n, initial, sched, t);
        }
      }
    }
  }

  lemma OneFactory(mode: Mode, n: nat, initial: T, sched: seq<Action>, t: nat)
    requires !mode.PublicationOnly? && t < n
    ensures FactoryDepth(Exec(Init(mode, n, initial), sched), t) <= 1
  {
    NestedReadsEnd(mode, n, initial, sched, t);
  }

  /** Any depth of nesting is reached. */
  lemma {:induction false} NestsDeep(n: nat, initial: T, depth: nat) returns (sched: seq<Action>)
    requires n >= 1
    ensures var s := Exec(Init(PublicationOnly, n, initial), sched);
            Racing(s, depth, Run) && FactoryDepth(s, 0) == depth + 1 == s.cell.log.starts
  {
    hide Exec;
    var start := Init(PublicationOnly, n, initial);
    var s;
    if depth == 0 {
      NoSteps(start);
      sched, s := Solo(start, [], start, Call, Move(start.cell, Busy(0, TestInited)));
    } else {
      sched := NestsDeep(n, initial, depth - 1);
      s := Exec(start, sched);
      sched, s := Solo(start, sched, s, FactoryReads,
                       Move(s.cell.(log := s.cell.log.(reentered := true)), Busy(depth, TestInited)));
    }
    sched, s := RaceStarts(start, sched, s, depth);
  }

  /**
   A factory that reads the cell and swallows the exception it gets still initialises the cell: one
   reader has seen an exception, the other a value, and both are kept.
   */
  lemma SwallowedReentrancy(n: nat, initial: T, v: T) returns (sched: seq<Action>)
    requires n >= 1
    ensures var c := Exec(Init(ExecutionAndPublication, n, initial), sched).cell;
            && c.inited && c.value == v && c.exception == Some(Reentrancy)
            && c.log.answers == [Answer(0, Threw(Reentrancy)), Answer(0, Returned(v))]
  {
    var start := Init(ExecutionAndPublication, n, initial);
    var s;
    sched, s := Solo(start, [], start, Call, Move(start.cell, Busy(0, TestInited)));
    sched, s := ToFactory(start, sched, s);
    sched, s := Solo(start, sched, s, FactoryReads,
                     Move(s.cell.(log := s.cell.log.(reentered := true)), Busy(1, TestInited)));
    sched, s := NestedRead(start, sched, s);
    sched, s := Finish(start, sched, s, v);
  }

  lemma ToFactory(start: State, sched: seq<Action>, s: State)
    returns (sched': seq<Action>, s': State)
    requires s == Exec(start, sched)
    requires |s.threads| > 0 && s.threads[0] == Busy(0, TestInited)
    requires s.cell == NewCell(ExecutionAndPublication, s.cell.log.initial)
    ensures s' == Exec(start, sched') && |s'.threads| > 0 && s'.threads[0] == Busy(0, Run)
    ensures s'.cell == s.cell.(owner := Some(0), depth := 1, hasFactory := false, log := s.cell.log.(starts := 1))
  {
    hide Exec;
    sched', s' := Solo(start, sched, s, Go, Move(s.cell, Busy(0, TestException)));
    sched', s' := Solo(start, sched', s', Go, Move(s.cell, Busy(0, Acquire)));
    var c := s.cell.(owner := Some(0), depth := 1);
    sched', s' := Solo(start, sched', s', Go, Move(c, Busy(0, Check)));
    sched', s' := Solo(start, sched', s', Go, Move(c, Busy(0, Fetch)));
    sched', s' := Solo(start, sched', s', Go, Move(c, Busy(0, Clear)));
    sched', s' := Solo(start, sched', s', Go, Move(c.(hasFactory := false, log := c.log.(starts := 1)), Busy(0, Run)));
  }

  lemma NestedRead(start: State, sched: seq<Action>, s: State)
    returns (sched': seq<Action>, s': State)
    requires s == Exec(start, sched)
    requires |s.threads| > 0 && s.threads[0] == Busy(1, TestInited)
    requires s.cell.mode.ExecutionAndPublication? && s.cell.owner == Some(0) && s.cell.depth == 1
    requires !s.cell.inited && !s.cell.hasFactory && s.cell.exception == None
    ensures s' == Exec(start, sched') && |s'.threads| > 0 && s'.threads[0] == Busy(0, Run)
    ensures s'.cell == s.cell.(exception := Some(Reentrancy),
                               log := s.cell.log.(answers := s.cell.log.answers + [Answer(0, Threw(Reentrancy))]))
  {
    hide Exec;
    sched', s' := Solo(start, sched, s, Go, Move(s.cell, Busy(1, TestException)));
    sched', s' := Solo(start, sched', s', Go, Move(s.cell, Busy(1, Acquire)));
    var c := s.cell.(depth := 2);
    sched', s' := Solo(start, sched', s', Go, Move(c, Busy(1, Check)));
    sched', s' := Solo(start, sched', s', Go, Move(c, Busy(1, Fetch)));
    sched', s' := Solo(start, sched', s', Go, Move(c, Busy(1, Raise)));
    c := c.(exception := Some(Reentrancy));
    sched', s' := Solo(start, sched', s', Go, Move(c, Busy(1, Unlock(Some(Threw(Reentrancy))))));
    c := c.(depth := 1);
    sched', s' := Solo(start, sched', s', Go, Move(c, Busy(1, Done(Threw(Reentrancy)))));
    c := c.(log := c.log.(answers := c.log.answers + [Answer(0, Threw(Reentrancy))]));
    sched', s' := Solo(start, sched', s', Go, Move(c, Busy(0, Run)));
  }

  lemma Finish(start: State, sched: seq<Action>, s: State, v: T)
    returns (sched': seq<Action>, s': State)
    requires s == Exec(start, sched)
    requires |s.threads| > 0 && s.threads[0] == Busy(0, Run)
    requires s.cell.mode.ExecutionAndPublication? && s.cell.owner == Some(0) && s.cell.depth == 1
    ensures s' == Exec(start, sched')
    ensures s'.cell.inited && s'.cell.value == v && s'.cell.exception == s.cell.exception
    ensures s'.cell.log.answers == s.cell.log.answers + [Answer(0, Returned(v))]
  {
    hide Exec;
    var c := s.cell.(log := s.cell.log.(produced := s.cell.log.produced + [v]));
    sched', s' := Solo(start, sched, s, FactoryReturns(v), Move(c, Busy(0, Store(v))));
    c := c.(value := v, log := c.log.(published := c.log.published + [v]));
    sched', s' := Solo(start, sched', s', Go, Move(c, Busy(0, Publish)));
    c := c.(inited := true);
    sched', s' := Solo(start, sched', s', Go, Move(c, Busy(0, Unlock(None))));
    c := c.(owner := None, depth := 0);
    sched', s' := Solo(start, sched', s', Go, Move(c, Busy(0, ReadFinal)));
    sched', s' := Solo(start, sched', s', Go, Move(c, Busy(0, Done(Returned(v)))));
    var a := Answer(0, Returned(v));
    sched', s' := Solo(start, sched', s', Go, Move(c.(log := c.log.(answers := c.log.answers + [a])), Idle));
  }

  // ----- Whose exception a read gets -----

  /** Unless a factory has read the cell, every read that throws throws what a factory call threw. */
  ghost predicate Own(c: Cell) {
    !c.log.reentered ==> forall a :: a in c.log.answers && a.outcome.Threw? ==> a.outcome.exn in c.log.thrown
  }

  ghost predicate OwnCell(c: Cell) {
    Own(c) && (!c.log.reentered && c.exception.Some? ==> c.exception.value in c.log.thrown)
  }

  /** A single thread that gets past the tests of the getter finds the factory. */
  ghost predicate OwnThread(c: Cell, th: Thread) {
    !c.log.reentered && th.Busy? ==>
      match th.pc
      case TestException => !c.inited
      case Acquire => c.hasFactory
      case Check => c.hasFactory
      case Fetch => c.hasFactory
      case Raise => false
      case Unlock(Some(Threw(e))) => e in c.log.thrown
      case Done(Threw(e)) => e in c.log.thrown
      case _ => true
  }

  lemma OwnMove(c: Cell, th: Thread, choice: Choice)
    requires RunCell(c) && RunThread(c, 0, th) && (c.owner == None || c.owner == Some(0))
    requires OwnCell(c) && OwnThread(c, th)
    ensures OwnCell(Act(c, 0, th, choice).cell)
    ensures OwnThread(Act(c, 0, th, choice).cell, Act(c, 0, th, choice).thread)
  {
  }

  lemma {:induction false} OwnRuns(mode: Mode, n: nat, initial: T, sched: seq<Action>)
    requires !mode.PublicationOnly? && n <= 1
    ensures var s := Exec(Init(mode, n, initial), sched);
            OwnCell(s.cell) && |s.threads| == n && (n == 1 ==> OwnThread(s.cell, s.threads[0]))
    decreases |sched|
  {
    Constants(Init(mode, n, initial), sched);
    if sched != [] {
      var init, a := sched[..|sched| - 1], sched[|sched| - 1];
      var s := Exec(Init(mode, n, initial), init);
      OwnRuns(mode, n, initial, init);
      RunRuns(mode, n, initial, init);
      if a.tid < n {
        OwnMove(s.cell, s.threads[0], a.choice);
      }
    }
  }

  /**
   Without a read inside the factory, every read that throws gets the factory's own exception in every run
   exactly in PublicationOnly and on a single thread. A second thread that finds the field empty replaces
   the kept exception by the cell's own, although nothing was entered again.
   */
  lemma OwnExceptions(mode: Mode, n: nat, initial: T)
    ensures (forall sched: seq<Action> :: Own(Exec(Init(mode, n, initial), sched).cell))
            <==> mode.PublicationOnly? || n <= 1
  {
    hide Exec;
    if mode.PublicationOnly? {
      forall sched: seq<Action> ensures Own(Exec(Init(mode, n, initial), sched).cell) {
        PublicationOnlySafety(n, initial, sched);
      }
    } else if n <= 1 {
      forall sched: seq<Action> ensures Own(Exec(Init(mode, n, initial), sched).cell) {
        OwnRuns(mode, n, initial, sched);
      }
    } else if mode.NoLock? {
      var sched, c := UnlockedReplacement(Init(mode, n, initial));
      assert !Own(Exec(Init(mode, n, initial), sched).cell);
    } else {
      var sched := WaiterReplaces(Init(mode, n, initial), 0);
      assert !Own(Exec(Init(mode, n, initial), sched).cell);
    }
  }

  lemma NotOwn(c: Cell, a: Answer)
    requires !c.log.reentered && a in c.log.answers && a.outcome.Threw? && a.outcome.exn !in c.log.thrown
    ensures !Own(c)
  {
  }

  /** Without a lock, thread 1 reads while thread 0 is inside the factory. */
  lemma UnlockedReplacement(start: State) returns (sched: seq<Action>, c: Cell)
    requires |start.threads| >= 2 && start.threads[0] == start.threads[1] == Idle
    requires start.cell == NewCell(NoLock, start.cell.log.initial)
    ensures Reaches(start, sched, c, Busy(0, Run), Idle) && Exec(start, sched).cell == c && !Own(c)
    ensures c == start.cell.(hasFactory := false, exception := Some(Reentrancy),
                             log := start.cell.log.(starts := 1, answers := [Answer(1, Threw(Reentrancy))]))
  {
    c := start.cell;
    var x := Busy(0, Run);
    sched := [];
    assert Reaches(start, sched, c, Idle, Idle);
    var d := c.(hasFactory := false, log := c.log.(starts := 1));
    var e := d.(exception := Some(Reentrancy));
    var a := Answer(1, Threw(Reentrancy));
    sched := FirstRuns(start, sched, c, d);
    sched := SecondCalls(start, sched, d, x, Fetch);
    sched := Second(start, sched, d, x, Busy(0, Fetch), Go, Move(d, Busy(0, Raise)));
    sched := Second(start, sched, d, x, Busy(0, Raise), Go, Move(e, Busy(0, Done(Threw(Reentrancy)))));
    c := e.(log := e.log.(answers := e.log.answers + [a]));
    sched := Second(start, sched, e, x, Busy(0, Done(Threw(Reentrancy))), Go, Move(c, Idle));
    NotOwn(c, a);
  }

  /** Under the lock, thread 1 waits while the factory of thread 0 throws, and replaces its exception. */
  lemma WaiterReplaces(start: State, code: int) returns (sched: seq<Action>)
    requires |start.threads| >= 2 && start.threads[0] == start.threads[1] == Idle
    requires start.cell == NewCell(ExecutionAndPublication, start.cell.log.initial)
    ensures var c := Exec(start, sched).cell;
            && !c.log.reentered && c.log.thrown == [FactoryError(code)] && c.exception == Some(Reentrancy)
            && c.log.answers == [Answer(1, Threw(Reentrancy))] && !Own(c)
  {
    var c := start.cell;
    sched := [];
    assert Reaches(start, sched, c, Idle, Idle);
    var d := c.(owner := Some(0), depth := 1, hasFactory := false, log := c.log.(starts := 1));
    var e := FactoryError(code);
    var f := d.(exception := Some(e), owner := None, depth := 0, log := d.log.(thrown := [e]));
    var x := Busy(0, Done(Threw(e)));
    sched := FirstLocks(start, sched, c, d);
    sched := SecondCalls(start, sched, d, Busy(0, Run), Acquire);
    sched := FirstThrows(start, sched, d, e, f);
    var g := f.(exception := Some(Reentrancy), log := f.log.(answers := [Answer(1, Threw(Reentrancy))]));
    sched := SecondRaises(start, sched, f, x, g);
    NotOwn(Exec(start, sched).cell, Answer(1, Threw(Reentrancy)));
  }

  lemma FirstLocks(start: State, sched: seq<Action>, c: Cell, d: Cell) returns (sched': seq<Action>)
    requires Reaches(start, sched, c, Idle, Idle) && c == NewCell(ExecutionAndPublication, c.log.initial)
    requires d == c.(owner := Some(0), depth := 1, hasFactory := false, log := c.log.(starts := 1))
    ensures Reaches(start, sched', d, Busy(0, Run), Idle)
  {
    hide Exec, Reaches;
    var l := c.(owner := Some(0), depth := 1);
    sched' := First(start, sched, c, Idle, Idle, Call, Move(c, Busy(0, TestInited)));
    sched' := First(start, sched', c, Busy(0, TestInited), Idle, Go, Move(c, Busy(0, TestException)));
    sched' := First(start, sched', c, Busy(0, TestException), Idle, Go, Move(c, Busy(0, Acquire)));
    sched' := First(start, sched', c, Busy(0, Acquire), Idle, Go, Move(l, Busy(0, Check)));
    sched' := First(start, sched', l, Busy(0, Check), Idle, Go, Move(l, Busy(0, Fetch)));
    sched' := First(start, sched', l, Busy(0, Fetch), Idle, Go, Move(l, Busy(0, Clear)));
    sched' := First(start, sched', l, Busy(0, Clear), Idle, Go, Move(d, Busy(0, Run)));
  }

  lemma FirstThrows(start: State, sched: seq<Action>, d: Cell, e: Exn, f: Cell) returns (sched': seq<Action>)
    requires Reaches(start, sched, d, Busy(0, Run), Busy(0, Acquire))
    requires d.mode.ExecutionAndPublication? && d.owner == Some(0) && d.depth == 1 && d.log.thrown == []
    requires f == d.(exception := Some(e), owner := None, depth := 0, log := d.log.(thrown := [e]))
    ensures Reaches(start, sched', f, Busy(0, Done(Threw(e))), Busy(0, Acquire))
  {
    hide Exec, Reaches;
    var y := Busy(0, Acquire);
    var c := d.(log := d.log.(thrown := [e]));
    sched' := First(start, sched, d, Busy(0, Run), y, FactoryThrows(e), Move(c, Busy(0, Catch(e))));
    var d' := c.(exception := Some(e));
    sched' := First(start, sched', c, Busy(0, Catch(e)), y, Go, Move(d', Busy(0, Unlock(Some(Threw(e))))));
    sched' := First(start, sched', d', Busy(0, Unlock(Some(Threw(e)))), y, Go, Move(f, Busy(0, Done(Threw(e)))));
  }

  lemma SecondRaises(start: State, sched: seq<Action>, f: Cell, x: Thread, g: Cell) returns (sched': seq<Action>)
    requires Reaches(start, sched, f, x, Busy(0, Acquire))
    requires f.mode.ExecutionAndPublication? && f.owner == None && f.depth == 0 && !f.inited && !f.hasFactory
    requires var a := Answer(1, Threw(Reentrancy));
             f.log.answers == [] && g == f.(exception := Some(Reentrancy), log := f.log.(answers := [a]))
    ensures Reaches(start, sched', g, x, Idle)
  {
    hide Exec, Reaches;
    var o := Threw(Reentrancy);
    var l := f.(owner := Some(1), depth := 1);
    var m := l.(exception := Some(Reentrancy));
    var u := f.(exception := Some(Reentrancy));
    sched' := Second(start, sched, f, x, Busy(0, Acquire), Go, Move(l, Busy(0, Check)));
    sched' := Second(start, sched', l, x, Busy(0, Check), Go, Move(l, Busy(0, Fetch)));
    sched' := Second(start, sched', l, x, Busy(0, Fetch), Go, Move(l, Busy(0, Raise)));
    sched' := Second(start, sched', l, x, Busy(0, Raise), Go, Move(m, Busy(0, Unlock(Some(o)))));
    sched' := Second(start, sched', m, x, Busy(0, Unlock(Some(o))), Go, Move(u, Busy(0, Done(o))));
    sched' := Second(start, sched', u, x, Busy(0, Done(o)), Go, Move(g, Idle));
  }
}
