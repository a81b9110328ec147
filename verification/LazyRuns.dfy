/** Pieces of runs of the lazy cell, from which the runs that break a promise are put together. */
module LazyRuns {
  import opened Options
  import opened LazyCell

  lemma Say(start: State, sched: seq<Action>, s: State, a: Action)
    returns (sched': seq<Action>, s': State)
    requires s == Exec(start, sched)
    ensures s' == Exec(start, sched') && s' == Step(s, a)
  {
    Then(start, sched, a);
    sched', s' := sched + [a], Step(s, a);
  }

  /** Thread 0 makes one step, with the outcome that `Act` computes. */
  lemma Solo(start: State, sched: seq<Action>, s: State, choice: Choice, m: Move)
    returns (sched': seq<Action>, s': State)
    requires s == Exec(start, sched) && |s.threads| > 0
    requires m == Act(s.cell, 0, s.threads[0], choice)
    ensures s' == Exec(start, sched') && |s'.threads| > 0 && s'.cell == m.cell && s'.threads[0] == m.thread
  {
    sched', s' := Say(start, sched, s, Action(0, choice));
  }

  lemma NoSteps(s: State)
    ensures Exec(s, []) == s
  {
  }

  // ----- PublicationOnly, thread 0 -----

  /** Thread 0 is at `pc`, `nest` factory calls deep, in a cell of mode PublicationOnly without a value. */
  ghost predicate Racing(s: State, nest: nat, pc: Pc) {
    && |s.threads| > 0 && s.threads[0] == Busy(nest, pc)
    && s.cell == NewCell(PublicationOnly, s.cell.log.initial).(value := s.cell.value, log := s.cell.log)
  }

  /** From the getter to the factory. */
  lemma RaceStarts(start: State, sched: seq<Action>, s: State, nest: nat)
    returns (sched': seq<Action>, s': State)
    requires s == Exec(start, sched) && Racing(s, nest, TestInited)
    ensures s' == Exec(start, sched') && Racing(s', nest, Run)
    ensures s'.cell.log == s.cell.log.(starts := s.cell.log.starts + 1)
  {
    hide Exec;
    sched', s' := Solo(start, sched, s, Go, Move(s.cell, Busy(nest, TestException)));
    sched', s' := Solo(start, sched', s', Go, Move(s.cell, Busy(nest, Fetch)));
    sched', s' := Solo(start, sched', s', Go,
                       Move(s.cell.(log := s.cell.log.(starts := s.cell.log.starts + 1)), Busy(nest, Run)));
  }

  /** The factory throws, and the read is over. */
  lemma RaceThrows(start: State, sched: seq<Action>, s: State, e: Exn)
    returns (sched': seq<Action>, s': State)
    requires s == Exec(start, sched) && Racing(s, 0, Run)
    ensures s' == Exec(start, sched') && |s'.threads| > 0 && s'.threads[0] == Idle
    ensures var log := s.cell.log;
            s'.cell == s.cell.(log := log.(thrown := log.thrown + [e], answers := log.answers + [Answer(0, Threw(e))]))
  {
    hide Exec;
    var c := s.cell.(log := s.cell.log.(thrown := s.cell.log.thrown + [e]));
    sched', s' := Solo(start, sched, s, FactoryThrows(e), Move(c, Busy(0, Done(Threw(e)))));
    var a := Answer(0, Threw(e));
    sched', s' := Solo(start, sched', s', Go, Move(c.(log := c.log.(answers := c.log.answers + [a])), Idle));
  }

  /** The factory returns, and its value is published. */
  lemma RaceReturns(start: State, sched: seq<Action>, s: State, nest: nat, v: T)
    returns (sched': seq<Action>, s': State)
    requires s == Exec(start, sched) && Racing(s, nest, Run)
    ensures s' == Exec(start, sched') && |s'.threads| > 0 && s'.threads[0] == Busy(nest, Done(Returned(v)))
    ensures var log := s.cell.log;
            s'.cell == s.cell.(hasFactory := false, inited := true, value := v,
                               log := log.(produced := log.produced + [v], published := log.published + [v]))
  {
    hide Exec;
    var c := s.cell.(log := s.cell.log.(produced := s.cell.log.produced + [v]));
    sched', s' := Solo(start, sched, s, FactoryReturns(v), Move(c, Busy(nest, Lock(v, true))));
    c := c.(owner := Some(0), depth := 1);
    sched', s' := Solo(start, sched', s', Go, Move(c, Busy(nest, Retest(v, true))));
    sched', s' := Solo(start, sched', s', Go, Move(c, Busy(nest, Store(v))));
    sched', s' := RacePublishes(start, sched', s', nest, v);
  }

  lemma RacePublishes(start: State, sched: seq<Action>, s: State, nest: nat, v: T)
    returns (sched': seq<Action>, s': State)
    requires s == Exec(start, sched) && |s.threads| > 0 && s.threads[0] == Busy(nest, Store(v))
    requires s.cell.mode.PublicationOnly? && s.cell.owner == Some(0) && s.cell.depth == 1
    ensures s' == Exec(start, sched') && |s'.threads| > 0 && s'.threads[0] == Busy(nest, Done(Returned(v)))
    ensures var log := s.cell.log;
            s'.cell == s.cell.(hasFactory := false, inited := true, value := v, owner := None, depth := 0,
                               log := log.(published := log.published + [v]))
  {
    hide Exec;
    var c := s.cell.(value := v, log := s.cell.log.(published := s.cell.log.published + [v]));
    sched', s' := Solo(start, sched, s, Go, Move(c, Busy(nest, Publish)));
    c := c.(inited := true);
    sched', s' := Solo(start, sched', s', Go, Move(c, Busy(nest, Forget)));
    c := c.(hasFactory := false);
    sched', s' := Solo(start, sched', s', Go, Move(c, Busy(nest, Unlock(None))));
    c := c.(owner := None, depth := 0);
    sched', s' := Solo(start, sched', s', Go, Move(c, Busy(nest, ReadFinal)));
    sched', s' := Solo(start, sched', s', Go, Move(c, Busy(nest, Done(Returned(v)))));
  }

  // ----- Two threads -----

  /** The cell and where threads 0 and 1 stand. */
  datatype View = View(cell: Cell, first: Thread, second: Thread)

  function ViewOf(s: State): Option<View> {
    if |s.threads| < 2 then None else Some(View(s.cell, s.threads[0], s.threads[1]))
  }

  /** A schedule leads to cell `c`, with threads 0 and 1 at `x` and `y`. */
  ghost predicate Reaches(start: State, sched: seq<Action>, c: Cell, x: Thread, y: Thread) {
    ViewOf(Exec(start, sched)) == Some(View(c, x, y))
  }

  /** Thread 0 makes one more step. */
  lemma First(start: State, sched: seq<Action>, c: Cell, x: Thread, y: Thread, choice: Choice, m: Move)
    returns (sched': seq<Action>)
    requires Reaches(start, sched, c, x, y) && m == Act(c, 0, x, choice)
    ensures Reaches(start, sched', m.cell, m.thread, y)
  {
    var s;
    sched', s := Say(start, sched, Exec(start, sched), Action(0, choice));
  }

  lemma Second(start: State, sched: seq<Action>, c: Cell, x: Thread, y: Thread, choice: Choice, m: Move)
    returns (sched': seq<Action>)
    requires Reaches(start, sched, c, x, y) && m == Act(c, 1, y, choice)
    ensures Reaches(start, sched', m.cell, x, m.thread)
  {
    var s;
    sched', s := Say(start, sched, Exec(start, sched), Action(1, choice));
  }

  /** Both threads have fetched the factory before either clears the field. */
  lemma BothFetch(start: State) returns (sched: seq<Action>)
    requires |start.threads| >= 2 && start.threads[0] == start.threads[1] == Idle
    requires start.cell == NewCell(NoLock, start.cell.log.initial)
    ensures Reaches(start, sched, start.cell, Busy(0, Clear), Busy(0, Clear))
  {
    var c := start.cell;
    sched := [];
    assert Reaches(start, sched, c, Idle, Idle);
    hide Exec, Reaches;
    sched := First(start, sched, c, Idle, Idle, Call, Move(c, Busy(0, TestInited)));
    sched := First(start, sched, c, Busy(0, TestInited), Idle, Go, Move(c, Busy(0, TestException)));
    sched := First(start, sched, c, Busy(0, TestException), Idle, Go, Move(c, Busy(0, Fetch)));
    sched := First(start, sched, c, Busy(0, Fetch), Idle, Go, Move(c, Busy(0, Clear)));
    sched := Second(start, sched, c, Busy(0, Clear), Idle, Call, Move(c, Busy(0, TestInited)));
    sched := Second(start, sched, c, Busy(0, Clear), Busy(0, TestInited), Go, Move(c, Busy(0, TestException)));
    sched := Second(start, sched, c, Busy(0, Clear), Busy(0, TestException), Go, Move(c, Busy(0, Fetch)));
    sched := Second(start, sched, c, Busy(0, Clear), Busy(0, Fetch), Go, Move(c, Busy(0, Clear)));
  }

  /** Both threads run the factory. */
  lemma TwoStarts(start: State) returns (sched: seq<Action>, c: Cell)
    requires |start.threads| >= 2 && start.threads[0] == start.threads[1] == Idle
    requires start.cell == NewCell(NoLock, start.cell.log.initial)
    ensures Reaches(start, sched, c, Busy(0, Run), Busy(0, Run))
    ensures c == start.cell.(hasFactory := false, log := start.cell.log.(starts := 2))
  {
    hide Exec, Reaches;
    sched := BothFetch(start);
    c := start.cell.(hasFactory := false, log := start.cell.log.(starts := 1));
    sched := First(start, sched, start.cell, Busy(0, Clear), Busy(0, Clear), Go, Move(c, Busy(0, Run)));
    var c' := c.(log := c.log.(starts := 2));
    sched := Second(start, sched, c, Busy(0, Run), Busy(0, Clear), Go, Move(c', Busy(0, Run)));
    c := c';
  }

  lemma Publishes(start: State, sched: seq<Action>, c: Cell, d: Cell, e: Cell, f: Cell, v: T)
    returns (sched': seq<Action>)
    requires Reaches(start, sched, c, Busy(0, Run), Busy(0, Run)) && c.mode.NoLock?
    requires d == c.(log := c.log.(produced := c.log.produced + [v]))
    requires e == d.(value := v, log := d.log.(published := d.log.published + [v])) && f == e.(inited := true)
    ensures Reaches(start, sched', f, Busy(0, Run), Busy(0, ReadFinal))
  {
    hide Exec, Reaches;
    var x := Busy(0, Run);
    sched' := Second(start, sched, c, x, Busy(0, Run), FactoryReturns(v), Move(d, Busy(0, Store(v))));
    sched' := Second(start, sched', d, x, Busy(0, Store(v)), Go, Move(e, Busy(0, Publish)));
    sched' := Second(start, sched', e, x, Busy(0, Publish), Go, Move(f, Busy(0, ReadFinal)));
  }

  lemma FirstRuns(start: State, sched: seq<Action>, c: Cell, d: Cell) returns (sched': seq<Action>)
    requires Reaches(start, sched, c, Idle, Idle) && c == NewCell(NoLock, c.log.initial)
    requires d == c.(hasFactory := false, log := c.log.(starts := 1))
    ensures Reaches(start, sched', d, Busy(0, Run), Idle)
  {
    hide Exec, Reaches;
    sched' := First(start, sched, c, Idle, Idle, Call, Move(c, Busy(0, TestInited)));
    sched' := First(start, sched', c, Busy(0, TestInited), Idle, Go, Move(c, Busy(0, TestException)));
    sched' := First(start, sched', c, Busy(0, TestException), Idle, Go, Move(c, Busy(0, Fetch)));
    sched' := First(start, sched', c, Busy(0, Fetch), Idle, Go, Move(c, Busy(0, Clear)));
    sched' := First(start, sched', c, Busy(0, Clear), Idle, Go, Move(d, Busy(0, Run)));
  }

  /** Thread 1 passes the tests of the getter. */
  lemma SecondCalls(start: State, sched: seq<Action>, c: Cell, x: Thread, next: Pc) returns (sched': seq<Action>)
    requires Reaches(start, sched, c, x, Idle) && !c.inited && c.exception == None
    requires next == if c.mode.ExecutionAndPublication? then Acquire else Fetch
    ensures Reaches(start, sched', c, x, Busy(0, next))
  {
    hide Exec, Reaches;
    sched' := Second(start, sched, c, x, Idle, Call, Move(c, Busy(0, TestInited)));
    sched' := Second(start, sched', c, x, Busy(0, TestInited), Go, Move(c, Busy(0, TestException)));
    sched' := Second(start, sched', c, x, Busy(0, TestException), Go, Move(c, Busy(0, next)));
  }
}
