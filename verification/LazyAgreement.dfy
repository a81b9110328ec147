/**
 What readers of the lazy cell can rely on together, and exactly where: that they agree, that the value is
 final, and that no reader gets a value while another gets an exception.
 */
module LazyAgreement {
  import opened Options
  import opened LazyCell
  import opened LazySafety
  import opened LazyTheorems
  import opened LazyRuns
  import opened LazyLimits

  ghost predicate Agree(c: Cell) {
    forall a, b :: a in c.log.answers && b in c.log.answers && a.outcome.Returned? && b.outcome.Returned? ==>
      a.outcome == b.outcome
  }

  /** The field is written at most once in every run exactly where at most one thread goes without a lock. */
  lemma OneWrite(mode: Mode, n: nat, initial: T)
    ensures (forall sched: seq<Action> :: |Exec(Init(mode, n, initial), sched).cell.log.published| <= 1)
            <==> Supported(mode, n)
  {
    hide Exec;
    if Supported(mode, n) {
      forall sched: seq<Action> ensures |Exec(Init(mode, n, initial), sched).cell.log.published| <= 1 {
        Runs(mode, n, initial, sched);
      }
    } else {
      var sched, c := Overwritten(Init(mode, n, initial), initial);
      assert |Exec(Init(mode, n, initial), sched).cell.log.published| == 2;
    }
  }

  /** All reads that return agree, in every run, exactly there; two values of the type are needed to differ. */
  lemma ReadersAgree(mode: Mode, n: nat, initial: T, v: T)
    requires v != initial
    ensures (forall sched: seq<Action> :: Agree(Exec(Init(mode, n, initial), sched).cell)) <==> Supported(mode, n)
  {
    hide Exec;
    if Supported(mode, n) {
      forall sched: seq<Action> ensures Agree(Exec(Init(mode, n, initial), sched).cell) {
        Runs(mode, n, initial, sched);
      }
    } else {
      var sched, c := Overwritten(Init(mode, n, initial), v);
      var a, b := Answer(1, Returned(initial)), Answer(0, Returned(v));
      assert a in c.log.answers && b in c.log.answers;
      assert !Agree(Exec(Init(mode, n, initial), sched).cell);
    }
  }

  ghost predicate Kept(s: State, r: State) {
    s.cell.inited ==> r.cell.inited && r.cell.value == s.cell.value
  }

  lemma {:induction false} KeptRuns(s: State, later: seq<Action>)
    requires Inv(s)
    ensures Inv(Exec(s, later)) && Kept(s, Exec(s, later))
    decreases |later|
  {
    if later != [] {
      var before := Exec(s, later[..|later| - 1]);
      KeptRuns(s, later[..|later| - 1]);
      InvStep(before, later[|later| - 1]);
      if before.cell.inited {
        Stable(before, later[|later| - 1]);
      }
    }
  }

  /** Once `inited` is set it stays, and the value with it, in every run and continuation exactly there. */
  lemma ValueIsFinal(mode: Mode, n: nat, initial: T, v: T)
    requires v != initial
    ensures (forall sched: seq<Action>, later: seq<Action> ::
               Kept(Exec(Init(mode, n, initial), sched), Exec(Exec(Init(mode, n, initial), sched), later)))
            <==> Supported(mode, n)
  {
    hide Exec;
    var start := Init(mode, n, initial);
    if Supported(mode, n) {
      forall sched: seq<Action>, later: seq<Action> ensures Kept(Exec(start, sched), Exec(Exec(start, sched), later)) {
        Runs(mode, n, initial, sched);
        KeptRuns(Exec(start, sched), later);
      }
    } else {
      var sched, c := SecondAnswers(start);
      var mid := Exec(start, sched);
      AtCell(start, sched, c, Busy(0, Run), Idle);
      Restart(start, sched, c, Busy(0, Run), Idle);
      var later, d := FirstOverwrites(mid, [], c, v);
      AtCell(mid, later, d, Idle, Idle);
      assert !Kept(Exec(start, sched), Exec(Exec(start, sched), later));
    }
  }

  /** Unless a factory has read the cell, either all finished reads have returned or all have thrown. */
  ghost predicate OneKind(c: Cell) {
    !c.log.reentered ==> forall a, b :: a in c.log.answers && b in c.log.answers ==>
      (a.outcome.Returned? <==> b.outcome.Returned?)
  }

  /**
   That holds in every run exactly where the factory runs once. In PublicationOnly a factory may throw and
   be tried again; without a lock a second thread finds the factory gone.
   */
  lemma ValueOrExceptionForAll(mode: Mode, n: nat, initial: T)
    ensures (forall sched: seq<Action> :: OneKind(Exec(Init(mode, n, initial), sched).cell)) <==> Single(mode, n)
  {
    hide Exec;
    if n == 0 {
      forall sched: seq<Action> ensures OneKind(Exec(Init(mode, n, initial), sched).cell) {
        NoThreads(mode, initial, sched);
      }
    } else if Single(mode, n) {
      forall sched: seq<Action> ensures OneKind(Exec(Init(mode, n, initial), sched).cell) {
        ValueOrException(mode, n, initial, sched);
      }
    } else if mode.PublicationOnly? {
      var sched := ThrowsThenReturns(Init(mode, n, initial), Reentrancy);
      assert !OneKind(Exec(Init(mode, n, initial), sched).cell);
    } else {
      var sched, c := UnlockedReplacement(Init(mode, n, initial));
      sched, c := FirstOverwrites(Init(mode, n, initial), sched, c, initial);
      AtCell(Init(mode, n, initial), sched, c, Idle, Idle);
      TwoKinds(c, Answer(1, Threw(Reentrancy)), Answer(0, Returned(initial)));
      assert !OneKind(Exec(Init(mode, n, initial), sched).cell);
    }
  }

  lemma TwoKinds(c: Cell, a: Answer, b: Answer)
    requires !c.log.reentered && a in c.log.answers && b in c.log.answers
    requires a.outcome.Threw? && b.outcome.Returned?
    ensures !OneKind(c)
  {
  }

  // ----- The runs -----

  lemma AtCell(start: State, sched: seq<Action>, c: Cell, x: Thread, y: Thread)
    requires Reaches(start, sched, c, x, y)
    ensures Exec(start, sched).cell == c
  {
  }

  /** A run can be continued from the state it has led to. */
  lemma Restart(start: State, sched: seq<Action>, c: Cell, x: Thread, y: Thread)
    requires Reaches(start, sched, c, x, y)
    ensures Reaches(Exec(start, sched), [], c, x, y)
  {
    NoSteps(Exec(start, sched));
  }

  /** Without a lock both threads run the factory; thread 1 publishes default(T) and returns it. */
  lemma SecondAnswers(start: State) returns (sched: seq<Action>, c: Cell)
    requires |start.threads| >= 2 && start.threads[0] == start.threads[1] == Idle
    requires start.cell == NewCell(NoLock, start.cell.log.initial)
    ensures Reaches(start, sched, c, Busy(0, Run), Idle)
    ensures var v, log := start.cell.log.initial, start.cell.log;
            c == start.cell.(hasFactory := false, inited := true, value := v,
                             log := log.(starts := 2, produced := [v], published := [v],
                                         answers := [Answer(1, Returned(v))]))
  {
    hide Exec, Reaches;
    var v := start.cell.log.initial;
    var x, o := Busy(0, Run), Returned(v);
    sched, c := TwoStarts(start);
    var d := c.(log := c.log.(produced := c.log.produced + [v]));
    var e := d.(value := v, log := d.log.(published := d.log.published + [v]));
    var f := e.(inited := true);
    sched := Publishes(start, sched, c, d, e, f, v);
    sched := Second(start, sched, f, x, Busy(0, ReadFinal), Go, Move(f, Busy(0, Done(o))));
    c := f.(log := f.log.(answers := f.log.answers + [Answer(1, o)]));
    sched := Second(start, sched, f, x, Busy(0, Done(o)), Go, Move(c, Idle));
  }

  /** Then thread 0, still inside the factory, returns and overwrites the value. */
  lemma FirstOverwrites(start: State, sched: seq<Action>, c: Cell, v: T) returns (sched': seq<Action>, d: Cell)
    requires Reaches(start, sched, c, Busy(0, Run), Idle) && c.mode.NoLock?
    ensures Reaches(start, sched', d, Idle, Idle)
    ensures d == c.(inited := true, value := v,
                    log := c.log.(produced := c.log.produced + [v], published := c.log.published + [v],
                                  answers := c.log.answers + [Answer(0, Returned(v))]))
  {
    hide Exec, Reaches;
    var e := c.(log := c.log.(produced := c.log.produced + [v]));
    var f := e.(value := v, log := e.log.(published := e.log.published + [v]));
    var g := f.(inited := true);
    var o := Returned(v);
    d := g.(log := g.log.(answers := g.log.answers + [Answer(0, o)]));
    sched' := First(start, sched, c, Busy(0, Run), Idle, FactoryReturns(v), Move(e, Busy(0, Store(v))));
    sched' := First(start, sched', e, Busy(0, Store(v)), Idle, Go, Move(f, Busy(0, Publish)));
    sched' := First(start, sched', f, Busy(0, Publish), Idle, Go, Move(g, Busy(0, ReadFinal)));
    sched' := First(start, sched', g, Busy(0, ReadFinal), Idle, Go, Move(g, Busy(0, Done(o))));
    sched' := First(start, sched', g, Busy(0, Done(o)), Idle, Go, Move(d, Idle));
  }

  lemma Overwritten(start: State, v: T) returns (sched: seq<Action>, c: Cell)
    requires |start.threads| >= 2 && start.threads[0] == start.threads[1] == Idle
    requires start.cell == NewCell(NoLock, start.cell.log.initial)
    ensures Exec(start, sched).cell == c && |c.log.published| == 2
    ensures c.log.answers == [Answer(1, Returned(start.cell.log.initial)), Answer(0, Returned(v))]
  {
    hide Exec, Reaches;
    sched, c := SecondAnswers(start);
    sched, c := FirstOverwrites(start, sched, c, v);
    AtCell(start, sched, c, Idle, Idle);
  }

  /** PublicationOnly, one thread: the factory throws, is tried again, and returns. */
  lemma ThrowsThenReturns(start: State, e: Exn) returns (sched: seq<Action>)
    requires |start.threads| >= 1 && start.threads[0] == Idle
    requires start.cell == NewCell(PublicationOnly, start.cell.log.initial)
    ensures !OneKind(Exec(start, sched).cell)
  {
    hide Exec;
    var v := start.cell.log.initial;
    var s;
    NoSteps(start);
    sched, s := Solo(start, [], start, Call, Move(start.cell, Busy(0, TestInited)));
    sched, s := RaceStarts(start, sched, s, 0);
    sched, s := RaceThrows(start, sched, s, e);
    sched, s := Solo(start, sched, s, Call, Move(s.cell, Busy(0, TestInited)));
    sched, s := RaceStarts(start, sched, s, 0);
    sched, s := RaceReturns(start, sched, s, 0, v);
    var a, b := Answer(0, Threw(e)), Answer(0, Returned(v));
    sched, s := Solo(start, sched, s, Go, Move(s.cell.(log := s.cell.log.(answers := [a, b])), Idle));
    TwoKinds(s.cell, a, b);
  }
}
