/**
 What every run of the lazy cell keeps. PublicationOnly is treated for any number of threads; the modes
 that run the factory once are ExecutionAndPublication with any number of threads and NoLock with one.
 */
module LazySafety {
  import opened Options
  import opened LazyCell

  // ----- PublicationOnly -----

  /** The positions inside the lock statement of PublicationOnly. */
  predicate PubCritical(pc: Pc) {
    pc.Retest? || pc.Reread? || pc.Store? || pc.Publish? || pc.Forget? || pc.Unlock?
  }

  ghost predicate PubCell(c: Cell) {
    && c.mode.PublicationOnly?
    && c.exception == None
    && c.depth == (if c.owner.Some? then 1 else 0)
    && (!c.hasFactory ==> c.inited)
    && c.value == (if c.log.published == [] then c.log.initial else c.log.published[0])
    && |c.log.published| <= 1
    && (c.inited ==> c.log.published != [])
    && (!c.inited && c.owner.None? ==> c.log.published == [])
    && (forall v :: v in c.log.published ==> v in c.log.produced)
    && (forall a :: a in c.log.answers ==> PubOutcome(c, a.outcome))
  }

  /** A read returns the published value or throws what its own factory call threw. */
  ghost predicate PubOutcome(c: Cell, o: Outcome) {
    if o.Returned? then c.inited && o.value == c.value else o.exn in c.log.thrown
  }

  ghost predicate PubThread(c: Cell, t: nat, th: Thread) {
    match th
    case Idle => c.owner != Some(t)
    case Busy(_, pc) => (PubCritical(pc) <==> c.owner == Some(t)) && PubPc(c, pc)
  }

  /** A value not made by the factory is held only where `inited` is already set, so it is never stored. */
  ghost predicate PubPc(c: Cell, pc: Pc) {
    match pc
    case TestInited => true
    case TestException => true
    case Fetch => true
    case Run => true
    case ReadFast => c.inited
    case ReadFinal => c.inited
    case Reread => c.inited
    case Lock(v, made) => if made then v in c.log.produced else c.inited
    case Retest(v, made) => if made then v in c.log.produced && (!c.inited ==> c.log.published == []) else c.inited
    case Store(v) => v in c.log.produced && !c.inited && c.log.published == []
    case Publish => !c.inited && c.log.published != []
    case Forget => c.inited
    case Unlock(p) => c.inited && (p.Some? ==> p.value == Returned(c.value))
    case Done(o) => PubOutcome(c, o)
    case _ => false
  }

  lemma PubMoveCell(c: Cell, t: nat, th: Thread, choice: Choice)
    requires PubCell(c) && PubThread(c, t, th)
    ensures PubCell(Act(c, t, th, choice).cell)
  {
    if th.Idle? || th.pc.Done? || th.pc.Run? {
      PubMoveLogs(c, t, th, choice);
    } else {
      PubMoveReads(c, t, th, choice);
    }
  }

  lemma PubMoveLogs(c: Cell, t: nat, th: Thread, choice: Choice)
    requires PubCell(c) && PubThread(c, t, th)
    requires th.Busy? ==> th.pc.Done? || th.pc.Run?
    ensures PubCell(Act(c, t, th, choice).cell)
  {
  }

  lemma PubMoveReads(c: Cell, t: nat, th: Thread, choice: Choice)
    requires PubCell(c) && PubThread(c, t, th)
    requires th.Busy? && !th.pc.Done? && !th.pc.Run?
    ensures PubCell(Act(c, t, th, choice).cell)
  {
  }

  lemma PubMoveThread(c: Cell, t: nat, th: Thread, choice: Choice)
    requires PubCell(c) && PubThread(c, t, th)
    ensures PubThread(Act(c, t, th, choice).cell, t, Act(c, t, th, choice).thread)
  {
  }

  lemma PubMoveOther(c: Cell, t: nat, th: Thread, choice: Choice, u: nat, other: Thread)
    requires PubCell(c) && PubThread(c, t, th) && PubThread(c, u, other) && u != t
    ensures PubThread(Act(c, t, th, choice).cell, u, other)
  {
  }

  ghost predicate PubInv(s: State) {
    && PubCell(s.cell)
    && (s.cell.owner.Some? ==> s.cell.owner.value < |s.threads|)
    && forall t :: 0 <= t < |s.threads| ==> PubThread(s.cell, t, s.threads[t])
  }

  lemma PubStep(s: State, a: Action)
    requires PubInv(s)
    ensures PubInv(Step(s, a))
  {
    if a.tid < |s.threads| {
      var th := s.threads[a.tid];
      PubMoveCell(s.cell, a.tid, th, a.choice);
      PubMoveThread(s.cell, a.tid, th, a.choice);
      forall u: nat | u < |s.threads| && u != a.tid
        ensures PubThread(Step(s, a).cell, u, s.threads[u])
      {
        PubMoveOther(s.cell, a.tid, th, a.choice, u, s.threads[u]);
      }
    }
  }

  lemma {:induction false} PubRuns(n: nat, initial: T, sched: seq<Action>)
    ensures PubInv(Exec(Init(PublicationOnly, n, initial), sched))
    decreases |sched|
  {
    if sched != [] {
      PubRuns(n, initial, sched[..|sched| - 1]);
      PubStep(Exec(Init(PublicationOnly, n, initial), sched[..|sched| - 1]), sched[|sched| - 1]);
    }
  }

  /**
   PublicationOnly, every interleaving of any number of threads: the field `value` is written at most
   once and only with what a factory call returned, never with the default taken when the factory is
   already gone; all reads that return agree on it; and no exception is ever kept in the cell.
   */
  lemma PublicationOnlySafety(n: nat, initial: T, sched: seq<Action>)
    ensures var c := Exec(Init(PublicationOnly, n, initial), sched).cell;
            && |c.log.published| <= 1
            && c.value == (if c.log.published == [] then initial else c.log.published[0])
            && (forall v :: v in c.log.published ==> v in c.log.produced)
            && (forall a :: a in c.log.answers ==>
                  if a.outcome.Returned? then c.log.published == [a.outcome.value] else a.outcome.exn in c.log.thrown)
            && (c.inited ==> c.log.published == [c.value])
            && (!c.hasFactory ==> c.inited)
            && c.exception == None
  {
    PubRuns(n, initial, sched);
    Constants(Init(PublicationOnly, n, initial), sched);
  }

  /** No step changes the mode, default(T) or the number of threads. */
  lemma {:induction false} Constants(s: State, sched: seq<Action>)
    ensures var r := Exec(s, sched);
            r.cell.mode == s.cell.mode && r.cell.log.initial == s.cell.log.initial && |r.threads| == |s.threads|
    decreases |sched|
  {
    if sched != [] {
      Constants(s, sched[..|sched| - 1]);
    }
  }

  // ----- The modes that run the factory once -----

  /** The positions inside the lock statement of ExecutionAndPublication. */
  predicate Critical(pc: Pc) {
    pc.Check? || pc.Reread? || pc.Fetch? || pc.Clear? || pc.Run? || pc.Raise? || pc.Catch?
    || pc.Store? || pc.Publish? || pc.Unlock?
  }

  /** The read that has started the factory and has not yet recorded how that ended. */
  predicate Active(pc: Pc) {
    pc.Run? || pc.Store? || pc.Publish? || pc.Catch?
  }

  ghost predicate RunCell(c: Cell) {
    && !c.mode.PublicationOnly?
    && (c.mode.NoLock? ==> c.owner.None?)
    && (c.owner.None? ==> c.depth == 0)
    && c.log.starts == (if c.hasFactory then 0 else 1)
    && (c.hasFactory ==> !c.inited && c.exception.None? && !c.log.reentered && c.log.produced == [])
    && |c.log.produced| <= 1
    && |c.log.published| <= 1
    && (c.log.published != [] ==> c.log.published == c.log.produced)
    && c.value == (if c.log.published == [] then c.log.initial else c.log.published[0])
    && (c.inited ==> c.log.published != [])
    && (c.inited ==> (c.exception.Some? <==> c.log.reentered))
    && (c.mode.ExecutionAndPublication? && c.owner.None? && !c.hasFactory ==> c.inited || c.exception.Some?)
    && (c.exception.Some? ==> Known(c, c.exception.value))
    && (forall a :: a in c.log.answers ==> Justified(c, a.outcome))
  }

  /** Exceptions come from the factory or are the cell's own. */
  ghost predicate Known(c: Cell, e: Exn) {
    e.Reentrancy? || e in c.log.thrown
  }

  ghost predicate RunThread(c: Cell, t: nat, th: Thread) {
    match th
    case Idle => c.owner != Some(t) && (c.mode.NoLock? && !c.hasFactory ==> c.inited || c.exception.Some?)
    case Busy(nest, pc) =>
      && (c.mode.ExecutionAndPublication? ==> HoldsMonitor(c, t, nest, pc))
      && (nest == 0 || (nest == 1 && !Active(pc) && c.log.reentered && InFactory(c)))
      && (nest == 0 && Active(pc) ==> (c.exception.Some? <==> c.log.reentered))
      && (c.mode.NoLock? && nest == 0 && !Active(pc) && !c.hasFactory ==> c.inited || c.exception.Some?)
      && RunPc(c, pc)
  }

  ghost predicate HoldsMonitor(c: Cell, t: nat, nest: nat, pc: Pc) {
    && (c.owner == Some(t) <==> nest > 0 || Critical(pc))
    && (c.owner == Some(t) ==> c.depth == nest + if Critical(pc) then 1 else 0)
  }

  ghost predicate InFactory(c: Cell) {
    !c.hasFactory && !c.inited && c.log.produced == [] && c.log.published == []
  }

  ghost predicate RunPc(c: Cell, pc: Pc) {
    match pc
    case TestInited => true
    case ReadFast => c.inited
    case TestException => c.mode.NoLock? ==> !c.inited
    case ReadException => c.exception.Some?
    case Acquire => c.mode.ExecutionAndPublication?
    case Check => c.mode.ExecutionAndPublication?
    case Reread => c.mode.ExecutionAndPublication? && c.inited
    case Fetch => !c.inited
    case Clear => c.hasFactory
    case Raise => !c.hasFactory && !c.inited
    case Run => InFactory(c)
    case Catch(e) => InFactory(c) && e in c.log.thrown
    case Store(v) => !c.hasFactory && !c.inited && c.log.produced == [v] && c.log.published == []
    case Publish => !c.hasFactory && !c.inited && c.log.published != []
    case Unlock(None) => c.mode.ExecutionAndPublication? && c.inited
    case Unlock(Some(o)) => c.mode.ExecutionAndPublication? && Justified(c, o)
    case Done(o) => Justified(c, o)
    case ReadFinal => c.inited
    case _ => false
  }

  ghost predicate Justified(c: Cell, o: Outcome) {
    if o.Returned? then c.inited && o.value == c.value else c.exception.Some? && Known(c, o.exn)
  }

  ghost predicate RunMoveOk(c: Cell, t: nat, th: Thread, choice: Choice) {
    RunCell(Act(c, t, th, choice).cell) && RunThread(Act(c, t, th, choice).cell, t, Act(c, t, th, choice).thread)
  }

  lemma RunMoveEnds(c: Cell, t: nat, th: Thread, choice: Choice)
    requires RunCell(c) && RunThread(c, t, th)
    requires th.Busy? ==> th.pc.Done?
    ensures RunMoveOk(c, t, th, choice)
  {
  }

  lemma RunMoveFactory(c: Cell, t: nat, th: Thread, choice: Choice)
    requires RunCell(c) && RunThread(c, t, th)
    requires th.Busy? && th.pc.Run?
    ensures RunMoveOk(c, t, th, choice)
  {
  }

  lemma RunMoveReads(c: Cell, t: nat, th: Thread, choice: Choice)
    requires RunCell(c) && RunThread(c, t, th) && th.Busy?
    requires th.pc.TestInited? || th.pc.ReadFast? || th.pc.TestException? || th.pc.ReadException?
             || th.pc.Reread? || th.pc.ReadFinal? || th.pc.Check? || th.pc.Fetch?
    ensures RunMoveOk(c, t, th, choice)
  {
  }

  lemma RunMoveLocks(c: Cell, t: nat, th: Thread, choice: Choice)
    requires RunCell(c) && RunThread(c, t, th) && th.Busy?
    requires th.pc.Acquire? || th.pc.Unlock? || th.pc.Clear?
    ensures RunMoveOk(c, t, th, choice)
  {
  }

  lemma RunMoveWrites(c: Cell, t: nat, th: Thread, choice: Choice)
    requires RunCell(c) && RunThread(c, t, th) && th.Busy?
    requires th.pc.Raise? || th.pc.Catch? || th.pc.Store? || th.pc.Publish?
    ensures RunMoveOk(c, t, th, choice)
  {
  }

  lemma RunMove(c: Cell, t: nat, th: Thread, choice: Choice)
    requires RunCell(c) && RunThread(c, t, th)
    ensures RunMoveOk(c, t, th, choice)
  {
    if th.Idle? || th.pc.Done? {
      RunMoveEnds(c, t, th, choice);
    } else if th.pc.Run? {
      RunMoveFactory(c, t, th, choice);
    } else if th.pc.Acquire? || th.pc.Unlock? || th.pc.Clear? {
      RunMoveLocks(c, t, th, choice);
    } else if th.pc.Raise? || th.pc.Catch? || th.pc.Store? || th.pc.Publish? {
      RunMoveWrites(c, t, th, choice);
    } else {
      RunMoveReads(c, t, th, choice);
    }
  }

  lemma RunMoveOther(c: Cell, t: nat, th: Thread, choice: Choice, u: nat, other: Thread)
    requires RunCell(c) && RunThread(c, t, th) && RunThread(c, u, other)
    requires u != t && c.mode.ExecutionAndPublication?
    ensures RunThread(Act(c, t, th, choice).cell, u, other)
  {
  }

  /** Either mode that runs the factory once; without a lock only one thread may use the cell. */
  ghost predicate RunInv(s: State) {
    && RunCell(s.cell)
    && (s.cell.owner.Some? ==> s.cell.owner.value < |s.threads|)
    && (s.cell.mode.NoLock? ==> |s.threads| <= 1)
    && forall t :: 0 <= t < |s.threads| ==> RunThread(s.cell, t, s.threads[t])
  }

  lemma RunStep(s: State, a: Action)
    requires RunInv(s)
    ensures RunInv(Step(s, a))
  {
    if a.tid < |s.threads| {
      var th := s.threads[a.tid];
      RunMove(s.cell, a.tid, th, a.choice);
      forall u: nat | u < |s.threads| && u != a.tid
        ensures RunThread(Step(s, a).cell, u, s.threads[u])
      {
        RunMoveOther(s.cell, a.tid, th, a.choice, u, s.threads[u]);
      }
      Constants(s, [a]);
    }
  }

  lemma {:induction false} RunRuns(mode: Mode, n: nat, initial: T, sched: seq<Action>)
    requires !mode.PublicationOnly? && (mode.NoLock? ==> n <= 1)
    ensures RunInv(Exec(Init(mode, n, initial), sched))
    decreases |sched|
  {
    if sched != [] {
      RunRuns(mode, n, initial, sched[..|sched| - 1]);
      RunStep(Exec(Init(mode, n, initial), sched[..|sched| - 1]), sched[|sched| - 1]);
    }
  }

  /**
   ExecutionAndPublication under every interleaving, and NoLock on one thread: the factory is started at
   most once, `value` is written only with what that call returned, and every read that returns, on the
   unlocked path or not, returns exactly that.
   */
  lemma FactoryRunsOnce(mode: Mode, n: nat, initial: T, sched: seq<Action>)
    requires !mode.PublicationOnly? && (mode.NoLock? ==> n <= 1)
    ensures var c := Exec(Init(mode, n, initial), sched).cell;
            && c.log.starts <= 1
            && |c.log.produced| <= c.log.starts
            && (c.log.published == [] || c.log.published == c.log.produced)
            && c.value == (if c.log.published == [] then initial else c.log.produced[0])
            && (forall a :: a in c.log.answers ==>
                  if a.outcome.Returned? then c.log.produced == [a.outcome.value]
                  else a.outcome.exn == Reentrancy || a.outcome.exn in c.log.thrown)
  {
    RunRuns(mode, n, initial, sched);
    Constants(Init(mode, n, initial), sched);
  }

  /**
   A finished cell also holds an exception exactly when the factory read the cell while it ran; so when
   it did not, no run gives one reader a value and another an exception.
   */
  lemma ValueOrException(mode: Mode, n: nat, initial: T, sched: seq<Action>)
    requires !mode.PublicationOnly? && (mode.NoLock? ==> n <= 1)
    ensures var c := Exec(Init(mode, n, initial), sched).cell;
            && (c.inited ==> (c.exception.Some? <==> c.log.reentered))
            && (!c.log.reentered ==> forall a, b :: a in c.log.answers && b in c.log.answers ==>
                  (a.outcome.Returned? <==> b.outcome.Returned?))
            && (mode.ExecutionAndPublication? && c.owner == None && !c.hasFactory ==>
                  c.inited || c.exception.Some?)
  {
    RunRuns(mode, n, initial, sched);
    Constants(Init(mode, n, initial), sched);
  }
}
