/**
 Further laws of the lazy cell: finished cells stay finished, reads inside the factory end, and nobody waits
 for a thread that waits.
 */
module LazyTheorems {
  import opened Options
  import opened LazyCell
  import opened LazySafety

  /** The modes and thread counts for which the cell keeps its promises. */
  predicate Supported(mode: Mode, n: nat) {
    mode.NoLock? ==> n <= 1
  }

  ghost predicate Inv(s: State) {
    if s.cell.mode.PublicationOnly? then PubInv(s) else RunInv(s)
  }

  lemma Runs(mode: Mode, n: nat, initial: T, sched: seq<Action>)
    requires Supported(mode, n)
    ensures Inv(Exec(Init(mode, n, initial), sched))
    ensures |Exec(Init(mode, n, initial), sched).threads| == n
    ensures Exec(Init(mode, n, initial), sched).cell.mode == mode
  {
    Constants(Init(mode, n, initial), sched);
    if mode.PublicationOnly? {
      PubRuns(n, initial, sched);
    } else {
      RunRuns(mode, n, initial, sched);
    }
  }

  lemma InvStep(s: State, a: Action)
    requires Inv(s)
    ensures Inv(Step(s, a))
  {
    Constants(s, [a]);
    if s.cell.mode.PublicationOnly? {
      PubStep(s, a);
    } else {
      RunStep(s, a);
    }
  }

  // ----- After initialisation -----

  /** Thread `t` has started no read before `inited` was set, and all its answers from `from` on are `v`. */
  ghost predicate Late(s: State, t: nat, v: T, from: nat) {
    && Inv(s)
    && s.cell.inited && s.cell.value == v
    && t < |s.threads| && from <= |s.cell.log.answers|
    && (s.threads[t].Busy? ==>
          s.threads[t].nest == 0 &&
          (s.threads[t].pc.TestInited? || s.threads[t].pc.ReadFast? || s.threads[t].pc == Done(Returned(v))))
    && (forall k :: from <= k < |s.cell.log.answers| && s.cell.log.answers[k].tid == t ==>
          s.cell.log.answers[k].outcome == Returned(v))
  }

  /** Once set, `inited` and `value` never change. */
  lemma Stable(s: State, a: Action)
    requires Inv(s) && s.cell.inited
    ensures Step(s, a).cell.inited && Step(s, a).cell.value == s.cell.value
  {
  }

  lemma LateStep(s: State, t: nat, v: T, from: nat, a: Action)
    requires Late(s, t, v, from)
    ensures Late(Step(s, a), t, v, from)
  {
    hide Inv;
    InvStep(s, a);
    Stable(s, a);
  }

  lemma {:induction false} LateRuns(s: State, t: nat, v: T, from: nat, later: seq<Action>)
    requires Late(s, t, v, from)
    ensures Late(Exec(s, later), t, v, from)
    decreases |later|
  {
    if later != [] {
      LateRuns(s, t, v, from, later[..|later| - 1]);
      LateStep(Exec(s, later[..|later| - 1]), t, v, from, later[|later| - 1]);
    }
  }

  /**
   Once the cell is initialised its value is final, and every read that starts afterwards returns it,
   whatever `exception` holds.
   */
  lemma LaterReadsReturn(mode: Mode, n: nat, initial: T, sched: seq<Action>, t: nat, later: seq<Action>)
    requires Supported(mode, n) && t < n
    requires var s := Exec(Init(mode, n, initial), sched); s.cell.inited && t < |s.threads| && s.threads[t].Idle?
    ensures var c := Exec(Init(mode, n, initial), sched).cell;
            var r := Exec(Exec(Init(mode, n, initial), sched), later).cell;
            && r.inited && r.value == c.value && |c.log.answers| <= |r.log.answers|
            && forall k :: |c.log.answers| <= k < |r.log.answers| && r.log.answers[k].tid == t ==>
                 r.log.answers[k].outcome == Returned(c.value)
  {
    Runs(mode, n, initial, sched);
    var s := Exec(Init(mode, n, initial), sched);
    LateRuns(s, t, s.cell.value, |s.cell.log.answers|, later);
  }

  /** Late without the value: it needs no limit on the threads. */
  ghost predicate LateSomehow(s: State, t: nat, from: nat) {
    && s.cell.inited && t < |s.threads| && from <= |s.cell.log.answers|
    && (s.threads[t].Busy? ==>
          s.threads[t].nest == 0 &&
          (s.threads[t].pc.TestInited? || s.threads[t].pc.ReadFast?
           || (s.threads[t].pc.Done? && s.threads[t].pc.outcome.Returned?)))
    && (forall k :: from <= k < |s.cell.log.answers| && s.cell.log.answers[k].tid == t ==>
          s.cell.log.answers[k].outcome.Returned?)
  }

  lemma LateSomehowStep(s: State, t: nat, from: nat, a: Action)
    requires LateSomehow(s, t, from)
    ensures LateSomehow(Step(s, a), t, from) && |Step(s, a).threads| == |s.threads|
  {
  }

  /**
   In every mode and with any number of threads, from any state in which `inited` is set: it stays set, and
   every read that an idle thread starts from then on returns a value.
   */
  lemma {:induction false} LaterReadsNeverThrow(s: State, t: nat, later: seq<Action>)
    requires s.cell.inited && t < |s.threads| && s.threads[t].Idle?
    ensures var r := Exec(s, later);
            && LateSomehow(r, t, |s.cell.log.answers|)
            && forall k :: |s.cell.log.answers| <= k < |r.cell.log.answers| && r.cell.log.answers[k].tid == t ==>
                 r.cell.log.answers[k].outcome.Returned?
    decreases |later|
  {
    if later != [] {
      LaterReadsNeverThrow(s, t, later[..|later| - 1]);
      LateSomehowStep(Exec(s, later[..|later| - 1]), t, |s.cell.log.answers|, later[|later| - 1]);
    }
  }

  // ----- Termination of reads -----

  /** An upper bound on the steps a read still takes when its factory call, if any, is one step. */
  function Rank(pc: Pc): nat {
    match pc
    case TestInited => 14
    case TestException => 13
    case Acquire => 12
    case Check => 11
    case Fetch => 10
    case Clear => 9
    case Run => 8
    case Lock(_, _) => 7
    case Retest(_, _) => 6
    case Store(_) => 5
    case Publish => 4
    case Forget => 3
    case Reread => 3
    case Raise => 3
    case Catch(_) => 3
    case Unlock(_) => 2
    case ReadFast => 1
    case ReadException => 1
    case ReadFinal => 1
    case Done(_) => 0
  }

  /** Waiting for a monitor that another thread holds. */
  predicate Blocked(c: Cell, t: nat, th: Thread) {
    th.Busy? && (th.pc.Lock? || th.pc.Acquire?) && !CanLock(c, t)
  }

  /** A read never loops: unless it waits for the monitor or for the factory, its step lowers the rank. */
  lemma StepsShortenReads(c: Cell, t: nat, nest: nat, pc: Pc)
    requires !pc.Run? && !pc.Done? && !Blocked(c, t, Busy(nest, pc))
    ensures var th := Act(c, t, Busy(nest, pc), Go).thread;
            th.Busy? && th.nest == nest && Rank(th.pc) < Rank(pc)
  {
  }

  /**
   Without a lock and with any number of threads: only the outermost read of a thread can take the factory
   or run it, and while a factory runs the field is empty.
   */
  ghost predicate FreeThread(c: Cell, th: Thread) {
    th.Busy? ==>
      && th.nest <= 1 && !th.pc.Lock? && !th.pc.Acquire?
      && (th.nest > 0 || th.pc.Run? ==> !c.hasFactory)
      && (th.pc.Clear? || th.pc.Run? ==> th.nest == 0)
  }

  lemma FreeMove(c: Cell, t: nat, th: Thread, choice: Choice)
    requires c.mode.NoLock? && FreeThread(c, th)
    ensures var m := Act(c, t, th, choice);
            m.cell.mode.NoLock? && FreeThread(m.cell, m.thread) && (!c.hasFactory ==> !m.cell.hasFactory)
  {
  }

  lemma {:induction false} FreeRuns(n: nat, initial: T, sched: seq<Action>)
    ensures var s := Exec(Init(NoLock, n, initial), sched);
            s.cell.mode.NoLock? && |s.threads| == n && forall t :: 0 <= t < n ==> FreeThread(s.cell, s.threads[t])
    decreases |sched|
  {
    if sched != [] {
      var a := sched[|sched| - 1];
      FreeRuns(n, initial, sched[..|sched| - 1]);
      var s := Exec(Init(NoLock, n, initial), sched[..|sched| - 1]);
      if a.tid < n {
        FreeMove(s.cell, a.tid, s.threads[a.tid], a.choice);
      }
    }
  }

  /**
   Where the factory field is cleared before the call, with any number of threads: a read made by a running
   factory is not nested further, does not start the factory, is never kept waiting and gets closer to its
   end with every step. Where the factory runs once it ends in an exception.
   */
  lemma NestedReadsEnd(mode: Mode, n: nat, initial: T, sched: seq<Action>, t: nat)
    requires !mode.PublicationOnly? && t < n
    ensures var s := Exec(Init(mode, n, initial), sched);
            |s.threads| == n &&
            (s.threads[t].Busy? && s.threads[t].nest > 0 ==>
               var th := s.threads[t];
               && th.nest == 1 && !th.pc.Run? && !th.pc.Clear? && !Blocked(s.cell, t, th)
               && (if th.pc.Done? then Supported(mode, n) ==> th.pc.outcome.Threw?
                   else var next := Step(s, Action(t, Go)).threads[t];
                        next.Busy? && next.nest == 1 && Rank(next.pc) < Rank(th.pc)))
  {
    var s := Exec(Init(mode, n, initial), sched);
    if Supported(mode, n) {
      Runs(mode, n, initial, sched);
      assert RunThread(s.cell, t, s.threads[t]);
    } else {
      FreeRuns(n, initial, sched);
    }
    var th := s.threads[t];
    if th.Busy? && th.nest > 0 && !th.pc.Done? {
      StepsShortenReads(s.cell, t, th.nest, th.pc);
    }
  }

  /** Whoever waits for the monitor waits for a thread that is inside a read and not itself waiting for it. */
  lemma HolderIsNotWaiting(mode: Mode, n: nat, initial: T, sched: seq<Action>, t: nat)
    requires t < n
    ensures var s := Exec(Init(mode, n, initial), sched);
            |s.threads| == n &&
            (Blocked(s.cell, t, s.threads[t]) ==>
               && s.cell.owner.Some? && s.cell.owner.value < n
               && var u := s.cell.owner.value;
                  u != t && s.threads[u].Busy? && !Blocked(s.cell, u, s.threads[u]))
  {
    if Supported(mode, n) {
      Runs(mode, n, initial, sched);
    } else {
      FreeRuns(n, initial, sched);
    }
  }
}
