/**
 The call counter of SolrNet.Tests/Utils/Moroco.cs: the class, and the race of callers whose increments are
 atomic but whose comparisons with the maximum are not.
 */
module MorocoCounter {
  import opened Options

  datatype Incremented = Ticket(r: int) | CalledTooOften

  datatype Verdict = Pass | WrongCount | TooFew | TooMany

  /** The calls that a counter asks for: at least `min`, at most `max`, where present. */
  predicate Wanted(min: Option<int>, max: Option<int>, calls: int) {
    (min.Some? ==> min.value <= calls) && (max.Some? ==> calls <= max.value)
  }

  /** The test of an increment that has drawn `r`. */
  predicate Allowed(max: Option<int>, r: int) {
    max.Some? ==> r <= max.value
  }

  class Counter {
    const min: Option<int>
    const max: Option<int>
    var count: int

    constructor Expecting(expected: int)
      ensures min == max == Some(expected) && count == 0
    {
      min, max := Some(expected), Some(expected);
      count := 0;
    }

    constructor Between(min: Option<int>, max: Option<int>)
      ensures this.min == min && this.max == max && count == 0
    {
      this.min, this.max := min, max;
      count := 0;
    }

    /** A refused call is counted too. */
    method Incr() returns (i: Incremented)
      modifies this
      ensures count == old(count) + 1
      ensures i == if max.Some? && count > max.value then CalledTooOften else Ticket(count)
    {
      count := count + 1;
      var r := count;
      if max.Some? && r > max.value {
        return CalledTooOften;
      }
      return Ticket(r);
    }

    /** The three overlapping tests accept exactly the counts between the two ends. */
    method Verify() returns (v: Verdict)
      ensures v.Pass? <==> Wanted(min, max, count)
      ensures v.Pass? <==> (min.None? || min.value <= count) && (max.None? || count <= max.value)
      ensures v.TooFew? <==> min != max && min.Some? && count < min.value
      ensures v.TooMany? <==> min != max && (min.Some? ==> count >= min.value) && max.Some? && count > max.value
      ensures v.WrongCount? <==> min == max && min.Some? && count != min.value
    {
      if max.Some? && min.Some? && min == max && count != min.value {
        return WrongCount;
      }
      if min.Some? && count < min.value {
        return TooFew;
      }
      if max.Some? && count > max.value {
        return TooMany;
      }
      return Pass;
    }
  }

  // ----- Racing callers -----

  datatype Caller = Waiting | Holding(r: int) | Passed(r: int) | Refused(r: int)

  datatype Race = Race(max: Option<int>, count: int, callers: seq<Caller>)

  function Start(max: Option<int>, n: nat): Race {
    Race(max, 0, seq(n, _ => Waiting))
  }

  /** The next step of caller `t`: the interlocked increment, then the comparison with its own ticket. */
  function Step(s: Race, t: nat): Race {
    if t >= |s.callers| then s else
    match s.callers[t]
    case Waiting => s.(count := s.count + 1, callers := s.callers[t := Holding(s.count + 1)])
    case Holding(r) => s.(callers := s.callers[t := if Allowed(s.max, r) then Passed(r) else Refused(r)])
    case _ => s
  }

  function Run(s: Race, sched: seq<nat>): Race
    decreases |sched|
  {
    if sched == [] then s else Step(Run(s, sched[..|sched| - 1]), sched[|sched| - 1])
  }

  predicate Finished(s: Race) {
    forall t :: 0 <= t < |s.callers| ==> s.callers[t].Passed? || s.callers[t].Refused?
  }

  /** How many callers have drawn a ticket. */
  function Drawn(callers: seq<Caller>): nat {
    if callers == [] then 0
    else Drawn(callers[..|callers| - 1]) + if callers[|callers| - 1].Waiting? then 0 else 1
  }

  /** How many callers have drawn a ticket that the maximum allows. */
  function Admitted(max: Option<int>, callers: seq<Caller>): nat {
    if callers == [] then 0
    else Admitted(max, callers[..|callers| - 1]) +
         var c := callers[|callers| - 1]; if c.Waiting? || !Allowed(max, c.r) then 0 else 1
  }

  function PassedCount(callers: seq<Caller>): nat {
    if callers == [] then 0
    else PassedCount(callers[..|callers| - 1]) + if callers[|callers| - 1].Passed? then 1 else 0
  }

  /** The first `max` of `n` calls, all of them without a maximum, none below a negative one. */
  function FirstOf(max: Option<int>, n: nat): nat {
    if max.None? || n <= max.value then n else if max.value < 0 then 0 else max.value
  }

  lemma {:induction false} CountsAfter(max: Option<int>, callers: seq<Caller>, t: nat, c: Caller)
    requires t < |callers| && !c.Waiting?
    requires callers[t].Waiting? || callers[t].r == c.r
    ensures Drawn(callers[t := c]) == Drawn(callers) + if callers[t].Waiting? then 1 else 0
    ensures Admitted(max, callers[t := c]) ==
            Admitted(max, callers) + if callers[t].Waiting? && Allowed(max, c.r) then 1 else 0
    decreases |callers|
  {
    var k := |callers| - 1;
    if t == k {
      assert callers[t := c][..k] == callers[..k];
    } else {
      assert callers[t := c][..k] == callers[..k][t := c];
      CountsAfter(max, callers[..k], t, c);
    }
  }

  ghost predicate Fair(s: Race) {
    && s.count == Drawn(s.callers)
    && Admitted(s.max, s.callers) == FirstOf(s.max, Drawn(s.callers))
    && (forall t :: 0 <= t < |s.callers| && !s.callers[t].Waiting? ==> 1 <= s.callers[t].r <= s.count)
    && (forall t, u :: 0 <= t < u < |s.callers| && !s.callers[t].Waiting? && !s.callers[u].Waiting? ==>
          s.callers[t].r != s.callers[u].r)
    && (forall r :: 1 <= r <= s.count ==> TicketOf(s.callers, r))
    && (forall t :: 0 <= t < |s.callers| && s.callers[t].Passed? ==> Allowed(s.max, s.callers[t].r))
    && (forall t :: 0 <= t < |s.callers| && s.callers[t].Refused? ==> !Allowed(s.max, s.callers[t].r))
  }

  ghost predicate TicketOf(callers: seq<Caller>, r: int) {
    exists t :: 0 <= t < |callers| && !callers[t].Waiting? && callers[t].r == r
  }

  lemma FairStep(s: Race, t: nat)
    requires Fair(s)
    ensures Fair(Step(s, t))
  {
    if t < |s.callers| && (s.callers[t].Waiting? || s.callers[t].Holding?) {
      var s' := Step(s, t);
      TicketsKept(s, t);
      hide TicketOf;
      CountsAfter(s.max, s.callers, t, s'.callers[t]);
    }
  }

  /** A step leaves every ticket with its caller; a new one is the next. */
  lemma TicketsKept(s: Race, t: nat)
    requires t < |s.callers| && (s.callers[t].Waiting? || s.callers[t].Holding?)
    requires forall r :: 1 <= r <= s.count ==> TicketOf(s.callers, r)
    ensures forall r :: 1 <= r <= Step(s, t).count ==> TicketOf(Step(s, t).callers, r)
  {
    var s' := Step(s, t);
    forall r | 1 <= r <= s'.count ensures TicketOf(s'.callers, r) {
      if r > s.count {
        assert s'.callers[t].r == r;
      } else {
        assert TicketOf(s.callers, r);
        var u :| 0 <= u < |s.callers| && !s.callers[u].Waiting? && s.callers[u].r == r;
        assert !s'.callers[u].Waiting? && s'.callers[u].r == r;
      }
    }
  }

  lemma {:induction false} NothingYet(max: Option<int>, callers: seq<Caller>)
    requires forall t :: 0 <= t < |callers| ==> callers[t].Waiting?
    ensures Drawn(callers) == 0 && Admitted(max, callers) == 0
  {
    if callers != [] {
      NothingYet(max, callers[..|callers| - 1]);
    }
  }

  lemma {:induction false} PassedAreAdmitted(max: Option<int>, callers: seq<Caller>)
    requires forall t :: 0 <= t < |callers| && callers[t].Passed? ==> Allowed(max, callers[t].r)
    ensures PassedCount(callers) <= Admitted(max, callers)
  {
    if callers != [] {
      PassedAreAdmitted(max, callers[..|callers| - 1]);
    }
  }

  lemma {:induction false} AllDone(max: Option<int>, callers: seq<Caller>)
    requires forall t :: 0 <= t < |callers| ==>
               || (callers[t].Passed? && Allowed(max, callers[t].r))
               || (callers[t].Refused? && !Allowed(max, callers[t].r))
    ensures Drawn(callers) == |callers| && Admitted(max, callers) == PassedCount(callers)
  {
    if callers != [] {
      AllDone(max, callers[..|callers| - 1]);
    }
  }

  lemma {:induction false} FairRuns(max: Option<int>, n: nat, sched: seq<nat>)
    ensures Fair(Run(Start(max, n), sched)) && |Run(Start(max, n), sched).callers| == n
    ensures Run(Start(max, n), sched).max == max
    decreases |sched|
  {
    if sched == [] {
      NothingYet(max, Start(max, n).callers);
    } else {
      FairRuns(max, n, sched[..|sched| - 1]);
      FairStep(Run(Start(max, n), sched[..|sched| - 1]), sched[|sched| - 1]);
    }
  }

  /**
   Every interleaving of `n` callers: the tickets drawn so far are 1, 2, ..., without repeats, and never
   more callers get through than the maximum; when all are done, the first `max` of the `n` got through.
   */
  lemma RaceIsFair(max: Option<int>, n: nat, sched: seq<nat>)
    ensures var s := Run(Start(max, n), sched);
            && 0 <= s.count <= n == |s.callers|
            && (forall t :: 0 <= t < n && !s.callers[t].Waiting? ==> 1 <= s.callers[t].r <= s.count)
            && (forall t, u :: 0 <= t < u < n && !s.callers[t].Waiting? && !s.callers[u].Waiting? ==>
                  s.callers[t].r != s.callers[u].r)
            && (forall r :: 1 <= r <= s.count ==> TicketOf(s.callers, r))
            && (forall t :: 0 <= t < n && s.callers[t].Passed? ==> max.None? || s.callers[t].r <= max.value)
            && (forall t :: 0 <= t < n && s.callers[t].Refused? ==> max.Some? && s.callers[t].r > max.value)
            && PassedCount(s.callers) <= FirstOf(max, n)
            && (Finished(s) ==> s.count == n)
            && (Finished(s) && (max.None? || n <= max.value) ==> PassedCount(s.callers) == n)
            && (Finished(s) && max.Some? && n > max.value ==>
                  PassedCount(s.callers) == if max.value < 0 then 0 else max.value)
  {
    FairRuns(max, n, sched);
    var s := Run(Start(max, n), sched);
    PassedAreAdmitted(max, s.callers);
    DrawnAtMost(s.callers);
    if Finished(s) {
      AllDone(max, s.callers);
    }
  }

  lemma {:induction false} DrawnAtMost(callers: seq<Caller>)
    ensures Drawn(callers) <= |callers|
  {
    if callers != [] {
      DrawnAtMost(callers[..|callers| - 1]);
    }
  }
}
