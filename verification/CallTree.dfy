/**
 The call tree of SolrNet.Tests/Utils/ProfilerFacility.cs as a value: the nodes in the order of their
 creation, each with its own elapsed time and its links, and the cursor. `Enter`, `Exit` and `Tick` are
 what the interceptor does to it between two instants.
 */
module CallTree {
  import opened Options

  type MethodInfo(==, !new)

  datatype Rec = Rec(key: Option<MethodInfo>, time: nat, parent: nat, kids: seq<nat>)

  /** Node 0 is the root, which stands for no call. */
  datatype Arena = Arena(recs: seq<Rec>, cur: nat)

  datatype Tree = Tree(key: Option<MethodInfo>, time: nat, kids: seq<Tree>)

  function Fresh(): Arena {
    Arena([Rec(None, 0, 0, [])], 0)
  }

  /** Parent and child links agree and lead from earlier to later nodes, so there are no cycles. */
  ghost predicate WellFormed(a: Arena) {
    a.cur < |a.recs| && forall i: nat :: i < |a.recs| ==> LinksAgree(a.recs, i)
  }

  ghost predicate LinksAgree(recs: seq<Rec>, i: nat)
    requires i < |recs|
  {
    && (if i == 0 then recs[i].key.None? && recs[i].time == 0
        else recs[i].key.Some? && recs[i].parent < i && i in recs[recs[i].parent].kids)
    && (forall k :: 0 <= k < |recs[i].kids| ==> i < recs[i].kids[k] < |recs| && recs[recs[i].kids[k]].parent == i)
    && (forall k, l :: 0 <= k < l < |recs[i].kids| ==> recs[i].kids[k] < recs[i].kids[l])
  }

  function Enter(a: Arena, m: MethodInfo): Arena
    requires a.cur < |a.recs|
  {
    var n := |a.recs|;
    Arena(a.recs[a.cur := a.recs[a.cur].(kids := a.recs[a.cur].kids + [n])] + [Rec(Some(m), 0, a.cur, [])], n)
  }

  /** Leaving a call; `Intercept` leaves only what it has entered, so at the root nothing is left. */
  function Exit(a: Arena): Arena
    requires a.cur < |a.recs|
  {
    if a.cur == 0 then a else a.(cur := a.recs[a.cur].parent)
  }

  function Tick(a: Arena, d: nat): Arena
    requires a.cur < |a.recs|
  {
    if a.cur == 0 then a
    else a.(recs := a.recs[a.cur := a.recs[a.cur].(time := a.recs[a.cur].time + d)])
  }

  lemma EnterWellFormed(a: Arena, m: MethodInfo)
    requires WellFormed(a)
    ensures WellFormed(Enter(a, m))
  {
    var b, n := Enter(a, m), |a.recs|;
    assert b.recs[a.cur].kids[|a.recs[a.cur].kids|] == n;
    forall i: nat | i < n + 1 ensures LinksAgree(b.recs, i) {
      if i < n {
        assert LinksAgree(a.recs, i);
        EnterLinks(a, m, i);
      }
    }
  }

  lemma EnterLinks(a: Arena, m: MethodInfo, i: nat)
    requires WellFormed(a) && i < |a.recs|
    ensures LinksAgree(Enter(a, m).recs, i)
  {
    var b := Enter(a, m);
    assert LinksAgree(a.recs, i);
    assert forall k :: 0 <= k < |a.recs[i].kids| ==> b.recs[i].kids[k] == a.recs[i].kids[k];
    if i > 0 {
      var k :| 0 <= k < |a.recs[a.recs[i].parent].kids| && a.recs[a.recs[i].parent].kids[k] == i;
      assert b.recs[b.recs[i].parent].kids[k] == i;
    }
  }

  lemma ExitWellFormed(a: Arena)
    requires WellFormed(a)
    ensures WellFormed(Exit(a))
  {
    assert LinksAgree(a.recs, a.cur);
  }

  lemma TickWellFormed(a: Arena, d: nat)
    requires WellFormed(a)
    ensures WellFormed(Tick(a, d))
  {
    forall i: nat | i < |a.recs| ensures LinksAgree(Tick(a, d).recs, i) {
      assert LinksAgree(a.recs, i);
    }
  }

  // ----- The tree below a node -----

  function TreeAt(a: Arena, i: nat): Tree
    requires WellFormed(a) && i < |a.recs|
    decreases |a.recs| - i, 1, 0
  {
    assert LinksAgree(a.recs, i);
    Tree(a.recs[i].key, a.recs[i].time, ForestAt(a, i, a.recs[i].kids))
  }

  /** The trees of some nodes created after node `i`. */
  function ForestAt(a: Arena, i: nat, ks: seq<nat>): (r: seq<Tree>)
    requires WellFormed(a) && i < |a.recs|
    requires forall k :: 0 <= k < |ks| ==> i < ks[k] < |a.recs|
    ensures |r| == |ks|
    decreases |a.recs| - i, 0, |ks|
  {
    if ks == [] then [] else [TreeAt(a, ks[0])] + ForestAt(a, i, ks[1..])
  }

  // ----- Runs of single events -----

  datatype Event = Entered(m: MethodInfo) | Left | Elapsed(ticks: nat)

  function Apply(a: Arena, e: Event): (r: Arena)
    requires WellFormed(a)
    ensures WellFormed(r)
  {
    match e
    case Entered(m) => EnterWellFormed(a, m); Enter(a, m)
    case Left => ExitWellFormed(a); Exit(a)
    case Elapsed(d) => TickWellFormed(a, d); Tick(a, d)
  }

  function Replay(events: seq<Event>): (r: Arena)
    ensures WellFormed(r)
  {
    if events == [] then Fresh() else Apply(Replay(events[..|events| - 1]), events[|events| - 1])
  }

  /** The calls in progress after some events, the innermost one last. */
  function CallStack(events: seq<Event>): seq<MethodInfo> {
    if events == [] then [] else
    var before := CallStack(events[..|events| - 1]);
    match events[|events| - 1]
    case Entered(m) => before + [m]
    case Left => if before == [] then [] else before[..|before| - 1]
    case Elapsed(_) => before
  }

  /** The ticks that passed while some call was in progress. */
  function TicksInCalls(events: seq<Event>): nat {
    if events == [] then 0 else
    var before := events[..|events| - 1];
    TicksInCalls(before) +
    match events[|events| - 1]
    case Elapsed(d) => if CallStack(before) == [] then 0 else d
    case _ => 0
  }

  /** The methods on the way from the root to a node. */
  function Path(a: Arena, i: nat): seq<MethodInfo>
    requires WellFormed(a) && i < |a.recs|
  {
    assert LinksAgree(a.recs, i);
    if i == 0 then [] else Path(a, a.recs[i].parent) + [a.recs[i].key.value]
  }

  function TotalTime(recs: seq<Rec>): nat {
    if recs == [] then 0 else TotalTime(recs[..|recs| - 1]) + recs[|recs| - 1].time
  }

  /** A path depends only on keys and parents, which no event changes. */
  lemma {:induction false} PathStays(a: Arena, e: Event, i: nat)
    requires WellFormed(a) && i < |a.recs|
    ensures i < |Apply(a, e).recs| && Path(Apply(a, e), i) == Path(a, i)
  {
    assert LinksAgree(a.recs, i);
    if i > 0 {
      PathStays(a, e, a.recs[i].parent);
    }
  }

  /** The parent chain from the cursor is the call stack. */
  lemma {:induction false} CursorPathIsCallStack(events: seq<Event>)
    ensures Path(Replay(events), Replay(events).cur) == CallStack(events)
    decreases |events|
  {
    if events != [] {
      var before, e := events[..|events| - 1], events[|events| - 1];
      CursorPathIsCallStack(before);
      PathStays(Replay(before), e, Replay(before).cur);
      if e.Left? && Replay(before).cur > 0 {
        PathStays(Replay(before), e, Replay(before).recs[Replay(before).cur].parent);
      }
    }
  }

  lemma {:induction false} TotalTimeUpdate(recs: seq<Rec>, i: nat, rec: Rec)
    requires i < |recs|
    ensures TotalTime(recs[i := rec]) == TotalTime(recs) - recs[i].time + rec.time
    decreases |recs|
  {
    if i == |recs| - 1 {
      assert recs[i := rec][..i] == recs[..i];
    } else {
      assert recs[i := rec][..|recs| - 1] == recs[..|recs| - 1][i := rec];
      TotalTimeUpdate(recs[..|recs| - 1], i, rec);
    }
  }

  /**
   Time is conserved: after any events, the elapsed times of all nodes together are the ticks that passed
   while a call was in progress, however the calls nest and whether they return or throw.
   */
  lemma {:induction false} TimeConserved(events: seq<Event>)
    ensures TotalTime(Replay(events).recs) == TicksInCalls(events)
    decreases |events|
  {
    if events != [] {
      var before, e := events[..|events| - 1], events[|events| - 1];
      var a := Replay(before);
      TimeConserved(before);
      CursorPathIsCallStack(before);
      match e
      case Entered(m) => EnterKeepsTime(a, m);
      case Left =>
      case Elapsed(d) => TickAddsTime(a, d);
    }
  }

  lemma EnterKeepsTime(a: Arena, m: MethodInfo)
    requires a.cur < |a.recs|
    ensures TotalTime(Enter(a, m).recs) == TotalTime(a.recs)
  {
    var recs := Enter(a, m).recs;
    TotalTimeUpdate(a.recs, a.cur, a.recs[a.cur].(kids := a.recs[a.cur].kids + [|a.recs|]));
    assert recs[..|recs| - 1] == a.recs[a.cur := recs[a.cur]];
  }

  lemma TickAddsTime(a: Arena, d: nat)
    requires a.cur < |a.recs|
    ensures TotalTime(Tick(a, d).recs) == TotalTime(a.recs) + if a.cur == 0 then 0 else d
  {
    if a.cur > 0 {
      TotalTimeUpdate(a.recs, a.cur, a.recs[a.cur].(time := a.recs[a.cur].time + d));
    }
  }
}
