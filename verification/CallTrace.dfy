/**
 Whole calls: what an intercepted method does, the call forest it stands for, and the proof that the
 profiler's tree grows by exactly that forest, whichever calls throw.
 */
module CallTrace {
  import opened Options
  import opened CallTree

  /**
   What runs inside a call: time passes, the profiler is cleared, intercepted methods are called, with their
   exceptions caught or not, and in the end it returns or throws.
   */
  datatype Body =
    | End(throws: bool)
    | Work(ticks: nat, rest: Body)
    | Clear(rest: Body)
    | Invoke(m: MethodInfo, callee: Body, caught: bool, rest: Body)

  // What a body does by itself; module CallFailures says what clearing the profiler makes of it.

  predicate Throws(b: Body) {
    match b
    case End(throws) => throws
    case Work(_, rest) => Throws(rest)
    case Clear(rest) => Throws(rest)
    case Invoke(_, callee, caught, rest) => (Throws(callee) && !caught) || Throws(rest)
  }

  /** A call whose exception is not caught is the last thing its caller does. */
  predicate Aborts(b: Body)
    requires b.Invoke?
  {
    Throws(b.callee) && !b.caught
  }

  /** The ticks a body spends itself, outside the calls it makes. */
  function OwnTime(b: Body): nat {
    match b
    case End(_) => 0
    case Work(d, rest) => d + OwnTime(rest)
    case Clear(rest) => OwnTime(rest)
    case Invoke(_, _, _, rest) => if Aborts(b) then 0 else OwnTime(rest)
  }

  /** The calls a body makes, in order, each with its own time and its own calls. */
  function CallForest(b: Body): seq<Tree> {
    match b
    case End(_) => []
    case Work(_, rest) => CallForest(rest)
    case Clear(rest) => CallForest(rest)
    case Invoke(m, callee, _, rest) =>
      [Tree(Some(m), OwnTime(callee), CallForest(callee))] + (if Aborts(b) then [] else CallForest(rest))
  }

  /** The profiler's state after a body has run, if it is not cleared. */
  function After(a: Arena, b: Body): (r: Arena)
    requires WellFormed(a)
    ensures WellFormed(r)
    decreases b, 0
  {
    match b
    case End(_) => a
    case Work(d, rest) => After(Apply(a, Elapsed(d)), rest)
    case Clear(rest) => After(a, rest)
    case Invoke(m, callee, _, rest) =>
      if Aborts(b) then AfterCall(a, m, callee) else After(AfterCall(a, m, callee), rest)
  }

  function AfterCall(a: Arena, m: MethodInfo, callee: Body): (r: Arena)
    requires WellFormed(a)
    ensures WellFormed(r)
    decreases callee, 1
  {
    Apply(After(Apply(a, Entered(m)), callee), Left)
  }

  /** From `a` to `b` the cursor's node has gained `time` and some new children; older nodes are unchanged. */
  ghost predicate Grown(a: Arena, b: Arena, time: nat) {
    && WellFormed(a) && WellFormed(b)
    && b.cur == a.cur && |a.recs| <= |b.recs|
    && (forall i :: 0 <= i < |a.recs| && i != a.cur ==> b.recs[i] == a.recs[i])
    && b.recs[a.cur].key == a.recs[a.cur].key
    && b.recs[a.cur].parent == a.recs[a.cur].parent
    && b.recs[a.cur].time == a.recs[a.cur].time + time
    && a.recs[a.cur].kids <= b.recs[a.cur].kids
    && (forall k :: |a.recs[a.cur].kids| <= k < |b.recs[a.cur].kids| ==>
          |a.recs| <= b.recs[a.cur].kids[k] < |b.recs|)
  }

  function NewKids(a: Arena, b: Arena): seq<nat>
    requires a.cur < |a.recs| && a.cur < |b.recs| && |a.recs[a.cur].kids| <= |b.recs[a.cur].kids|
  {
    b.recs[a.cur].kids[|a.recs[a.cur].kids|..]
  }

  /** The forest that has been added under the cursor. */
  ghost function Gained(a: Arena, b: Arena): seq<Tree>
    requires exists time: nat :: Grown(a, b, time)
  {
    assert LinksAgree(b.recs, a.cur);
    ForestAt(b, a.cur, NewKids(a, b))
  }

  // ----- Trees do not change when older nodes do -----

  ghost predicate SameFrom(a: Arena, b: Arena, lo: nat) {
    && WellFormed(a) && WellFormed(b) && |a.recs| <= |b.recs|
    && forall j :: lo <= j < |a.recs| ==> a.recs[j] == b.recs[j]
  }

  lemma {:induction false} TreeStays(a: Arena, b: Arena, lo: nat, i: nat)
    requires SameFrom(a, b, lo) && lo <= i < |a.recs|
    ensures TreeAt(a, i) == TreeAt(b, i)
    decreases |a.recs| - i, 1, 0
  {
    assert LinksAgree(a.recs, i);
    ForestStays(a, b, lo, i, a.recs[i].kids);
  }

  lemma {:induction false} ForestStays(a: Arena, b: Arena, lo: nat, i: nat, ks: seq<nat>)
    requires SameFrom(a, b, lo) && i < |a.recs|
    requires forall k :: 0 <= k < |ks| ==> i < ks[k] < |a.recs| && lo <= ks[k]
    ensures ForestAt(a, i, ks) == ForestAt(b, i, ks)
    decreases |a.recs| - i, 0, |ks|
  {
    if ks != [] {
      TreeStays(a, b, lo, ks[0]);
      ForestStays(a, b, lo, i, ks[1..]);
    }
  }

  /** The forest of later nodes does not depend on the node it is listed under. */
  lemma {:induction false} ForestUnder(a: Arena, i: nat, j: nat, ks: seq<nat>)
    requires WellFormed(a) && i < |a.recs| && j < |a.recs|
    requires forall k :: 0 <= k < |ks| ==> i < ks[k] < |a.recs| && j < ks[k]
    ensures ForestAt(a, i, ks) == ForestAt(a, j, ks)
    decreases |ks|
  {
    if ks != [] {
      ForestUnder(a, i, j, ks[1..]);
    }
  }

  lemma {:induction false} ForestAppend(a: Arena, i: nat, ks: seq<nat>, ls: seq<nat>)
    requires WellFormed(a) && i < |a.recs|
    requires forall k :: 0 <= k < |ks| ==> i < ks[k] < |a.recs|
    requires forall k :: 0 <= k < |ls| ==> i < ls[k] < |a.recs|
    ensures ForestAt(a, i, ks + ls) == ForestAt(a, i, ks) + ForestAt(a, i, ls)
    decreases |ks|
  {
    if ks == [] {
      assert ks + ls == ls;
    } else {
      assert (ks + ls)[1..] == ks[1..] + ls;
      ForestAppend(a, i, ks[1..], ls);
    }
  }

  // ----- The tree equals the trace -----

  lemma GrowthAdds(a: Arena, b: Arena, c: Arena, t: nat, u: nat)
    requires Grown(a, b, t) && Grown(b, c, u)
    ensures Grown(a, c, t + u)
    ensures NewKids(a, c) == NewKids(a, b) + NewKids(b, c)
  {
    hide LinksAgree, TreeAt, ForestAt;
  }

  lemma GrownTwice(a: Arena, b: Arena, c: Arena, t: nat, u: nat)
    requires Grown(a, b, t) && Grown(b, c, u)
    ensures Grown(a, c, t + u)
    ensures Gained(a, c) == Gained(a, b) + Gained(b, c)
  {
    GrowthAdds(a, b, c, t, u);
    assert LinksAgree(b.recs, a.cur);
    assert LinksAgree(c.recs, a.cur);
    hide LinksAgree, TreeAt, ForestAt;
    ForestAppend(c, a.cur, NewKids(a, b), NewKids(b, c));
    ForestStays(b, c, |a.recs|, a.cur, NewKids(a, b));
  }

  lemma NothingGained(a: Arena)
    requires WellFormed(a)
    ensures Grown(a, a, 0) && Gained(a, a) == []
  {
  }

  lemma TickGrows(a: Arena, d: nat)
    requires WellFormed(a)
    ensures Grown(a, Apply(a, Elapsed(d)), if a.cur == 0 then 0 else d)
    ensures Gained(a, Apply(a, Elapsed(d))) == []
  {
  }

  /** One call, given what its body gains under the call's own node. */
  lemma CallGrows(a: Arena, m: MethodInfo, callee: Body)
    requires WellFormed(a)
    requires var e := Apply(a, Entered(m));
             Grown(e, After(e, callee), OwnTime(callee)) && Gained(e, After(e, callee)) == CallForest(callee)
    ensures Grown(a, AfterCall(a, m, callee), 0)
    ensures Gained(a, AfterCall(a, m, callee)) == [Tree(Some(m), OwnTime(callee), CallForest(callee))]
  {
    var n := |a.recs|;
    var e := Apply(a, Entered(m));
    var f := After(e, callee);
    var g := AfterCall(a, m, callee);
    assert LinksAgree(g.recs, n);
    assert NewKids(a, g) == [n];
    assert NewKids(e, f) == g.recs[n].kids;
    ForestStays(f, g, 0, n, g.recs[n].kids);
    assert ForestAt(g, a.cur, [n]) == [TreeAt(g, n)];
  }

  /**
   After any body, whichever of its calls throw and whichever exceptions are caught, the cursor is back,
   its node has gained exactly the body's call forest, in order, and every older node is as it was.
   */
  lemma {:induction false} TreeEqualsTrace(a: Arena, b: Body)
    requires WellFormed(a)
    ensures Grown(a, After(a, b), if a.cur == 0 then 0 else OwnTime(b))
    ensures Gained(a, After(a, b)) == CallForest(b)
    decreases b
  {
    match b
    case End(_) =>
      NothingGained(a);
    case Work(d, rest) =>
      var c := Apply(a, Elapsed(d));
      TickGrows(a, d);
      TreeEqualsTrace(c, rest);
      GrownTwice(a, c, After(c, rest), if a.cur == 0 then 0 else d, if a.cur == 0 then 0 else OwnTime(rest));
    case Clear(rest) =>
      TreeEqualsTrace(a, rest);
    case Invoke(m, callee, caught, rest) =>
      var c := AfterCall(a, m, callee);
      TreeEqualsTrace(Apply(a, Entered(m)), callee);
      CallGrows(a, m, callee);
      if !Aborts(b) {
        TreeEqualsTrace(c, rest);
        GrownTwice(a, c, After(c, rest), 0, if a.cur == 0 then 0 else OwnTime(rest));
      }
  }

  /** From a cleared profiler, the whole tree is the call forest. */
  lemma WholeTree(b: Body)
    ensures var a := After(Fresh(), b);
            a.cur == 0 && TreeAt(a, 0) == Tree(None, 0, CallForest(b))
  {
    TreeEqualsTrace(Fresh(), b);
    var a := After(Fresh(), b);
    assert NewKids(Fresh(), a) == a.recs[0].kids;
  }
}
