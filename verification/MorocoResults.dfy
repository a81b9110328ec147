/**
 What a call of a mock gives. A mock is read as the sequence of what a call comes to: drawing from counters,
 guards, and user functions. The first of them that stops decides that the call throws; if none does, the
 last leaf of the mock decides the result.
 */
module MorocoResults {
  import opened Options
  import opened MorocoCounter
  import opened MorocoFunc
  import opened MorocoMocks

  datatype Event =
    | Draws(id: nat, max: Option<int>)
    | Guards(ok: (A, B) -> bool)
    | Starts(id: nat)

  function Events(m: MFunc): seq<Event>
    decreases m, 0
  {
    [Draws(m.id, m.max)] + FunEvents(m.fun)
  }

  function FunEvents(ds: seq<Delegate>): seq<Event>
    decreases ds, 1
  {
    if ds == [] then [] else PartEvents(ds[0]) + FunEvents(ds[1..])
  }

  function PartEvents(d: Delegate): seq<Event>
    decreases d, 1
  {
    match d
    case User(id) => [Starts(id)]
    case Through(inner) => Events(inner)
    case Checked(ok, inner) => [Guards(ok)] + Events(inner)
    case _ => []
  }

  /** How often events count an identity. */
  function Times(es: seq<Event>, id: nat): nat {
    if es == [] then 0
    else (if es[0].Guards? || es[0].id != id then 0 else 1) + Times(es[1..], id)
  }

  /**
   Event `i` stops the call: its counter has passed the maximum, its guard refuses, or its function throws on
   this input, run as often as it has been before the call and before this event.
   */
  ghost predicate Stops(w: World, es: seq<Event>, i: nat, a: A, b: B, t: Tally)
    requires i < |es|
  {
    match es[i]
    case Draws(id, max) => max.Some? && Count(t, id) + Times(es[..i], id) + 1 > max.value
    case Guards(ok) => !ok(a, b)
    case Starts(id) => w.user(id, a, b, Count(t, id) + Times(es[..i], id)).Threw?
  }

  ghost predicate Stopped(w: World, es: seq<Event>, a: A, b: B, t: Tally) {
    exists i :: 0 <= i < |es| && Stops(w, es, i, a, b, t)
  }

  // ----- One event after the other -----

  datatype Walked = Walked(stopped: bool, tally: Tally)

  function Meet(w: World, e: Event, a: A, b: B, t: Tally): Walked {
    match e
    case Draws(id, max) => Walked(max.Some? && Count(t, id) + 1 > max.value, Bump(t, id))
    case Guards(ok) => Walked(!ok(a, b), t)
    case Starts(id) => Walked(w.user(id, a, b, Count(t, id)).Threw?, Bump(t, id))
  }

  function Walk(w: World, es: seq<Event>, a: A, b: B, t: Tally): Walked {
    if es == [] then Walked(false, t) else
    var r := Meet(w, es[0], a, b, t);
    if r.stopped then r else Walk(w, es[1..], a, b, r.tally)
  }

  lemma {:induction false} WalkAppend(w: World, es: seq<Event>, fs: seq<Event>, a: A, b: B, t: Tally)
    ensures var r := Walk(w, es, a, b, t);
            Walk(w, es + fs, a, b, t) == if r.stopped then r else Walk(w, fs, a, b, r.tally)
  {
    if es == [] {
      assert es + fs == fs;
    } else {
      assert (es + fs)[1..] == es[1..] + fs;
      var r := Meet(w, es[0], a, b, t);
      if !r.stopped {
        WalkAppend(w, es[1..], fs, a, b, r.tally);
      }
    }
  }

  lemma WalkOne(w: World, e: Event, es: seq<Event>, a: A, b: B, t: Tally)
    ensures var r := Meet(w, e, a, b, t);
            Walk(w, [e] + es, a, b, t) == if r.stopped then r else Walk(w, es, a, b, r.tally)
  {
    assert ([e] + es)[1..] == es;
  }

  function Seen(e: Effect): Walked {
    Walked(e.outcome.Threw?, e.tally)
  }

  /** A call is the walk along its events. */
  lemma {:induction false} InvokeWalks(w: World, m: MFunc, a: A, b: B, t: Tally)
    ensures Seen(Invoke(w, m, a, b, t)) == Walk(w, Events(m), a, b, t)
    decreases m, 0
  {
    WalkOne(w, Draws(m.id, m.max), FunEvents(m.fun), a, b, t);
    MulticastWalks(w, m.fun, a, b, Bump(t, m.id), w.default_);
  }

  lemma {:induction false} MulticastWalks(w: World, ds: seq<Delegate>, a: A, b: B, t: Tally, last: R)
    ensures Seen(Multicast(w, ds, a, b, t, last)) == Walk(w, FunEvents(ds), a, b, t)
    decreases ds, 1
  {
    if ds != [] {
      var e := InvokePart(w, ds[0], a, b, t);
      PartWalks(w, ds[0], a, b, t);
      WalkAppend(w, PartEvents(ds[0]), FunEvents(ds[1..]), a, b, t);
      if e.outcome.Returned? {
        MulticastWalks(w, ds[1..], a, b, e.tally, e.outcome.r);
      }
    }
  }

  lemma {:induction false} PartWalks(w: World, d: Delegate, a: A, b: B, t: Tally)
    ensures Seen(InvokePart(w, d, a, b, t)) == Walk(w, PartEvents(d), a, b, t)
    decreases d, 1
  {
    match d
    case User(id) => WalkOne(w, Starts(id), [], a, b, t); assert [Starts(id)] + [] == [Starts(id)];
    case Through(inner) => InvokeWalks(w, inner, a, b, t);
    case Checked(ok, inner) => WalkOne(w, Guards(ok), Events(inner), a, b, t); InvokeWalks(w, inner, a, b, t);
    case _ =>
  }

  // ----- The first event that stops -----

  lemma MeetCounts(w: World, e: Event, a: A, b: B, t: Tally, id: nat)
    ensures Count(Meet(w, e, a, b, t).tally, id) == Count(t, id) + Times([e], id)
  {
    assert [e][1..] == [];
  }

  /** Stopping later, seen from after the first event. */
  lemma StopsLater(w: World, es: seq<Event>, i: nat, a: A, b: B, t: Tally)
    requires 0 < i < |es|
    ensures Stops(w, es, i, a, b, t) <==> Stops(w, es[1..], i - 1, a, b, Meet(w, es[0], a, b, t).tally)
  {
    assert es[..i][1..] == es[1..][..i - 1] && es[..i][0] == es[0];
    match es[i] {
      case Draws(id, _) => MeetCounts(w, es[0], a, b, t, id); assert [es[0]][1..] == [];
      case Starts(id) => MeetCounts(w, es[0], a, b, t, id); assert [es[0]][1..] == [];
      case Guards(_) =>
    }
  }

  lemma StopsFirst(w: World, es: seq<Event>, a: A, b: B, t: Tally)
    requires es != []
    ensures Stops(w, es, 0, a, b, t) <==> Meet(w, es[0], a, b, t).stopped
  {
    assert es[..0] == [];
  }

  /** A walk stops exactly when some event does. */
  lemma {:induction false} WalkStops(w: World, es: seq<Event>, a: A, b: B, t: Tally)
    ensures Walk(w, es, a, b, t).stopped <==> Stopped(w, es, a, b, t)
  {
    if es != [] {
      var r := Meet(w, es[0], a, b, t);
      StopsFirst(w, es, a, b, t);
      if !r.stopped {
        WalkStops(w, es[1..], a, b, r.tally);
        forall i | 0 < i < |es|
          ensures Stops(w, es, i, a, b, t) <==> Stops(w, es[1..], i - 1, a, b, r.tally)
        {
          StopsLater(w, es, i, a, b, t);
        }
        if j :| 0 <= j < |es[1..]| && Stops(w, es[1..], j, a, b, r.tally) {
          assert Stops(w, es, j + 1, a, b, t);
        }
      }
    }
  }

  lemma {:induction false} WalkCounts(w: World, es: seq<Event>, a: A, b: B, t: Tally, id: nat)
    requires !Walk(w, es, a, b, t).stopped
    ensures Count(Walk(w, es, a, b, t).tally, id) == Count(t, id) + Times(es, id)
  {
    if es != [] {
      var r := Meet(w, es[0], a, b, t);
      MeetCounts(w, es[0], a, b, t, id);
      assert [es[0]][1..] == [];
      WalkCounts(w, es[1..], a, b, r.tally, id);
    }
  }

  /**
   A call throws exactly when a counter on its way has passed its maximum, a guard refuses, or a user function
   throws; a call that returns has counted every event.
   */
  lemma CallThrows(w: World, m: MFunc, a: A, b: B, t: Tally)
    ensures var e := Invoke(w, m, a, b, t);
            && (e.outcome.Threw? <==> Stopped(w, Events(m), a, b, t))
            && (e.outcome.Returned? ==> forall id :: Count(e.tally, id) == Count(t, id) + Times(Events(m), id))
  {
    InvokeWalks(w, m, a, b, t);
    WalkStops(w, Events(m), a, b, t);
    if Invoke(w, m, a, b, t).outcome.Returned? {
      forall id ensures Count(Invoke(w, m, a, b, t).tally, id) == Count(t, id) + Times(Events(m), id) {
        WalkCounts(w, Events(m), a, b, t, id);
      }
    }
  }

  // ----- The result -----

  /** The leaf that is reached by going into the last part again and again. */
  function LastLeaf(m: MFunc): Delegate
    decreases m, 0
  {
    if m.fun == [] then Default else LeafOf(m.fun[|m.fun| - 1])
  }

  function LeafOf(d: Delegate): Delegate
    decreases d, 1
  {
    match d
    case Through(inner) => LastLeaf(inner)
    case Checked(_, inner) => LastLeaf(inner)
    case _ => d
  }

  /** What a leaf gives after it has run for the last time, with the counts as they are then. */
  function GivenBy(w: World, leaf: Delegate, a: A, b: B, t: Tally): Outcome {
    match leaf
    case User(id) => if Count(t, id) > 0 then w.user(id, a, b, Count(t, id) - 1) else Threw
    case Constant(v) => Outcome.Returned(v)
    case Default => Outcome.Returned(w.default_)
    case _ => Threw
  }

  /**
   A call that returns gives the result of the last leaf: what the user function returned on this input at its
   present count, the constant of `Return`, or the default.
   */
  lemma {:induction false} CallGives(w: World, m: MFunc, a: A, b: B, t: Tally)
    requires Invoke(w, m, a, b, t).outcome.Returned?
    ensures var e := Invoke(w, m, a, b, t); e.outcome == GivenBy(w, LastLeaf(m), a, b, e.tally)
    decreases m, 0
  {
    if m.fun != [] {
      MulticastGives(w, m.fun, a, b, Bump(t, m.id), w.default_);
    }
  }

  lemma {:induction false} MulticastGives(w: World, ds: seq<Delegate>, a: A, b: B, t: Tally, last: R)
    requires ds != [] && Multicast(w, ds, a, b, t, last).outcome.Returned?
    ensures var e := Multicast(w, ds, a, b, t, last);
            e.outcome == GivenBy(w, LeafOf(ds[|ds| - 1]), a, b, e.tally)
    decreases ds, 1
  {
    var e := InvokePart(w, ds[0], a, b, t);
    if |ds| == 1 {
      PartGives(w, ds[0], a, b, t);
    } else {
      assert ds[1..][|ds| - 2] == ds[|ds| - 1];
      MulticastGives(w, ds[1..], a, b, e.tally, e.outcome.r);
    }
  }

  lemma {:induction false} PartGives(w: World, d: Delegate, a: A, b: B, t: Tally)
    requires InvokePart(w, d, a, b, t).outcome.Returned?
    ensures var e := InvokePart(w, d, a, b, t); e.outcome == GivenBy(w, LeafOf(d), a, b, e.tally)
    decreases d, 1
  {
    match d
    case Through(inner) => CallGives(w, inner, a, b, t);
    case Checked(_, inner) => CallGives(w, inner, a, b, t);
    case _ =>
  }

  // ----- What the combinators build -----

  /** The bounds of a mock, what a call comes to below its own counter, and the leaf that decides. */
  ghost predicate Is(m: MFunc, min: Option<int>, max: Option<int>, below: seq<Event>, leaf: Delegate) {
    m.min == min && m.max == max && FunEvents(m.fun) == below && LastLeaf(m) == leaf
  }

  lemma {:induction false} EventsSnoc(ds: seq<Delegate>, d: Delegate)
    ensures FunEvents(ds + [d]) == FunEvents(ds) + PartEvents(d)
  {
    if ds == [] {
      assert ds + [d] == [d] && [d][1..] == [];
    } else {
      assert (ds + [d])[1..] == ds[1..] + [d];
      EventsSnoc(ds[1..], d);
    }
  }

  lemma OneEvents(d: Delegate)
    ensures FunEvents([d]) == PartEvents(d)
  {
    assert [d][1..] == [];
  }

  /** A new mock has the given function, or none, and the given bounds; null is unbounded and has none. */
  lemma NewIs(fun: Option<nat>, min: Option<int>, max: Option<int>, n: nat)
    ensures Is(Build(New(fun, min, max), n).0, min, max,
               if fun.Some? then [Starts(FunctionId(fun.value))] else [],
               if fun.Some? then User(FunctionId(fun.value)) else Default)
    ensures Is(BuildOr(Null, n).0, None, None, [], Default)
  {
    OneEvents(if fun.Some? then User(FunctionId(fun.value)) else Default);
    OneEvents(Default);
  }

  /** `+` comes to all that the left functions come to, then to the right operand, which decides. */
  lemma PlusIs(left: Expr, right: Operand, n: nat)
    ensures var (f, k) := BuildOr(left, n);
            && (right.UserFun? ==>
                  Is(Build(Plus(left, right), n).0, f.min, f.max,
                     FunEvents(f.fun) + [Starts(FunctionId(right.h))], User(FunctionId(right.h))))
            && (right.MockFun? ==>
                  var d := Build(right.m, k).0;
                  Is(Build(Plus(left, right), n).0, f.min, f.max, FunEvents(f.fun) + Events(d), LastLeaf(d)))
  {
    var (f, k) := BuildOr(left, n);
    EventsSnoc(f.fun, BuildOperand(right, k).0);
  }

  /** `Arg1` and `Arg2` come to the guard and then to the whole inner mock. */
  lemma ArgIs(e: Expr, ok: (A, B) -> bool, n: nat)
    ensures var f := BuildOr(e, n).0;
            Is(Build(Arg(e, ok), n).0, f.min, f.max, [Guards(ok)] + Events(f), LastLeaf(f))
  {
    OneEvents(Checked(ok, BuildOr(e, n).0));
  }

  /** `Return` keeps all that the functions of the mock come to, and decides the result. */
  lemma ReturnIs(e: Expr, v: R, n: nat)
    ensures var f := BuildOr(e, n).0;
            Is(Build(Return(e, v), n).0, f.min, f.max, FunEvents(f.fun), Constant(v))
  {
    EventsSnoc(BuildOr(e, n).0.fun, Constant(v));
  }

  /** `Expect` comes to the whole inner mock, with bounds of its own. */
  lemma ExpectIs(e: Expr, expected: int, n: nat)
    ensures var f := BuildOr(e, n).0;
            Is(Build(Expect(e, expected), n).0, Some(expected), Some(expected), Events(f), LastLeaf(f))
  {
    OneEvents(Through(BuildOr(e, n).0));
  }

  /** A call passes its own counter and then all that is below it. */
  lemma OwnCounterFirst(w: World, m: MFunc, a: A, b: B, t: Tally)
    ensures Invoke(w, m, a, b, t).outcome.Threw? <==>
              (m.max.Some? && Count(t, m.id) + 1 > m.max.value)
              || Stopped(w, FunEvents(m.fun), a, b, Bump(t, m.id))
  {
    InvokeWalks(w, m, a, b, t);
    WalkOne(w, Draws(m.id, m.max), FunEvents(m.fun), a, b, t);
    WalkStops(w, FunEvents(m.fun), a, b, Bump(t, m.id));
  }

  /**
   A call of a mock built with `Return`: it throws exactly when its own counter has passed the maximum or the
   functions of the mock that it was applied to stop it, and otherwise it gives the value, after it has gone
   through all of them.
   */
  lemma ReturnDecides(w: World, e: Expr, v: R, n: nat, a: A, b: B, t: Tally)
    ensures var f := BuildOr(e, n).0;
            var g := Build(Return(e, v), n).0;
            var r := Invoke(w, g, a, b, t);
            && (r.outcome.Threw? <==>
                  (g.max.Some? && Count(t, g.id) + 1 > g.max.value)
                  || Stopped(w, FunEvents(f.fun), a, b, Bump(t, g.id)))
            && (r.outcome.Returned? ==> r.outcome.r == v)
            && (r.outcome.Returned? ==> forall id :: id in FunIds(f.fun) ==> Count(r.tally, id) > Count(t, id))
  {
    var f := BuildOr(e, n).0;
    var g := Build(Return(e, v), n).0;
    ReturnIs(e, v, n);
    OwnCounterFirst(w, g, a, b, t);
    if Invoke(w, g, a, b, t).outcome.Returned? {
      CallGives(w, g, a, b, t);
      FunAppend(f.fun, Constant(v));
      forall id | id in FunIds(f.fun) ensures Count(Invoke(w, g, a, b, t).tally, id) > Count(t, id) {
        InvokeVisits(w, g, a, b, t, id);
      }
    }
  }

  /**
   The sum of two mocks: a call throws exactly when the new counter has passed the left maximum, the left
   functions stop it, or the right operand stops it after them.
   */
  lemma PlusDecides(w: World, left: Expr, right: Operand, n: nat, a: A, b: B, t: Tally)
    ensures var (f, k) := BuildOr(left, n);
            var d := BuildOperand(right, k).0;
            var g := Build(Plus(left, right), n).0;
            var r := Invoke(w, g, a, b, t);
            && (r.outcome.Threw? <==>
                  (g.max.Some? && Count(t, g.id) + 1 > g.max.value)
                  || Stopped(w, FunEvents(f.fun) + PartEvents(d), a, b, Bump(t, g.id)))
            && (r.outcome.Returned? ==> r.outcome == GivenBy(w, LeafOf(d), a, b, r.tally))
            && (r.outcome.Returned? ==> forall id :: id in FunIds(f.fun) ==> Count(r.tally, id) > Count(t, id))
  {
    var (f, k) := BuildOr(left, n);
    var d := BuildOperand(right, k).0;
    var g := Build(Plus(left, right), n).0;
    EventsSnoc(f.fun, d);
    OwnCounterFirst(w, g, a, b, t);
    if Invoke(w, g, a, b, t).outcome.Returned? {
      CallGives(w, g, a, b, t);
      FunAppend(f.fun, d);
      forall id | id in FunIds(f.fun) ensures Count(Invoke(w, g, a, b, t).tally, id) > Count(t, id) {
        InvokeVisits(w, g, a, b, t, id);
      }
    }
  }

  function Arg1(e: Expr, x: A): Mock {
    Arg(e, (a: A, b: B) => a == x)
  }

  function Arg2(e: Expr, y: B): Mock {
    Arg(e, (a: A, b: B) => b == y)
  }

  function Args(e: Expr, x: A, y: B): Mock {
    Arg2(Of(Arg1(e, x)), y)
  }

  /**
   `Args(x, y)`: a call with any other arguments throws, and nothing of the wrapped mock is counted or run; a
   call that returns had these arguments and gave what the wrapped mock gave.
   */
  lemma ArgsCheck(w: World, e: Expr, x: A, y: B, n: nat, a: A, b: B, t: Tally)
    requires Older(UsesOf(e), n)
    ensures var (f, k) := BuildOr(e, n);
            var g := Build(Args(e, x, y), n).0;
            var r := Invoke(w, g, a, b, t);
            && g.min == f.min && g.max == f.max
            && (a != x || b != y ==>
                  r.outcome.Threw? && forall id :: id in Ids(f) ==> Count(r.tally, id) == Count(t, id))
            && (r.outcome.Returned? ==> r == Invoke(w, f, a, b, Bump(Bump(t, CounterId(k + 1)), CounterId(k))))
  {
    hide Invoke, Uses, UsesOf, Ids;
    var (f, k) := BuildOr(e, n);
    var inner := Build(Arg1(e, x), n).0;
    BuildOrFits(e, n);
    assert BuildOr(Of(Arg1(e, x)), n) == (inner, k + 1) && inner.id == CounterId(k);
    ArgGuards(w, Of(Arg1(e, x)), (a: A, b: B) => b == y, n, a, b, t);
    ArgGuards(w, e, (a: A, b: B) => a == x, n, a, b, Bump(t, CounterId(k + 1)));
  }
}
