/**
 Mocks that share a counter or a function, such as `g + g`: what happens to the limits, and the proof that
 they hold for every run exactly when nothing is shared.
 */
module MorocoSharing {
  import opened Options
  import opened MorocoFunc
  import opened MorocoMocks

  /** Nothing but the sharing can stop a call: no maximum is below one, and the guards accept (a, b). */
  ghost predicate Live(m: MFunc, a: A, b: B)
    decreases m, 0
  {
    (m.max.Some? ==> m.max.value >= 1) && FunLive(m.fun, a, b)
  }

  ghost predicate FunLive(ds: seq<Delegate>, a: A, b: B)
    decreases ds, 1
  {
    ds != [] ==> PartLive(ds[0], a, b) && FunLive(ds[1..], a, b)
  }

  ghost predicate PartLive(d: Delegate, a: A, b: B)
    decreases d, 1
  {
    match d
    case Through(inner) => Live(inner, a, b)
    case Checked(ok, inner) => ok(a, b) && Live(inner, a, b)
    case _ => true
  }

  ghost predicate Returning(w: World) {
    forall id, a, b, k :: w.user(id, a, b, k).Returned?
  }

  ghost predicate AtMostOnce(t: Tally) {
    forall id :: Count(t, id) <= 1
  }

  /** Each of the identities was counted between `t` and `u`, for the first time. */
  ghost predicate CountedOnce(ids: set<nat>, t: Tally, u: Tally) {
    forall id :: id in ids ==> Count(t, id) == 0 && Count(u, id) == 1
  }

  /** A call after which nothing stands above one has gone through everything, and nothing is shared. */
  lemma {:induction false} InvokeOnce(w: World, m: MFunc, a: A, b: B, t: Tally)
    requires Returning(w) && Live(m, a, b) && AtMostOnce(Invoke(w, m, a, b, t).tally)
    ensures Invoke(w, m, a, b, t).outcome.Returned? && Linear(m)
    ensures CountedOnce(Ids(m), t, Invoke(w, m, a, b, t).tally)
    decreases m, 0
  {
    InvokeGrows(w, m, a, b, t, m.id);
    MulticastOnce(w, m.fun, a, b, Bump(t, m.id), w.default_);
  }

  lemma {:induction false} MulticastOnce(w: World, ds: seq<Delegate>, a: A, b: B, t: Tally, last: R)
    requires Returning(w) && FunLive(ds, a, b) && AtMostOnce(Multicast(w, ds, a, b, t, last).tally)
    ensures Multicast(w, ds, a, b, t, last).outcome.Returned? && FunLinear(ds)
    ensures CountedOnce(FunIds(ds), t, Multicast(w, ds, a, b, t, last).tally)
    decreases ds, 1
  {
    if ds != [] {
      var e := InvokePart(w, ds[0], a, b, t);
      var u := Multicast(w, ds, a, b, t, last).tally;
      forall id: nat ensures Count(t, id) <= Count(e.tally, id) <= Count(u, id) {
        PartGrows(w, ds[0], a, b, t, id);
        if e.outcome.Returned? {
          MulticastGrows(w, ds[1..], a, b, e.tally, e.outcome.r, id);
        }
      }
      PartOnce(w, ds[0], a, b, t);
      MulticastOnce(w, ds[1..], a, b, e.tally, e.outcome.r);
    }
  }

  lemma {:induction false} PartOnce(w: World, d: Delegate, a: A, b: B, t: Tally)
    requires Returning(w) && PartLive(d, a, b) && AtMostOnce(InvokePart(w, d, a, b, t).tally)
    ensures InvokePart(w, d, a, b, t).outcome.Returned? && PartLinear(d)
    ensures CountedOnce(PartIds(d), t, InvokePart(w, d, a, b, t).tally)
    decreases d, 1
  {
    match d
    case Through(inner) => InvokeOnce(w, inner, a, b, t);
    case Checked(ok, inner) => InvokeOnce(w, inner, a, b, t);
    case User(id) => assert Count(Bump(t, id), id) == Count(t, id) + 1;
    case _ =>
  }

  /** The limits bound every identity of the value by the number of calls. */
  lemma {:induction false} LimitedCounts(m: MFunc, t: Tally, cap: Option<int>, calls: nat, id: nat)
    requires Limited(m, t, cap, calls) && id in Ids(m)
    ensures Count(t, id) <= calls
    decreases m, 0
  {
    if id != m.id {
      FunLimitedCounts(m.fun, t, Tighter(cap, m.max), calls, id);
    }
  }

  lemma {:induction false} FunLimitedCounts(ds: seq<Delegate>, t: Tally, cap: Option<int>, calls: nat, id: nat)
    requires FunLimited(ds, t, cap, calls) && id in FunIds(ds)
    ensures Count(t, id) <= calls
    decreases ds, 1
  {
    if id in PartIds(ds[0]) {
      PartLimitedCounts(ds[0], t, cap, calls, id);
    } else {
      FunLimitedCounts(ds[1..], t, cap, calls, id);
    }
  }

  lemma {:induction false} PartLimitedCounts(d: Delegate, t: Tally, cap: Option<int>, calls: nat, id: nat)
    requires PartLimited(d, t, cap, calls) && id in PartIds(d)
    ensures Count(t, id) <= calls
    decreases d, 1
  {
    match d
    case Through(inner) => LimitedCounts(inner, t, cap, calls, id);
    case Checked(_, inner) => LimitedCounts(inner, t, cap, calls, id);
    case _ =>
  }

  /** One call within the limits counts nothing twice. */
  lemma OneCall(w: World, f: MFunc, a: A, b: B)
    requires Limited(f, AfterCalls(w, f, [(a, b)]), None, 1)
    ensures AfterCalls(w, f, [(a, b)]) == Invoke(w, f, a, b, map[]).tally
    ensures AtMostOnce(AfterCalls(w, f, [(a, b)]))
  {
    var t := AfterCalls(w, f, [(a, b)]);
    assert [(a, b)][..0] == [] && AfterCalls(w, f, []) == map[];
    forall id: nat ensures Count(t, id) <= 1 {
      if id in Ids(f) {
        LimitedCounts(f, t, None, 1, id);
      } else {
        InvokeFrame(w, f, a, b, map[], id);
      }
    }
  }

  /**
   Where nothing else can stop a call, a mock keeps its limits over every sequence of calls exactly when it
   uses each counter and each function once.
   */
  lemma LimitsNeedLinear(w: World, f: MFunc, a: A, b: B)
    requires Returning(w) && Live(f, a, b)
    ensures (forall inputs: seq<(A, B)> :: Limited(f, AfterCalls(w, f, inputs), None, |inputs|)) <==> Linear(f)
  {
    if Linear(f) {
      forall inputs: seq<(A, B)> ensures Limited(f, AfterCalls(w, f, inputs), None, |inputs|) {
        MockLimits(w, f, inputs);
      }
    } else if Limited(f, AfterCalls(w, f, [(a, b)]), None, |[(a, b)]|) {
      OneCall(w, f, a, b);
      InvokeOnce(w, f, a, b, map[]);
    }
  }

  /**
   `g + g`, where `g` is a function of the test that may be called once: one call runs it twice, once
   without going through the counter of `g` and once through it.
   */
  lemma SharedOperand(w: World, h: nat, a: A, b: B)
    requires Returning(w)
    ensures var g := Build(New(Some(h), None, Some(1)), 0).0;
            var f := Build(Plus(Of(Existing(g)), MockFun(Existing(g))), 1).0;
            var t := AfterCalls(w, f, [(a, b)]);
            && f.max == Some(1) && Count(t, f.id) == 1 && Count(t, g.id) == 1 && Count(t, FunctionId(h)) == 2
            && !Linear(f) && !Limited(f, t, None, 1)
  {
    var x := FunctionId(h);
    var g := MFunc(0, None, Some(1), [User(x)]);
    var f := MFunc(2, None, Some(1), [User(x)] + [Through(g)]);
    assert Build(New(Some(h), None, Some(1)), 0) == (g, 1);
    assert Build(Existing(g), 1) == (g, 1);
    assert BuildOr(Of(Existing(g)), 1) == (g, 1) && BuildOperand(MockFun(Existing(g)), 1) == (Through(g), 1);
    assert Build(Plus(Of(Existing(g)), MockFun(Existing(g))), 1).0 == f;
    var t0: Tally := map[];
    var t1 := Bump(t0, 2);
    var t2 := Bump(t1, x);
    var t3 := Bump(t2, 0);
    OnePart(w, User(x), a, b, t3, w.default_);
    assert Invoke(w, g, a, b, t2).tally == Bump(t3, x);
    OnePart(w, Through(g), a, b, t2, w.user(x, a, b, 0).r);
    assert f.fun[1..] == [Through(g)];
    assert Multicast(w, f.fun, a, b, t1, w.default_).tally == Bump(t3, x);
    assert [(a, b)][..0] == [];
    assert AfterCalls(w, f, [(a, b)]) == Bump(t3, x);
    FunAppend([User(x)], Through(g));
    OneIds(User(x));
    if Limited(f, AfterCalls(w, f, [(a, b)]), None, 1) {
      LimitedCounts(f, AfterCalls(w, f, [(a, b)]), None, 1, x);
    }
    if Linear(f) {
      MockLimits(w, f, [(a, b)]);
    }
  }
}
