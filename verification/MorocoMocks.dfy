/**
 The combinators that build counted functions, and what every mock built with them guarantees when it is
 called through its outermost layer only.
 */
module MorocoMocks {
  import opened Options
  import opened MorocoFunc
  import opened MorocoCounter

  /** A mock field of a test is null until something is assigned to it. */
  datatype Expr = Null | Of(mock: Mock)

  /** `Existing` is a mock built before and held in a variable; it may be named more than once. */
  datatype Mock =
    | Existing(built: MFunc)
    | New(fun: Option<nat>, min: Option<int>, max: Option<int>)
    | Plus(left: Expr, right: Operand)
    | Arg(f: Expr, ok: (A, B) -> bool)
    | Return(f: Expr, v: R)
    | Expect(f: Expr, expected: int)

  /** The right operand of `+` is a function of the test or a mock converted to one. */
  datatype Operand = UserFun(h: nat) | MockFun(m: Mock)

  /** Counters have even identities, in the order in which they are made; functions of the test odd ones. */
  function CounterId(n: nat): nat { 2 * n }

  function FunctionId(h: nat): nat { 2 * h + 1 }

  /** The MFunc that an expression builds when `n` counters exist, and how many exist then. */
  function Build(m: Mock, n: nat): (MFunc, nat)
    decreases m, 0
  {
    match m
    case Existing(f) => (f, n)
    case New(fun, min, max) =>
      (MFunc(CounterId(n), min, max, [if fun.Some? then User(FunctionId(fun.value)) else Default]), n + 1)
    case Plus(left, right) =>
      var (f, k) := BuildOr(left, n);
      var (d, l) := BuildOperand(right, k);
      (MFunc(CounterId(l), f.min, f.max, f.fun + [d]), l + 1)
    case Arg(e, ok) =>
      var (f, k) := BuildOr(e, n);
      (MFunc(CounterId(k), f.min, f.max, [Checked(ok, f)]), k + 1)
    case Return(e, v) =>
      var (f, k) := BuildOr(e, n);
      (MFunc(CounterId(k), f.min, f.max, f.fun + [Constant(v)]), k + 1)
    case Expect(e, expected) =>
      var (f, k) := BuildOr(e, n);
      (MFunc(CounterId(k), Some(expected), Some(expected), [Through(f)]), k + 1)
  }

  /** Every combinator replaces null by an unbounded function that returns default(R). */
  function BuildOr(e: Expr, n: nat): (MFunc, nat)
    decreases e, 1
  {
    match e
    case Null => (MFunc(CounterId(n), None, None, [Default]), n + 1)
    case Of(m) => Build(m, n)
  }

  function BuildOperand(o: Operand, n: nat): (Delegate, nat)
    decreases o, 1
  {
    match o
    case UserFun(h) => (User(FunctionId(h)), n)
    case MockFun(m) => var (f, k) := Build(m, n); (Through(f), k)
  }

  // ----- The identities of what is built -----

  /** What an expression names: functions of the test, and all that existing mocks contain. */
  function Uses(m: Mock): set<nat>
    decreases m, 0
  {
    match m
    case Existing(f) => Ids(f)
    case New(fun, _, _) => if fun.Some? then {FunctionId(fun.value)} else {}
    case Plus(left, right) => UsesOf(left) + OperandUses(right)
    case Arg(e, _) => UsesOf(e)
    case Return(e, _) => UsesOf(e)
    case Expect(e, _) => UsesOf(e)
  }

  function UsesOf(e: Expr): set<nat>
    decreases e, 1
  {
    match e
    case Null => {}
    case Of(m) => Uses(m)
  }

  function OperandUses(o: Operand): set<nat>
    decreases o, 1
  {
    match o
    case UserFun(h) => {FunctionId(h)}
    case MockFun(m) => Uses(m)
  }

  /** No existing mock and no function of the test is named twice, and existing mocks share nothing. */
  ghost predicate UsedOnce(m: Mock)
    decreases m, 0
  {
    match m
    case Existing(f) => Linear(f)
    case New(_, _, _) => true
    case Plus(left, right) =>
      && UsedOnceIn(left) && (right.MockFun? ==> UsedOnce(right.m))
      && UsesOf(left) !! OperandUses(right)
    case Arg(e, _) => UsedOnceIn(e)
    case Return(e, _) => UsedOnceIn(e)
    case Expect(e, _) => UsedOnceIn(e)
  }

  ghost predicate UsedOnceIn(e: Expr)
    decreases e, 1
  {
    e.Of? ==> UsedOnce(e.mock)
  }

  /** The counters among `ids` exist already. */
  ghost predicate Older(ids: set<nat>, n: nat) {
    forall id :: id in ids && id % 2 == 0 ==> id < CounterId(n)
  }

  /** Everything is named by the expression or a counter made between `n` and `k`. */
  ghost predicate Fits(ids: set<nat>, uses: set<nat>, n: nat, k: nat) {
    n <= k && forall id :: id in ids && id !in uses ==> id % 2 == 0 && CounterId(n) <= id < CounterId(k)
  }

  lemma {:induction false} FunAppend(ds: seq<Delegate>, d: Delegate)
    ensures FunIds(ds + [d]) == FunIds(ds) + PartIds(d)
    ensures FunLinear(ds) && PartLinear(d) && FunIds(ds) !! PartIds(d) ==> FunLinear(ds + [d])
  {
    if ds == [] {
      assert ds + [d] == [d];
      assert FunIds([d]) == PartIds(d) + FunIds([d][1..]);
    } else {
      assert (ds + [d])[1..] == ds[1..] + [d];
      FunAppend(ds[1..], d);
    }
  }

  ghost predicate Made(f: MFunc, uses: set<nat>, n: nat, k: nat) {
    k > n && f.id == CounterId(k - 1) && Fits(FunIds(f.fun), uses, n, k - 1)
  }

  /** What a combinator makes has a counter of its own, later than all that is below it. */
  lemma {:induction false} BuildFits(m: Mock, n: nat)
    ensures var (f, k) := Build(m, n); if m.Existing? then n == k else Made(f, Uses(m), n, k)
    decreases m, 0
  {
    match m
    case Existing(_) =>
    case New(fun, _, _) =>
      OneIds(if fun.Some? then User(FunctionId(fun.value)) else Default);
    case Plus(left, right) =>
      var (f, k) := BuildOr(left, n);
      BuildOrFits(left, n);
      OperandFits(right, k);
      FunAppend(f.fun, BuildOperand(right, k).0);
      assert FunIds(f.fun) <= Ids(f);
    case Arg(e, ok) =>
      BuildOrFits(e, n);
      OneIds(Checked(ok, BuildOr(e, n).0));
    case Return(e, v) =>
      BuildOrFits(e, n);
      FunAppend(BuildOr(e, n).0.fun, Constant(v));
    case Expect(e, _) =>
      BuildOrFits(e, n);
      OneIds(Through(BuildOr(e, n).0));
  }

  lemma {:induction false} BuildOrFits(e: Expr, n: nat)
    ensures var (f, k) := BuildOr(e, n); Fits(Ids(f), UsesOf(e), n, k)
    decreases e, 2
  {
    match e
    case Null => OneIds(Default);
    case Of(m) => MockFits(m, n);
  }

  lemma {:induction false} MockFits(m: Mock, n: nat)
    ensures var (f, k) := Build(m, n); Fits(Ids(f), Uses(m), n, k)
    decreases m, 1
  {
    BuildFits(m, n);
  }

  lemma {:induction false} OperandFits(o: Operand, n: nat)
    ensures var (d, k) := BuildOperand(o, n); Fits(PartIds(d), OperandUses(o), n, k)
    decreases o, 2
  {
    match o
    case UserFun(_) =>
    case MockFun(m) => MockFits(m, n);
  }

  /** The counter of a function does not occur below it: nothing contains itself. */
  ghost predicate Proper(f: MFunc) {
    f.id !in FunIds(f.fun)
  }

  /** Whatever is shared, the counter of a built mock is not below it. */
  lemma BuildOrProper(e: Expr, n: nat)
    requires Older(UsesOf(e), n)
    requires e.Of? && e.mock.Existing? ==> Proper(e.mock.built)
    ensures Proper(BuildOr(e, n).0)
  {
    if e.Of? {
      BuildFits(e.mock, n);
    } else {
      OneIds(Default);
    }
  }

  /**
   A mock built from mocks that share nothing, each of them and each function of the test named once, uses
   every counter and every function once.
   */
  lemma {:induction false} BuildLinear(m: Mock, n: nat)
    requires UsedOnce(m) && Older(Uses(m), n)
    ensures Linear(Build(m, n).0)
    decreases m, 0
  {
    BuildFits(m, n);
    match m
    case Existing(_) =>
    case New(fun, _, _) =>
      OneIds(if fun.Some? then User(FunctionId(fun.value)) else Default);
    case Plus(left, right) =>
      BuildOrFits(left, n);
      BuildOrLinear(left, n);
      if right.MockFun? {
        BuildLinear(right.m, BuildOr(left, n).1);
      }
      PlusLinear(left, right, n);
    case Arg(e, ok) =>
      BuildOrLinear(e, n);
      OneIds(Checked(ok, BuildOr(e, n).0));
    case Return(e, v) =>
      BuildOrLinear(e, n);
      FunAppend(BuildOr(e, n).0.fun, Constant(v));
    case Expect(e, _) =>
      BuildOrLinear(e, n);
      OneIds(Through(BuildOr(e, n).0));
  }

  lemma PlusLinear(left: Expr, right: Operand, n: nat)
    requires UsesOf(left) !! OperandUses(right) && Older(UsesOf(left) + OperandUses(right), n)
    requires Linear(BuildOr(left, n).0) && PartLinear(BuildOperand(right, BuildOr(left, n).1).0)
    ensures FunLinear(Build(Plus(left, right), n).0.fun)
  {
    var (f, k) := BuildOr(left, n);
    var d := BuildOperand(right, k).0;
    BuildOrFits(left, n);
    OperandFits(right, k);
    forall id | id in FunIds(f.fun) ensures id !in PartIds(d) {
      assert id in Ids(f);
    }
    FunAppend(f.fun, d);
  }

  lemma {:induction false} BuildOrLinear(e: Expr, n: nat)
    requires UsedOnceIn(e) && Older(UsesOf(e), n)
    ensures Linear(BuildOr(e, n).0)
    decreases e, 1
  {
    match e
    case Null => OneIds(Default);
    case Of(m) => BuildLinear(m, n);
  }

  // ----- What a mock guarantees -----

  function AfterCalls(w: World, f: MFunc, inputs: seq<(A, B)>): Tally
    decreases |inputs|
  {
    if inputs == [] then map[] else
    var k := |inputs| - 1;
    Invoke(w, f, inputs[k].0, inputs[k].1, AfterCalls(w, f, inputs[..k])).tally
  }

  function Tighter(cap: Option<int>, max: Option<int>): Option<int> {
    if cap.None? then max else if max.None? || cap.value <= max.value then cap else max
  }

  predicate Under(cap: Option<int>, count: nat) {
    cap.Some? ==> count == 0 || count <= cap.value
  }

  /**
   Every user function below has run at most `calls` times, and at most as often as the smallest maximum on
   its path allows; every counter below stands at most at `calls`.
   */
  ghost predicate Limited(m: MFunc, t: Tally, cap: Option<int>, calls: nat)
    decreases m, 0
  {
    Count(t, m.id) <= calls && FunLimited(m.fun, t, Tighter(cap, m.max), calls)
  }

  ghost predicate FunLimited(ds: seq<Delegate>, t: Tally, cap: Option<int>, calls: nat)
    decreases ds, 1
  {
    ds != [] ==> PartLimited(ds[0], t, cap, calls) && FunLimited(ds[1..], t, cap, calls)
  }

  ghost predicate PartLimited(d: Delegate, t: Tally, cap: Option<int>, calls: nat)
    decreases d, 1
  {
    match d
    case User(id) => Count(t, id) <= calls && Under(cap, Count(t, id))
    case Through(inner) => Limited(inner, t, cap, calls)
    case Checked(_, inner) => Limited(inner, t, cap, calls)
    case _ => true
  }

  lemma {:induction false} LimitFun(ds: seq<Delegate>, t: Tally, p: nat, cap: Option<int>, calls: nat)
    requires FunBounded(ds, t, p) && p <= calls && Under(cap, p)
    ensures FunLimited(ds, t, cap, calls)
    decreases ds, 1
  {
    if ds != [] {
      LimitPart(ds[0], t, p, cap, calls);
      LimitFun(ds[1..], t, p, cap, calls);
    }
  }

  lemma {:induction false} LimitPart(d: Delegate, t: Tally, p: nat, cap: Option<int>, calls: nat)
    requires PartBounded(d, t, p) && p <= calls && Under(cap, p)
    ensures PartLimited(d, t, cap, calls)
    decreases d, 1
  {
    match d
    case Through(inner) =>
      LimitFun(inner.fun, t, FirstOf(inner.max, Count(t, inner.id)), Tighter(cap, inner.max), calls);
    case Checked(_, inner) =>
      LimitFun(inner.fun, t, FirstOf(inner.max, Count(t, inner.id)), Tighter(cap, inner.max), calls);
    case _ =>
  }

  lemma {:induction false} Untouched(m: MFunc)
    ensures Bounded(m, map[])
    decreases m, 0
  {
    UntouchedFun(m.fun, FirstOf(m.max, 0));
  }

  lemma {:induction false} UntouchedFun(ds: seq<Delegate>, p: nat)
    ensures FunBounded(ds, map[], p)
    decreases ds, 1
  {
    if ds != [] {
      UntouchedPart(ds[0], p);
      UntouchedFun(ds[1..], p);
    }
  }

  lemma {:induction false} UntouchedPart(d: Delegate, p: nat)
    ensures PartBounded(d, map[], p)
    decreases d, 1
  {
    match d
    case Through(inner) => Untouched(inner);
    case Checked(_, inner) => Untouched(inner);
    case _ =>
  }

  lemma {:induction false} CallsBounded(w: World, f: MFunc, inputs: seq<(A, B)>)
    requires Linear(f)
    ensures Bounded(f, AfterCalls(w, f, inputs)) && Count(AfterCalls(w, f, inputs), f.id) == |inputs|
    decreases |inputs|
  {
    if inputs == [] {
      Untouched(f);
    } else {
      var k := |inputs| - 1;
      CallsBounded(w, f, inputs[..k]);
      InvokeBounded(w, f, inputs[k].0, inputs[k].1, AfterCalls(w, f, inputs[..k]));
    }
  }

  /**
   For every mock that uses each counter and each function once, and every sequence of calls, whatever the
   user functions do: the outermost counter counts the calls, no inner counter exceeds it, and every user
   function stays below the smallest maximum on its path.
   */
  lemma MockLimits(w: World, f: MFunc, inputs: seq<(A, B)>)
    requires Linear(f)
    ensures var t := AfterCalls(w, f, inputs);
            Count(t, f.id) == |inputs| && Limited(f, t, None, |inputs|)
  {
    var t := AfterCalls(w, f, inputs);
    CallsBounded(w, f, inputs);
    LimitFun(f.fun, t, FirstOf(f.max, Count(t, f.id)), f.max, |inputs|);
  }

  /** So it is for every expression that names nothing twice, over mocks that share nothing. */
  lemma ExpressionLimits(w: World, m: Mock, n: nat, inputs: seq<(A, B)>)
    requires UsedOnce(m) && Older(Uses(m), n)
    ensures var f := Build(m, n).0; Limited(f, AfterCalls(w, f, inputs), None, |inputs|)
  {
    BuildLinear(m, n);
    MockLimits(w, Build(m, n).0, inputs);
  }

  /** A delegate with one part is that part. */
  lemma OnePart(w: World, d: Delegate, a: A, b: B, t: Tally, last: R)
    ensures Multicast(w, [d], a, b, t, last) == InvokePart(w, d, a, b, t)
  {
    assert [d][1..] == [];
  }

  /** A call that succeeds gives what the last part of the multicast delegate gave. */
  lemma {:induction false} LastPartDecides(w: World, ds: seq<Delegate>, a: A, b: B, t: Tally, last: R)
    returns (s: Tally)
    requires ds != [] && Multicast(w, ds, a, b, t, last).outcome.Returned?
    ensures InvokePart(w, ds[|ds| - 1], a, b, s) == Multicast(w, ds, a, b, t, last)
    decreases ds
  {
    var e := InvokePart(w, ds[0], a, b, t);
    if |ds| == 1 {
      s := t;
    } else {
      assert ds[1..][|ds| - 2] == ds[|ds| - 1];
      s := LastPartDecides(w, ds[1..], a, b, e.tally, e.outcome.r);
    }
  }

  /**
   `+` keeps the left operand's bounds, of which null has none, and the right operand decides the result.
   The left operand's own counter is bypassed unless the right operand contains it, as in `g + g`; then
   every call that succeeds goes through it.
   */
  lemma PlusBypassesLeft(w: World, left: Expr, right: Operand, n: nat, a: A, b: B, t: Tally) returns (s: Tally)
    requires Older(UsesOf(left) + OperandUses(right), n)
    requires left.Of? && left.mock.Existing? ==> Proper(left.mock.built)
    ensures var (f, k) := BuildOr(left, n);
            var d := BuildOperand(right, k).0;
            var g := Build(Plus(left, right), n).0;
            var e := Invoke(w, g, a, b, t);
            && g.min == f.min && g.max == f.max && (left.Null? ==> g.min == g.max == None)
            && (f.id !in PartIds(d) ==> Count(e.tally, f.id) == Count(t, f.id))
            && (e.outcome.Returned? ==>
                  && InvokePart(w, d, a, b, s) == e
                  && (Count(e.tally, f.id) == Count(t, f.id) <==> f.id !in PartIds(d)))
  {
    var (f, k) := BuildOr(left, n);
    var d := BuildOperand(right, k).0;
    var g := Build(Plus(left, right), n).0;
    BuildOrFits(left, n);
    OperandFits(right, k);
    BuildOrProper(left, n);
    FunAppend(f.fun, d);
    s := t;
    if f.id !in PartIds(d) {
      InvokeFrame(w, g, a, b, t, f.id);
    }
    if Invoke(w, g, a, b, t).outcome.Returned? {
      if f.id in PartIds(d) {
        InvokeVisits(w, g, a, b, t, f.id);
      }
      s := LastPartDecides(w, g.fun, a, b, Bump(t, g.id), w.default_);
    }
  }

  /**
   `Arg1` and `Arg2`: a call with a wrong argument fails, is counted by the new layer, and reaches nothing
   below it; a call with a right one that the new layer lets through is the inner call.
   */
  lemma ArgGuards(w: World, f: Expr, ok: (A, B) -> bool, n: nat, a: A, b: B, t: Tally)
    ensures var (inner, k) := BuildOr(f, n);
            var g := Build(Arg(f, ok), n).0;
            var e := Invoke(w, g, a, b, t);
            && g.max == inner.max && g.min == inner.min
            && (!ok(a, b) || (g.max.Some? && Count(t, g.id) >= g.max.value) ==> e == Effect(Threw, Bump(t, g.id)))
            && (ok(a, b) && (g.max.None? || Count(t, g.id) < g.max.value) ==>
                  e == Invoke(w, inner, a, b, Bump(t, g.id)))
  {
    var (inner, k) := BuildOr(f, n);
    var g := Build(Arg(f, ok), n).0;
    OnePart(w, Checked(ok, inner), a, b, Bump(t, g.id), w.default_);
  }

  lemma CountsOnce(w: World, m: MFunc, a: A, b: B, t: Tally)
    requires Proper(m)
    ensures Count(Invoke(w, m, a, b, t).tally, m.id) == Count(t, m.id) + 1
  {
    MulticastFrame(w, m.fun, a, b, Bump(t, m.id), w.default_, m.id);
  }

  lemma {:induction false} CallsCounted(w: World, m: MFunc, inputs: seq<(A, B)>)
    requires Proper(m)
    ensures Count(AfterCalls(w, m, inputs), m.id) == |inputs|
    decreases |inputs|
  {
    if inputs != [] {
      var k := |inputs| - 1;
      CallsCounted(w, m, inputs[..k]);
      CountsOnce(w, m, inputs[k].0, inputs[k].1, AfterCalls(w, m, inputs[..k]));
    }
  }

  /**
   `Expect(n)` lets exactly the first n calls through to the mock it wraps, whatever that shares, and its
   counter verifies when there were exactly n calls.
   */
  lemma {:induction false} ExpectIsExact(w: World, e: Expr, expected: int, n: nat, inputs: seq<(A, B)>)
    requires Older(UsesOf(e), n) && (e.Of? && e.mock.Existing? ==> Proper(e.mock.built))
    ensures var f := BuildOr(e, n).0;
            var g := Build(Expect(e, expected), n).0;
            var t := AfterCalls(w, g, inputs);
            && Count(t, f.id) == FirstOf(Some(expected), |inputs|)
            && (Wanted(g.min, g.max, Count(t, g.id)) <==> |inputs| == expected)
    decreases |inputs|
  {
    var f := BuildOr(e, n).0;
    var g := Build(Expect(e, expected), n).0;
    BuildOrFits(e, n);
    BuildOrProper(e, n);
    OneIds(Through(f));
    CallsCounted(w, g, inputs);
    if inputs != [] {
      var k := |inputs| - 1;
      var t := AfterCalls(w, g, inputs[..k]);
      ExpectIsExact(w, e, expected, n, inputs[..k]);
      CallsCounted(w, g, inputs[..k]);
      OnePart(w, Through(f), inputs[k].0, inputs[k].1, Bump(t, g.id), w.default_);
      CountsOnce(w, f, inputs[k].0, inputs[k].1, Bump(t, g.id));
    }
  }
}
