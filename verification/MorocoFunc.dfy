/**
 The counted functions of SolrNet.Tests/Utils/Moroco.cs and their combinators. Every MFunc has a counter of
 its own; whether a combinator wraps the whole MFunc or only its delegates decides whose counter a call
 goes through.
 */
module MorocoFunc {
  import opened Options
  import opened MorocoCounter

  type A(==, !new)
  type B(==, !new)
  type R(==, !new)

  datatype Outcome = Returned(r: R) | Threw

  /**
   `id` names the counter, `fun` is the multicast delegate: its parts run in order, an exception stops it,
   and the result is that of the last part.
   */
  datatype MFunc = MFunc(id: nat, min: Option<int>, max: Option<int>, fun: seq<Delegate>)

  /** `User` is a function given by the test, `Default` returns default(R), `Constant` is the lambda of Return. */
  datatype Delegate =
    | User(id: nat)
    | Default
    | Constant(v: R)
    | Through(inner: MFunc)                        // a conversion to Func: inner.Invoke
    | Checked(ok: (A, B) -> bool, inner: MFunc)    // Arg1 and Arg2: validate, then inner.Invoke

  /** How often each counter was incremented and each user function was started. */
  type Tally = map<nat, nat>

  function Count(t: Tally, id: nat): nat {
    if id in t then t[id] else 0
  }

  function Bump(t: Tally, id: nat): Tally {
    t[id := Count(t, id) + 1]
  }

  /** What user functions do, given how often they have run before, and default(R). */
  datatype World = World(user: (nat, A, B, nat) -> Outcome, default_: R)

  datatype Effect = Effect(outcome: Outcome, tally: Tally)

  function Invoke(w: World, m: MFunc, a: A, b: B, t: Tally): Effect
    decreases m, 0
  {
    var t' := Bump(t, m.id);
    if !Allowed(m.max, Count(t', m.id)) then Effect(Threw, t')
    else Multicast(w, m.fun, a, b, t', w.default_)
  }

  function Multicast(w: World, ds: seq<Delegate>, a: A, b: B, t: Tally, last: R): Effect
    decreases ds, 1
  {
    if ds == [] then Effect(Returned(last), t) else
    var e := InvokePart(w, ds[0], a, b, t);
    if e.outcome.Threw? then e else Multicast(w, ds[1..], a, b, e.tally, e.outcome.r)
  }

  function InvokePart(w: World, d: Delegate, a: A, b: B, t: Tally): Effect
    decreases d, 1
  {
    match d
    case User(id) => Effect(w.user(id, a, b, Count(t, id)), Bump(t, id))
    case Default => Effect(Returned(w.default_), t)
    case Constant(v) => Effect(Returned(v), t)
    case Through(inner) => Invoke(w, inner, a, b, t)
    case Checked(ok, inner) => if ok(a, b) then Invoke(w, inner, a, b, t) else Effect(Threw, t)
  }

  // ----- The counters and functions of a value, each used once -----

  function Ids(m: MFunc): set<nat>
    decreases m, 0
  {
    {m.id} + FunIds(m.fun)
  }

  function FunIds(ds: seq<Delegate>): set<nat>
    decreases ds, 1
  {
    if ds == [] then {} else PartIds(ds[0]) + FunIds(ds[1..])
  }

  function PartIds(d: Delegate): set<nat>
    decreases d, 1
  {
    match d
    case User(id) => {id}
    case Through(inner) => Ids(inner)
    case Checked(_, inner) => Ids(inner)
    case _ => {}
  }

  predicate Linear(m: MFunc)
    decreases m, 0
  {
    m.id !in FunIds(m.fun) && FunLinear(m.fun)
  }

  predicate FunLinear(ds: seq<Delegate>)
    decreases ds, 1
  {
    ds != [] ==> PartLinear(ds[0]) && FunLinear(ds[1..]) && PartIds(ds[0]) !! FunIds(ds[1..])
  }

  predicate PartLinear(d: Delegate)
    decreases d, 1
  {
    match d
    case Through(inner) => Linear(inner)
    case Checked(_, inner) => Linear(inner)
    case _ => true
  }

  lemma OneIds(d: Delegate)
    ensures FunIds([d]) == PartIds(d) && (FunLinear([d]) <==> PartLinear(d))
  {
    assert [d][1..] == [] && FunIds([d]) == PartIds(d) + FunIds([d][1..]);
  }

  /** Invoking touches no counter or function outside the value. */
  lemma {:induction false} InvokeFrame(w: World, m: MFunc, a: A, b: B, t: Tally, id: nat)
    requires id !in Ids(m)
    ensures Count(Invoke(w, m, a, b, t).tally, id) == Count(t, id)
    decreases m, 0
  {
    MulticastFrame(w, m.fun, a, b, Bump(t, m.id), w.default_, id);
  }

  lemma {:induction false} MulticastFrame(w: World, ds: seq<Delegate>, a: A, b: B, t: Tally, last: R, id: nat)
    requires id !in FunIds(ds)
    ensures Count(Multicast(w, ds, a, b, t, last).tally, id) == Count(t, id)
    decreases ds, 1
  {
    if ds != [] {
      PartFrame(w, ds[0], a, b, t, id);
      var e := InvokePart(w, ds[0], a, b, t);
      if e.outcome.Returned? {
        MulticastFrame(w, ds[1..], a, b, e.tally, e.outcome.r, id);
      }
    }
  }

  lemma {:induction false} PartFrame(w: World, d: Delegate, a: A, b: B, t: Tally, id: nat)
    requires id !in PartIds(d)
    ensures Count(InvokePart(w, d, a, b, t).tally, id) == Count(t, id)
    decreases d, 1
  {
    match d
    case Through(inner) => InvokeFrame(w, inner, a, b, t, id);
    case Checked(ok, inner) => InvokeFrame(w, inner, a, b, t, id);
    case _ =>
  }

  /** No count ever goes down. */
  lemma {:induction false} InvokeGrows(w: World, m: MFunc, a: A, b: B, t: Tally, id: nat)
    ensures Count(Invoke(w, m, a, b, t).tally, id) >= Count(t, id) + if id == m.id then 1 else 0
    decreases m, 0
  {
    MulticastGrows(w, m.fun, a, b, Bump(t, m.id), w.default_, id);
  }

  lemma {:induction false} MulticastGrows(w: World, ds: seq<Delegate>, a: A, b: B, t: Tally, last: R, id: nat)
    ensures Count(Multicast(w, ds, a, b, t, last).tally, id) >= Count(t, id)
    decreases ds, 1
  {
    if ds != [] {
      var e := InvokePart(w, ds[0], a, b, t);
      PartGrows(w, ds[0], a, b, t, id);
      if e.outcome.Returned? {
        MulticastGrows(w, ds[1..], a, b, e.tally, e.outcome.r, id);
      }
    }
  }

  lemma {:induction false} PartGrows(w: World, d: Delegate, a: A, b: B, t: Tally, id: nat)
    ensures Count(InvokePart(w, d, a, b, t).tally, id) >= Count(t, id)
    decreases d, 1
  {
    match d
    case Through(inner) => InvokeGrows(w, inner, a, b, t, id);
    case Checked(ok, inner) => InvokeGrows(w, inner, a, b, t, id);
    case _ =>
  }

  /** A call that returns has gone through every counter and every function of the value. */
  lemma {:induction false} InvokeVisits(w: World, m: MFunc, a: A, b: B, t: Tally, id: nat)
    requires id in Ids(m) && Invoke(w, m, a, b, t).outcome.Returned?
    ensures Count(Invoke(w, m, a, b, t).tally, id) > Count(t, id)
    decreases m, 0
  {
    if id == m.id {
      InvokeGrows(w, m, a, b, t, id);
    } else {
      MulticastVisits(w, m.fun, a, b, Bump(t, m.id), w.default_, id);
    }
  }

  lemma {:induction false} MulticastVisits(w: World, ds: seq<Delegate>, a: A, b: B, t: Tally, last: R, id: nat)
    requires id in FunIds(ds) && Multicast(w, ds, a, b, t, last).outcome.Returned?
    ensures Count(Multicast(w, ds, a, b, t, last).tally, id) > Count(t, id)
    decreases ds, 1
  {
    var e := InvokePart(w, ds[0], a, b, t);
    PartGrows(w, ds[0], a, b, t, id);
    MulticastGrows(w, ds[1..], a, b, e.tally, e.outcome.r, id);
    if id in PartIds(ds[0]) {
      PartVisits(w, ds[0], a, b, t, id);
    } else {
      MulticastVisits(w, ds[1..], a, b, e.tally, e.outcome.r, id);
    }
  }

  lemma {:induction false} PartVisits(w: World, d: Delegate, a: A, b: B, t: Tally, id: nat)
    requires id in PartIds(d) && InvokePart(w, d, a, b, t).outcome.Returned?
    ensures Count(InvokePart(w, d, a, b, t).tally, id) > Count(t, id)
    decreases d, 1
  {
    match d
    case Through(inner) => InvokeVisits(w, inner, a, b, t, id);
    case Checked(ok, inner) => InvokeVisits(w, inner, a, b, t, id);
    case _ =>
  }

  // ----- Bounds -----

  /** Below a layer that let `p` calls through, nothing was started more than `p` times, and so on down. */
  ghost predicate Bounded(m: MFunc, t: Tally)
    decreases m, 0
  {
    FunBounded(m.fun, t, FirstOf(m.max, Count(t, m.id)))
  }

  ghost predicate FunBounded(ds: seq<Delegate>, t: Tally, p: nat)
    decreases ds, 1
  {
    ds != [] ==> PartBounded(ds[0], t, p) && FunBounded(ds[1..], t, p)
  }

  ghost predicate PartBounded(d: Delegate, t: Tally, p: nat)
    decreases d, 1
  {
    match d
    case User(id) => Count(t, id) <= p
    case Through(inner) => Count(t, inner.id) <= p && Bounded(inner, t)
    case Checked(_, inner) => Count(t, inner.id) <= p && Bounded(inner, t)
    case _ => true
  }

  ghost predicate Agree(ids: set<nat>, t: Tally, u: Tally) {
    forall id :: id in ids ==> Count(t, id) == Count(u, id)
  }

  lemma {:induction false} BoundedAgree(m: MFunc, t: Tally, u: Tally)
    requires Bounded(m, t) && Agree(Ids(m), t, u)
    ensures Bounded(m, u)
    decreases m, 0
  {
    FunBoundedAgree(m.fun, t, u, FirstOf(m.max, Count(t, m.id)), FirstOf(m.max, Count(u, m.id)));
  }

  lemma {:induction false} FunBoundedAgree(ds: seq<Delegate>, t: Tally, u: Tally, p: nat, q: nat)
    requires FunBounded(ds, t, p) && Agree(FunIds(ds), t, u) && p <= q
    ensures FunBounded(ds, u, q)
    decreases ds, 1
  {
    if ds != [] {
      PartBoundedAgree(ds[0], t, u, p, q);
      FunBoundedAgree(ds[1..], t, u, p, q);
    }
  }

  lemma {:induction false} PartBoundedAgree(d: Delegate, t: Tally, u: Tally, p: nat, q: nat)
    requires PartBounded(d, t, p) && Agree(PartIds(d), t, u) && p <= q
    ensures PartBounded(d, u, q)
    decreases d, 1
  {
    match d
    case User(id) => assert id in PartIds(d);
    case Through(inner) => assert inner.id in PartIds(d); BoundedAgree(inner, t, u);
    case Checked(_, inner) => assert inner.id in PartIds(d); BoundedAgree(inner, t, u);
    case _ =>
  }

  /** One call keeps the bounds, and counts one call at the outermost layer. */
  lemma {:induction false} InvokeBounded(w: World, m: MFunc, a: A, b: B, t: Tally)
    requires Linear(m) && Bounded(m, t)
    ensures var u := Invoke(w, m, a, b, t).tally;
            Bounded(m, u) && Count(u, m.id) == Count(t, m.id) + 1
    decreases m, 0
  {
    var n := Count(t, m.id);
    var t' := Bump(t, m.id);
    FunBoundedAgree(m.fun, t, t', FirstOf(m.max, n), FirstOf(m.max, n));
    if Allowed(m.max, Count(t', m.id)) {
      MulticastBounded(w, m.fun, a, b, t', w.default_, n);
      MulticastFrame(w, m.fun, a, b, t', w.default_, m.id);
    }
  }

  lemma {:induction false} MulticastBounded(w: World, ds: seq<Delegate>, a: A, b: B, t: Tally, last: R, p: nat)
    requires FunLinear(ds) && FunBounded(ds, t, p)
    ensures FunBounded(ds, Multicast(w, ds, a, b, t, last).tally, p + 1)
    decreases ds, 1
  {
    if ds != [] {
      var e := InvokePart(w, ds[0], a, b, t);
      var u := Multicast(w, ds, a, b, t, last).tally;
      PartKeeps(w, ds[0], a, b, t, p);
      forall id | id in FunIds(ds[1..]) ensures Count(t, id) == Count(e.tally, id) {
        PartFrame(w, ds[0], a, b, t, id);
      }
      FunBoundedAgree(ds[1..], t, e.tally, p, p);
      if e.outcome.Threw? {
        FunBoundedAgree(ds[1..], e.tally, u, p, p + 1);
      } else {
        MulticastBounded(w, ds[1..], a, b, e.tally, e.outcome.r, p);
        forall id | id in PartIds(ds[0]) ensures Count(e.tally, id) == Count(u, id) {
          MulticastFrame(w, ds[1..], a, b, e.tally, e.outcome.r, id);
        }
        PartBoundedAgree(ds[0], e.tally, u, p + 1, p + 1);
      }
    }
  }

  lemma {:induction false} PartKeeps(w: World, d: Delegate, a: A, b: B, t: Tally, p: nat)
    requires PartLinear(d) && PartBounded(d, t, p)
    ensures PartBounded(d, InvokePart(w, d, a, b, t).tally, p + 1)
    decreases d, 1
  {
    match d
    case Through(inner) => InvokeBounded(w, inner, a, b, t);
    case Checked(ok, inner) => InvokeBounded(w, inner, a, b, t);
    case _ =>
  }
}
