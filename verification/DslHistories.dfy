/**
 Any use of the fluent builder: every call may be made on any builder made so far. Builders branch, but an
 open facet query is one object that all builders made from its own share, and options given through any of
 them show in all.
 */
module DslHistories {
  import opened Options
  import opened SortOrders
  import opened DslRuns
  import DslQueries

  /** Builder 0 is the start; step `i` is made on builder `on` and makes builder `i + 1`. */
  datatype Step = Step(on: nat, call: Call)

  predicate Ordered(h: seq<Step>) {
    forall i :: 0 <= i < |h| ==> h[i].on <= i
  }

  /** The step that opened the facet query to which builder `k` gives options. */
  function OpenOn(h: seq<Step>, k: nat): (r: Option<nat>)
    requires Ordered(h) && k <= |h|
    ensures r.Some? ==> r.value < k && h[r.value].call.WithFacetField?
  {
    if k == 0 then None else
    match h[k - 1].call
    case WithFacetField(_) => Some(k - 1)
    case Configure(_) => OpenOn(h, h[k - 1].on)
    case _ => None
  }

  /** Options are given only to builders with an open facet query. */
  predicate Possible(h: seq<Step>) {
    Ordered(h) && forall i :: 0 <= i < |h| && h[i].call.Configure? ==> OpenOn(h, h[i].on).Some?
  }

  /** The calls that lead to builder `k`, without those of other branches. */
  function PathTo(h: seq<Step>, k: nat): seq<Call>
    requires Ordered(h) && k <= |h|
  {
    if k == 0 then [] else PathTo(h, h[k - 1].on) + [h[k - 1].call]
  }

  /** A facet of a builder: the query opened by a step, or a query of its own. */
  datatype Ref = OpenedBy(step: nat) | Query(q: DslQueries.Query)

  function FacetsAt(h: seq<Step>, k: nat): (r: seq<Ref>)
    requires Ordered(h) && k <= |h|
    ensures forall i :: 0 <= i < |r| && r[i].OpenedBy? ==> r[i].step < k && h[r[i].step].call.WithFacetField?
  {
    if k == 0 then [] else
    match h[k - 1].call
    case OrderBy(_) => []
    case WithFacetField(_) => FacetsAt(h, h[k - 1].on) + [OpenedBy(k - 1)]
    case WithFacetQuery(q) => FacetsAt(h, h[k - 1].on) + [Query(q)]
    case _ => FacetsAt(h, h[k - 1].on)
  }

  /**
   The facet query opened by step `j` after the first `now` steps: all options given through any builder
   open on it, in the order of time.
   */
  function SettingsAt(h: seq<Step>, j: nat, now: nat): Settings
    requires Ordered(h) && j < now <= |h| && h[j].call.WithFacetField?
  {
    if now == j + 1 then Unset(h[j].call.field) else
    var before := SettingsAt(h, j, now - 1);
    var step := h[now - 1];
    if step.call.Configure? && OpenOn(h, step.on) == Some(j) then Set(before, step.call.x) else before
  }

  function ShownAs(h: seq<Step>, r: Ref, now: nat): FacetValue
    requires Ordered(h) && now <= |h|
    requires r.OpenedBy? ==> r.step < now && h[r.step].call.WithFacetField?
  {
    match r
    case OpenedBy(j) => FieldFacet(SettingsAt(h, j, now))
    case Query(q) => QueryFacet(q)
  }

  /** The facets that builder `k` shows after the first `now` steps. */
  function ShownFacets(h: seq<Step>, k: nat, now: nat): seq<FacetValue>
    requires Ordered(h) && k <= now <= |h|
  {
    var refs := FacetsAt(h, k);
    seq(|refs|, i requires 0 <= i < |refs| => ShownAs(h, refs[i], now))
  }

  /** The facets of a builder were opened in the order of their list. */
  ghost predicate Increasing(r: seq<Ref>) {
    forall i, j :: 0 <= i < j < |r| && r[i].OpenedBy? && r[j].OpenedBy? ==> r[i].step < r[j].step
  }

  lemma {:induction false} FacetsIncrease(h: seq<Step>, k: nat)
    requires Ordered(h) && k <= |h|
    ensures Increasing(FacetsAt(h, k))
  {
    if k > 0 {
      FacetsIncrease(h, h[k - 1].on);
    }
  }

  /** An open facet query is the last facet of its builder. */
  lemma {:induction false} OpenIsLast(h: seq<Step>, k: nat)
    requires Ordered(h) && k <= |h| && OpenOn(h, k).Some?
    ensures var r := FacetsAt(h, k); r != [] && r[|r| - 1] == OpenedBy(OpenOn(h, k).value)
  {
    if h[k - 1].call.Configure? {
      OpenIsLast(h, h[k - 1].on);
    }
  }

  /**
   An option changes exactly the facets that are the open one of its receiver, in every builder that holds
   it, on whatever branch; any other step changes nothing that is there.
   */
  lemma StepReach(h: seq<Step>, now: nat, k: nat, i: nat)
    requires Possible(h) && k <= now < |h| && i < |FacetsAt(h, k)|
    ensures var r, step := FacetsAt(h, k)[i], h[now];
            ShownFacets(h, k, now + 1)[i] ==
              if step.call.Configure? && r.OpenedBy? && OpenOn(h, step.on) == Some(r.step)
              then FieldFacet(Set(ShownFacets(h, k, now)[i].settings, step.call.x))
              else ShownFacets(h, k, now)[i]
  {
  }

  // ----- Each property by itself -----

  /** The options that reached the facet query opened by step `j`, in the order of time. */
  function Reached(h: seq<Step>, j: nat, now: nat): seq<Setting>
    requires Ordered(h) && j < now <= |h|
  {
    if now == j + 1 then [] else
    var before := Reached(h, j, now - 1);
    var step := h[now - 1];
    if step.call.Configure? && OpenOn(h, step.on) == Some(j) then before + [step.call.x] else before
  }

  /** No option from `from` on is picked. */
  ghost predicate NoneFrom<X>(xs: seq<Setting>, from: nat, pick: Setting -> Option<X>) {
    forall k :: from <= k < |xs| ==> pick(xs[k]).None?
  }

  /** The last option that `pick` picks decides, and without one nothing is shown. */
  ghost predicate Last<X>(shown: Option<X>, xs: seq<Setting>, pick: Setting -> Option<X>) {
    if shown.None? then NoneFrom(xs, 0, pick)
    else exists i :: 0 <= i < |xs| && pick(xs[i]) == shown && NoneFrom(xs, i + 1, pick)
  }

  datatype Property = Limit | Offset | Prefix | MinCount | Sort | Missing

  /** A property is decided by the last option of its own kind. */
  ghost predicate Shown(s: Settings, p: Property, xs: seq<Setting>) {
    match p
    case Limit => Last(s.limit, xs, (x: Setting) => if x.LimitTo? then Some(x.limit) else None)
    case Offset => Last(s.offset, xs, (x: Setting) => if x.StartingAt? then Some(x.offset) else None)
    case Prefix => Last(s.prefix, xs, (x: Setting) => if x.WithPrefix? then Some(x.prefix) else None)
    case MinCount => Last(s.minCount, xs, (x: Setting) => if x.WithMinCount? then Some(x.count) else None)
    case Sort => Last(s.sort, xs, (x: Setting) => if x.DontSortByCount? then Some(false) else None)
    case Missing => Last(s.missing, xs, (x: Setting) => if x.IncludeMissing? then Some(true) else None)
  }

  ghost predicate ReadsOff(s: Settings, field: string, xs: seq<Setting>) {
    s.field == field && forall p: Property :: Shown(s, p, xs)
  }

  lemma LastSnoc<X>(shown: Option<X>, xs: seq<Setting>, pick: Setting -> Option<X>, x: Setting)
    requires Last(shown, xs, pick)
    ensures Last(if pick(x).Some? then pick(x) else shown, xs + [x], pick)
  {
    var ys := xs + [x];
    if pick(x).Some? {
      assert pick(ys[|xs|]) == pick(x) && NoneFrom(ys, |xs| + 1, pick);
    } else if shown.Some? {
      var i :| 0 <= i < |xs| && pick(xs[i]) == shown && NoneFrom(xs, i + 1, pick);
      assert pick(ys[i]) == shown && NoneFrom(ys, i + 1, pick);
    }
  }

  lemma SetReadsOff(s: Settings, field: string, xs: seq<Setting>, x: Setting)
    requires ReadsOff(s, field, xs)
    ensures ReadsOff(Set(s, x), field, xs + [x])
  {
    hide Last;
    forall p: Property ensures Shown(Set(s, x), p, xs + [x]) {
      assert Shown(s, p, xs);
      match p
      case Limit => LastSnoc(s.limit, xs, (x: Setting) => if x.LimitTo? then Some(x.limit) else None, x);
      case Offset => LastSnoc(s.offset, xs, (x: Setting) => if x.StartingAt? then Some(x.offset) else None, x);
      case Prefix => LastSnoc(s.prefix, xs, (x: Setting) => if x.WithPrefix? then Some(x.prefix) else None, x);
      case MinCount => LastSnoc(s.minCount, xs, (x: Setting) => if x.WithMinCount? then Some(x.count) else None, x);
      case Sort => LastSnoc(s.sort, xs, (x: Setting) => if x.DontSortByCount? then Some(false) else None, x);
      case Missing => LastSnoc(s.missing, xs, (x: Setting) => if x.IncludeMissing? then Some(true) else None, x);
    }
  }

  lemma UnsetReadsOff(field: string)
    ensures ReadsOff(Unset(field), field, [])
  {
  }

  lemma {:induction false} SettingsReadOff(h: seq<Step>, j: nat, now: nat)
    requires Ordered(h) && j < now <= |h| && h[j].call.WithFacetField?
    ensures ReadsOff(SettingsAt(h, j, now), h[j].call.field, Reached(h, j, now))
    decreases now
  {
    hide OpenOn, Set, ReadsOff, Unset;
    if now == j + 1 {
      UnsetReadsOff(h[j].call.field);
    } else {
      SettingsReadOff(h, j, now - 1);
      if h[now - 1].call.Configure? && OpenOn(h, h[now - 1].on) == Some(j) {
        SetReadsOff(SettingsAt(h, j, now - 1), h[j].call.field, Reached(h, j, now - 1), h[now - 1].call.x);
      }
    }
  }

  /**
   For every history, builder and facet: the facet shows the field of the step that opened it, and each of its
   properties is that of the last option of its kind that reached it, on whatever branch it was given.
   */
  lemma FacetReadsOff(h: seq<Step>, k: nat, now: nat, i: nat)
    requires Ordered(h) && k <= now <= |h| && i < |FacetsAt(h, k)|
    ensures var r, shown := FacetsAt(h, k)[i], ShownFacets(h, k, now)[i];
            match r
            case OpenedBy(j) => shown.FieldFacet? && ReadsOff(shown.settings, h[j].call.field, Reached(h, j, now))
            case Query(q) => shown == QueryFacet(q)
  {
    hide ReadsOff, SettingsAt, Reached;
    match FacetsAt(h, k)[i]
    case OpenedBy(j) => SettingsReadOff(h, j, now);
    case Query(_) =>
  }

  /** Every path is a chain of calls that can be written. */
  lemma {:induction false} PathIsTyped(h: seq<Step>, k: nat)
    requires Possible(h) && k <= |h|
    ensures Typed(PathTo(h, k)) && (Opens(PathTo(h, k)) <==> OpenOn(h, k).Some?)
  {
    if k > 0 {
      PathIsTyped(h, h[k - 1].on);
    }
  }

  // ----- A single chain is the history without branches -----

  function Straight(calls: seq<Call>): (h: seq<Step>)
    ensures Ordered(h)
  {
    seq(|calls|, i requires 0 <= i < |calls| => Step(i, calls[i]))
  }

  lemma {:induction false} StraightPath(calls: seq<Call>, k: nat)
    requires Typed(calls) && k <= |calls|
    ensures PathTo(Straight(calls), k) == calls[..k]
    ensures OpenOn(Straight(calls), k).Some? <==> Opens(calls[..k])
  {
    if k > 0 {
      StraightPath(calls, k - 1);
      assert calls[..k] == calls[..k - 1] + [calls[k - 1]];
    }
  }

  lemma StraightIsPossible(calls: seq<Call>)
    requires Typed(calls)
    ensures Possible(Straight(calls))
  {
    forall i | 0 <= i < |calls| && calls[i].Configure? ensures OpenOn(Straight(calls), i).Some? {
      StraightPath(calls, i);
    }
  }

  /** What a step that gives no options shows in addition. */
  lemma NextShown(h: seq<Step>, k: nat, now: nat)
    requires Ordered(h) && 0 < k <= now <= |h|
    ensures var fs := ShownFacets(h, h[k - 1].on, now);
            ShownFacets(h, k, now) ==
              match h[k - 1].call
              case OrderBy(_) => []
              case WithFacetField(_) => fs + [FieldFacet(SettingsAt(h, k - 1, now))]
              case WithFacetQuery(q) => fs + [QueryFacet(q)]
              case _ => fs
  {
    hide SettingsAt;
  }

  /** What builder `k` shows after one more step, which is made on itself. */
  lemma OwnStep(h: seq<Step>, k: nat)
    requires Possible(h) && k < |h| && h[k].on == k
    ensures var fs, c, last := ShownFacets(h, k, k), h[k].call, |FacetsAt(h, k)| - 1;
            ShownFacets(h, k, k + 1) ==
              if c.Configure? && last >= 0 && fs[last].FieldFacet?
              then fs[last := FieldFacet(Set(fs[last].settings, c.x))] else fs
  {
    hide SettingsAt, FacetsAt, OpenOn, Set;
    var refs := FacetsAt(h, k);
    FacetsIncrease(h, k);
    if h[k].call.Configure? {
      OpenIsLast(h, k);
    }
    forall i: nat | i < |refs|
      ensures ShownFacets(h, k, k + 1)[i] ==
                if h[k].call.Configure? && i == |refs| - 1
                then FieldFacet(Set(ShownFacets(h, k, k)[i].settings, h[k].call.x))
                else ShownFacets(h, k, k)[i]
    {
      StepReach(h, k, k, i);
    }
  }

  lemma {:induction false} StraightFacets(calls: seq<Call>, k: nat)
    requires Typed(calls) && k <= |calls|
    ensures ShownFacets(Straight(calls), k, k) == Chain(calls[..k]).facets
  {
    if k > 0 {
      var h := Straight(calls);
      StraightIsPossible(calls);
      StraightFacets(calls, k - 1);
      StraightPath(calls, k - 1);
      assert calls[..k][..k - 1] == calls[..k - 1];
      OwnStep(h, k - 1);
      NextShown(h, k, k);
    }
  }

  /** On a single chain a builder shows what the chain means. */
  lemma StraightIsChain(calls: seq<Call>)
    requires Typed(calls)
    ensures var h := Straight(calls);
            && PathTo(h, |calls|) == calls
            && ShownFacets(h, |calls|, |calls|) == FacetsOf(Since(calls, false))
  {
    assert calls[..|calls|] == calls;
    StraightPath(calls, |calls|);
    StraightFacets(calls, |calls|);
    ChainFacets(calls);
  }
}
