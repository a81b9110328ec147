/**
 A single chain of calls on the fluent builder of SolrNet.DSL/Impl/DSLRun.cs and DSLFacetFieldOptions.cs, as
 a value: what it builds, and the same read off the calls.
 */
module DslRuns {
  import opened Options
  import opened SortOrders
  import opened DslQueries

  type Highlight(==, !new)

  datatype Setting =
    | LimitTo(limit: int)
    | DontSortByCount
    | WithPrefix(prefix: string)
    | WithMinCount(count: int)
    | StartingAt(offset: int)
    | IncludeMissing

  /** The properties of a facet field query, as a value. */
  datatype Settings = Settings(
    field: string,
    prefix: Option<string>,
    sort: Option<bool>,
    limit: Option<int>,
    offset: Option<int>,
    minCount: Option<int>,
    missing: Option<bool>)

  function Unset(field: string): Settings {
    Settings(field, None, None, None, None, None, None)
  }

  function Set(s: Settings, x: Setting): Settings {
    match x
    case LimitTo(limit) => s.(limit := Some(limit))
    case DontSortByCount => s.(sort := Some(false))
    case WithPrefix(prefix) => s.(prefix := Some(prefix))
    case WithMinCount(count) => s.(minCount := Some(count))
    case StartingAt(offset) => s.(offset := Some(offset))
    case IncludeMissing => s.(missing := Some(true))
  }

  datatype FacetValue = FieldFacet(settings: Settings) | QueryFacet(q: Query)

  // ----- Chains of calls, as values -----

  datatype Call =
    | OrderBy(o: SortOrder)
    | WithFacetField(field: string)
    | WithFacetQuery(q: Query)
    | WithHighlighting(h: Highlight)
    | Configure(x: Setting)

  /** `open`: the builder is a DSLFacetFieldOptions, and its last facet takes the options. */
  datatype Built = Built(order: seq<SortOrder>, facets: seq<FacetValue>, highlight: Option<Highlight>, open: bool)

  ghost predicate Sound(b: Built) {
    b.open ==> b.facets != [] && b.facets[|b.facets| - 1].FieldFacet?
  }

  /** An option can be given only to a builder that WithFacetField or another option has returned. */
  predicate Offers(b: Built, c: Call) {
    c.Configure? ==> b.open
  }

  function Do(b: Built, c: Call): (r: Built)
    requires Sound(b) && Offers(b, c)
    ensures Sound(r)
  {
    match c
    case OrderBy(o) => Built(b.order + [o], [], None, false)
    case WithFacetField(field) => Built(b.order, b.facets + [FieldFacet(Unset(field))], None, true)
    case WithFacetQuery(q) => Built(b.order, b.facets + [QueryFacet(q)], b.highlight, false)
    case WithHighlighting(h) => Built(b.order, b.facets, Some(h), false)
    case Configure(x) =>
      var k := |b.facets| - 1;
      Built(b.order, b.facets[k := FieldFacet(Set(b.facets[k].settings, x))], None, true)
  }

  /** Each option directly follows a WithFacetField or another option. */
  predicate Typed(calls: seq<Call>) {
    forall i :: 0 <= i < |calls| && calls[i].Configure? ==>
      i > 0 && (calls[i - 1].WithFacetField? || calls[i - 1].Configure?)
  }

  predicate Opens(calls: seq<Call>) {
    calls != [] && (calls[|calls| - 1].WithFacetField? || calls[|calls| - 1].Configure?)
  }

  /** What a chain of calls builds from a new query. */
  function Chain(calls: seq<Call>): (r: Built)
    requires Typed(calls)
    ensures Sound(r) && (r.open <==> Opens(calls)) && (r.open ==> r.highlight.None?)
    decreases |calls|
  {
    if calls == [] then Built([], [], None, false) else Do(Chain(calls[..|calls| - 1]), calls[|calls| - 1])
  }

  // ----- The same, read off the calls -----

  function OrdersOf(calls: seq<Call>): seq<SortOrder> {
    if calls == [] then [] else (if calls[0].OrderBy? then [calls[0].o] else []) + OrdersOf(calls[1..])
  }

  function SetAll(s: Settings, calls: seq<Call>): Settings
    decreases |calls|
  {
    if calls == [] || !calls[0].Configure? then s else SetAll(Set(s, calls[0].x), calls[1..])
  }

  /** The facet calls in order, each field with the options that directly follow it. */
  function FacetsOf(calls: seq<Call>): seq<FacetValue> {
    if calls == [] then [] else
    match calls[0]
    case WithFacetField(field) => [FieldFacet(SetAll(Unset(field), calls[1..]))] + FacetsOf(calls[1..])
    case WithFacetQuery(q) => [QueryFacet(q)] + FacetsOf(calls[1..])
    case _ => FacetsOf(calls[1..])
  }

  /** OrderBy starts the facets and the highlighting anew, WithFacetField the highlighting only. */
  predicate Restarts(c: Call, highlighting: bool) {
    c.OrderBy? || (highlighting && c.WithFacetField?)
  }

  /** The calls after the last one that starts anew. */
  function Since(calls: seq<Call>, highlighting: bool): seq<Call>
    decreases |calls|
  {
    if calls == [] || Restarts(calls[|calls| - 1], highlighting) then []
    else Since(calls[..|calls| - 1], highlighting) + [calls[|calls| - 1]]
  }

  function LastHighlight(calls: seq<Call>): Option<Highlight>
    decreases |calls|
  {
    if calls == [] then None
    else if calls[|calls| - 1].WithHighlighting? then Some(calls[|calls| - 1].h)
    else LastHighlight(calls[..|calls| - 1])
  }

  lemma {:induction false} OrdersSnoc(calls: seq<Call>, c: Call)
    ensures OrdersOf(calls + [c]) == OrdersOf(calls) + if c.OrderBy? then [c.o] else []
  {
    if calls != [] {
      assert (calls + [c])[1..] == calls[1..] + [c];
      OrdersSnoc(calls[1..], c);
    }
  }

  predicate AllOptions(calls: seq<Call>) {
    forall i :: 0 <= i < |calls| ==> calls[i].Configure?
  }

  lemma {:induction false} SetAllSnoc(s: Settings, calls: seq<Call>, c: Call)
    ensures SetAll(s, calls + [c]) ==
            if AllOptions(calls) && c.Configure? then Set(SetAll(s, calls), c.x) else SetAll(s, calls)
    decreases |calls|
  {
    if calls == [] {
      assert [c][1..] == [];
    } else if calls[0].Configure? {
      assert (calls + [c])[1..] == calls[1..] + [c];
      SetAllSnoc(Set(s, calls[0].x), calls[1..], c);
      assert AllOptions(calls) <==> AllOptions(calls[1..]);
    }
  }

  lemma {:induction false} FacetsAppend(xs: seq<Call>, ys: seq<Call>)
    requires ys != [] ==> !ys[0].Configure?
    ensures FacetsOf(xs + ys) == FacetsOf(xs) + FacetsOf(ys)
  {
    if xs == [] {
      assert xs + ys == ys;
    } else {
      assert (xs + ys)[1..] == xs[1..] + ys;
      FacetsAppend(xs[1..], ys);
      if xs[0].WithFacetField? {
        SetAllStops(Unset(xs[0].field), xs[1..], ys);
      }
    }
  }

  lemma {:induction false} SetAllStops(s: Settings, xs: seq<Call>, ys: seq<Call>)
    requires ys != [] ==> !ys[0].Configure?
    ensures SetAll(s, xs + ys) == SetAll(s, xs)
    decreases |xs|
  {
    if xs == [] {
      assert xs + ys == ys;
    } else if xs[0].Configure? {
      assert (xs + ys)[1..] == xs[1..] + ys;
      SetAllStops(Set(s, xs[0].x), xs[1..], ys);
    }
  }

  lemma {:induction false} NoFacetsInOptions(calls: seq<Call>)
    requires AllOptions(calls)
    ensures FacetsOf(calls) == []
  {
    if calls != [] {
      NoFacetsInOptions(calls[1..]);
    }
  }

  lemma LastFacet(pre: seq<Call>, field: string, options: seq<Call>)
    requires AllOptions(options)
    ensures FacetsOf(pre + ([WithFacetField(field)] + options)) ==
            FacetsOf(pre) + [FieldFacet(SetAll(Unset(field), options))]
  {
    var ys := [WithFacetField(field)] + options;
    assert ys[1..] == options;
    FacetsAppend(pre, ys);
    NoFacetsInOptions(options);
  }

  /** Calls that leave a facet query open end with its WithFacetField and the options given so far. */
  lemma {:induction false} OpenFacet(calls: seq<Call>) returns (pre: seq<Call>, field: string, options: seq<Call>)
    requires Typed(calls) && Opens(calls)
    ensures calls == pre + ([WithFacetField(field)] + options) && AllOptions(options)
    decreases |calls|
  {
    var k := |calls| - 1;
    if calls[k].WithFacetField? {
      pre, field, options := calls[..k], calls[k].field, [];
    } else {
      pre, field, options := OpenFacet(calls[..k]);
      assert calls == calls[..k] + [calls[k]];
      options := options + [calls[k]];
    }
  }

  lemma {:induction false} SinceTyped(calls: seq<Call>)
    requires Typed(calls)
    ensures Typed(Since(calls, false)) && (Opens(Since(calls, false)) <==> Opens(calls))
    decreases |calls|
  {
    if calls != [] {
      SinceTyped(calls[..|calls| - 1]);
    }
  }

  lemma {:induction false} ChainOrders(calls: seq<Call>)
    requires Typed(calls)
    ensures Chain(calls).order == OrdersOf(calls)
    decreases |calls|
  {
    if calls != [] {
      var init, c := calls[..|calls| - 1], calls[|calls| - 1];
      ChainOrders(init);
      OrdersSnoc(init, c);
      assert calls == init + [c];
    }
  }

  lemma {:induction false} ChainFacets(calls: seq<Call>)
    requires Typed(calls)
    ensures Chain(calls).facets == FacetsOf(Since(calls, false))
    decreases |calls|
  {
    if calls != [] {
      var init, c := calls[..|calls| - 1], calls[|calls| - 1];
      ChainFacets(init);
      if c.Configure? {
        SinceTyped(init);
        OptionUpdatesLast(Since(init, false), c);
      } else if !c.OrderBy? {
        FacetsAppend(Since(init, false), [c]);
        assert [c][1..] == [];
      }
    }
  }

  /** An option after calls that leave a facet query open changes the last facet and nothing else. */
  lemma OptionUpdatesLast(calls: seq<Call>, c: Call)
    requires Typed(calls) && Opens(calls) && c.Configure?
    ensures var fs, k := FacetsOf(calls), |FacetsOf(calls)| - 1;
            && k >= 0 && fs[k].FieldFacet?
            && FacetsOf(calls + [c]) == fs[..k] + [FieldFacet(Set(fs[k].settings, c.x))]
  {
    var pre, field, options := OpenFacet(calls);
    LastFacet(pre, field, options);
    LastFacet(pre, field, options + [c]);
    SetAllSnoc(Unset(field), options, c);
    assert calls + [c] == pre + ([WithFacetField(field)] + (options + [c]));
  }

  lemma {:induction false} ChainHighlight(calls: seq<Call>)
    requires Typed(calls)
    ensures Chain(calls).highlight == LastHighlight(Since(calls, true))
    decreases |calls|
  {
    if calls != [] {
      var init, c := calls[..|calls| - 1], calls[|calls| - 1];
      ChainHighlight(init);
      assert (Since(init, true) + [c])[..|Since(init, true)|] == Since(init, true);
    }
  }

  /**
   For every chain of calls: the order is every OrderBy in sequence; the facets are the facet calls since
   the last OrderBy, each field with exactly the options given right after it; the highlighting is the last
   one since the last OrderBy or WithFacetField.
   */
  lemma ChainMeaning(calls: seq<Call>)
    requires Typed(calls)
    ensures Chain(calls) ==
            Built(OrdersOf(calls), FacetsOf(Since(calls, false)), LastHighlight(Since(calls, true)), Opens(calls))
  {
    ChainOrders(calls);
    ChainFacets(calls);
    ChainHighlight(calls);
  }
}
