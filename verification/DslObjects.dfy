/**
 The builder objects of SolrNet.DSL/Impl/DSLRun.cs and DSLFacetFieldOptions.cs: lists and facet queries are
 objects, some calls copy a list and others hand on the receiver's own.
 */
module DslObjects {
  import opened Options
  import opened SortOrders
  import opened DslRuns
  import opened DslHistories
  import DslQueries

  class SolrFacetFieldQuery {
    const field: string
    var prefix: Option<string>
    var sort: Option<bool>
    var limit: Option<int>
    var offset: Option<int>
    var minCount: Option<int>
    var missing: Option<bool>

    constructor (field: string)
      ensures Value() == Unset(field)
    {
      this.field := field;
      prefix, sort, limit, offset, minCount, missing := None, None, None, None, None, None;
    }

    function Value(): Settings
      reads this
    {
      Settings(field, prefix, sort, limit, offset, minCount, missing)
    }
  }

  datatype Facet = OfField(facet: SolrFacetFieldQuery) | OfQuery(q: DslQueries.Query)

  /** System.Collections.Generic.List. */
  class List<X> {
    var items: seq<X>

    constructor ()
      ensures items == []
    {
      items := [];
    }

    constructor Copy(other: List<X>)
      ensures items == other.items
    {
      items := other.items;
    }

    method Add(x: X)
      modifies this
      ensures items == old(items) + [x]
    {
      items := items + [x];
    }
  }

  /** DSLRun, and with `facetQuery` DSLFacetFieldOptions. */
  class DSLRun {
    const query: Option<DslQueries.Query>
    const order: List<SortOrder>
    const facets: List<Facet>
    const highlight: Option<Highlight>
    const facetQuery: SolrFacetFieldQuery?

    constructor (query: Option<DslQueries.Query>, order: List<SortOrder>, facets: List<Facet>,
                 highlight: Option<Highlight>, facetQuery: SolrFacetFieldQuery?)
      ensures this.query == query && this.order == order && this.facets == facets
      ensures this.highlight == highlight && this.facetQuery == facetQuery
    {
      this.query, this.order, this.facets := query, order, facets;
      this.highlight, this.facetQuery := highlight, facetQuery;
    }

    method OrderBy(o: SortOrder) returns (r: DSLRun)
      ensures fresh(r) && fresh(r.order) && fresh(r.facets)
      ensures r.order.items == order.items + [o] && r.facets.items == []
      ensures r.query == query && r.highlight == None && r.facetQuery == null
    {
      var newOrder := new List.Copy(order);
      newOrder.Add(o);
      var noFacets := new List<Facet>();
      r := new DSLRun(query, newOrder, noFacets, None, null);
    }

    /** Ascending, unless a direction is given. */
    method OrderByField(field: string) returns (r: DSLRun)
      ensures fresh(r) && fresh(r.order) && fresh(r.facets)
      ensures r.order.items == order.items + [SortOrder(field, ASC)] && r.facets.items == []
      ensures r.query == query && r.highlight == None && r.facetQuery == null
    {
      r := OrderBy(SortOrder(field, ASC));
    }

    method WithFacetField(field: string) returns (r: DSLRun)
      ensures fresh(r) && r.order == order && fresh(r.facets) && r.facetQuery != null && fresh(r.facetQuery)
      ensures r.facets.items == facets.items + [OfField(r.facetQuery)] && r.facetQuery.Value() == Unset(field)
      ensures r.query == query && r.highlight == None
    {
      var facetFieldQuery := new SolrFacetFieldQuery(field);
      var newFacets := new List.Copy(facets);
      newFacets.Add(OfField(facetFieldQuery));
      r := new DSLRun(query, order, newFacets, None, facetFieldQuery);
    }

    method WithFacetQuery(q: DslQueries.Query) returns (r: DSLRun)
      ensures fresh(r) && r.order == order && fresh(r.facets) && r.facets.items == facets.items + [OfQuery(q)]
      ensures r.query == query && r.highlight == highlight && r.facetQuery == null
    {
      var newFacets := new List.Copy(facets);
      newFacets.Add(OfQuery(q));
      r := new DSLRun(query, order, newFacets, highlight, null);
    }

    method WithFacetText(q: string) returns (r: DSLRun)
      ensures fresh(r) && r.order == order && fresh(r.facets)
      ensures r.facets.items == facets.items + [OfQuery(DslQueries.Text(q))]
      ensures r.query == query && r.highlight == highlight && r.facetQuery == null
    {
      r := WithFacetQuery(DslQueries.Text(q));
    }

    method WithHighlighting(h: Highlight) returns (r: DSLRun)
      ensures fresh(r) && r.order == order && r.facets == facets
      ensures r.query == query && r.highlight == Some(h) && r.facetQuery == null
    {
      r := new DSLRun(query, order, facets, Some(h), null);
    }

    /**
     The option setters: they assign a property of the open facet query, which the receiver and every other
     builder with that facet share, and return a new builder for it with the same lists.
     */
    method Configure(x: Setting) returns (r: DSLRun)
      requires facetQuery != null
      modifies facetQuery
      ensures fresh(r) && r.order == order && r.facets == facets && r.facetQuery == facetQuery
      ensures r.query == query && r.highlight == None
      ensures facetQuery.Value() == Set(old(facetQuery.Value()), x)
      ensures facetQuery.limit == if x.LimitTo? then Some(x.limit) else old(facetQuery.limit)
      ensures facetQuery.sort == if x.DontSortByCount? then Some(false) else old(facetQuery.sort)
      ensures facetQuery.prefix == if x.WithPrefix? then Some(x.prefix) else old(facetQuery.prefix)
      ensures facetQuery.minCount == if x.WithMinCount? then Some(x.count) else old(facetQuery.minCount)
      ensures facetQuery.offset == if x.StartingAt? then Some(x.offset) else old(facetQuery.offset)
      ensures facetQuery.missing == if x.IncludeMissing? then Some(true) else old(facetQuery.missing)
    {
      match x {
        case LimitTo(limit) => facetQuery.limit := Some(limit);
        case DontSortByCount => facetQuery.sort := Some(false);
        case WithPrefix(prefix) => facetQuery.prefix := Some(prefix);
        case WithMinCount(count) => facetQuery.minCount := Some(count);
        case StartingAt(offset) => facetQuery.offset := Some(offset);
        case IncludeMissing => facetQuery.missing := Some(true);
      }
      r := new DSLRun(query, order, facets, None, facetQuery);
    }
  }

  // ----- Histories on objects -----

  /** The facet query objects, by the step that opened them. */
  type Opened = map<nat, SolrFacetFieldQuery>

  ghost predicate Matches(f: Facet, r: Ref, made: Opened) {
    match r
    case OpenedBy(j) => j in made && f == OfField(made[j])
    case Query(q) => f == OfQuery(q)
  }

  /** The facet list of builder `k` and its open facet query. */
  ghost predicate HoldsFacets(items: seq<Facet>, open: SolrFacetFieldQuery?, h: seq<Step>, k: nat, made: Opened)
    requires Ordered(h) && k <= |h|
  {
    var refs := FacetsAt(h, k);
    && |items| == |refs|
    && (forall i :: 0 <= i < |refs| ==> Matches(items[i], refs[i], made))
    && (match OpenOn(h, k)
        case None => open == null
        case Some(j) => j in made && open == made[j])
  }

  /** Builder `k` has the orders and the highlighting of its own path. */
  ghost predicate HoldsPath(orders: seq<SortOrder>, highlight: Option<Highlight>, h: seq<Step>, k: nat)
    requires Ordered(h) && k <= |h|
  {
    orders == OrdersOf(PathTo(h, k)) && highlight == LastHighlight(Since(PathTo(h, k), true))
  }

  /** What the objects show. */
  ghost function Values(made: Opened): map<nat, Settings>
    reads made.Values
  {
    map j | j in made :: made[j].Value()
  }

  /** One object for each step that opened a facet query, with the settings given to it so far. */
  ghost predicate Tracks(made: Opened, values: map<nat, Settings>, h: seq<Step>, now: nat)
    requires Ordered(h) && now <= |h|
  {
    && (forall j: nat :: j in made <==> j < now && h[j].call.WithFacetField?)
    && (forall i, j :: i in made && j in made && i != j ==> made[i] != made[j])
    && (forall j :: j in made ==> j in values && values[j] == SettingsAt(h, j, now))
  }

  // What a call does to the parts of a builder.

  function NextOrders(orders: seq<SortOrder>, c: Call): seq<SortOrder> {
    if c.OrderBy? then orders + [c.o] else orders
  }

  function NextHighlight(highlight: Option<Highlight>, c: Call): Option<Highlight> {
    match c
    case WithHighlighting(x) => Some(x)
    case WithFacetQuery(_) => highlight
    case _ => None
  }

  ghost predicate NextFacets(items: seq<Facet>, open: SolrFacetFieldQuery?, c: Call, items': seq<Facet>,
                             open': SolrFacetFieldQuery?) {
    match c
    case OrderBy(_) => items' == [] && open' == null
    case WithFacetField(_) => open' != null && items' == items + [OfField(open')]
    case WithFacetQuery(q) => open' == null && items' == items + [OfQuery(q)]
    case WithHighlighting(_) => open' == null && items' == items
    case Configure(_) => open' == open && items' == items
  }

  /** One call on a builder. Lists that exist are never changed, and a facet query only by an option. */
  method Perform(b: DSLRun, c: Call) returns (r: DSLRun)
    requires c.Configure? ==> b.facetQuery != null
    modifies if c.Configure? then {b.facetQuery} else {}
    ensures fresh(r) && r.query == b.query
    ensures r.order.items == NextOrders(b.order.items, c)
    ensures r.highlight == NextHighlight(b.highlight, c)
    ensures NextFacets(b.facets.items, b.facetQuery, c, r.facets.items, r.facetQuery)
    ensures c.WithFacetField? ==> fresh(r.facetQuery) && r.facetQuery.Value() == Unset(c.field)
    ensures c.Configure? ==> r.facetQuery.Value() == Set(old(b.facetQuery.Value()), c.x)
  {
    match c
    case OrderBy(o) => r := b.OrderBy(o);
    case WithFacetField(field) => r := b.WithFacetField(field);
    case WithFacetQuery(q) => r := b.WithFacetQuery(q);
    case WithHighlighting(x) => r := b.WithHighlighting(x);
    case Configure(x) => r := b.Configure(x);
  }

  /** A builder with an open facet query has no highlighting, so an option loses none. */
  lemma {:induction false} OpenHasNoHighlight(h: seq<Step>, k: nat)
    requires Possible(h) && k <= |h| && OpenOn(h, k).Some?
    ensures LastHighlight(Since(PathTo(h, k), true)) == None
  {
    var before, c := PathTo(h, h[k - 1].on), h[k - 1].call;
    if c.Configure? {
      OpenHasNoHighlight(h, h[k - 1].on);
      assert (Since(before, true) + [c])[..|Since(before, true)|] == Since(before, true);
    }
  }

  lemma HighlightHolds(h: seq<Step>, now: nat)
    requires Possible(h) && now < |h|
    ensures LastHighlight(Since(PathTo(h, now + 1), true))
         == NextHighlight(LastHighlight(Since(PathTo(h, h[now].on), true)), h[now].call)
  {
    hide Since, LastHighlight;
    var before, c := PathTo(h, h[now].on), h[now].call;
    SinceSnoc(before, c);
    LastSnoc(Since(before, true), c);
    LastOfNone();
    if c.Configure? {
      OpenHasNoHighlight(h, h[now].on);
    }
  }

  lemma SinceSnoc(calls: seq<Call>, c: Call)
    ensures Since(calls + [c], true) == if Restarts(c, true) then [] else Since(calls, true) + [c]
  {
    assert (calls + [c])[..|calls|] == calls;
  }

  lemma LastSnoc(calls: seq<Call>, c: Call)
    ensures LastHighlight(calls + [c]) == if c.WithHighlighting? then Some(c.h) else LastHighlight(calls)
  {
    assert (calls + [c])[..|calls|] == calls;
  }

  lemma LastOfNone()
    ensures LastHighlight([]) == None
  {
  }

  lemma PathHolds(orders: seq<SortOrder>, highlight: Option<Highlight>, h: seq<Step>, now: nat)
    requires Possible(h) && now < |h| && HoldsPath(orders, highlight, h, h[now].on)
    ensures HoldsPath(NextOrders(orders, h[now].call), NextHighlight(highlight, h[now].call), h, now + 1)
  {
    hide LastHighlight, Since, OrdersOf;
    OrdersSnoc(PathTo(h, h[now].on), h[now].call);
    HighlightHolds(h, now);
  }

  /** The objects after a step: a step that opens a facet query adds one. */
  function MadeBy(made: Opened, c: Call, now: nat, open: SolrFacetFieldQuery?): Opened {
    if c.WithFacetField? && open != null then made[now := open] else made
  }

  lemma FacetsHold(items: seq<Facet>, open: SolrFacetFieldQuery?, h: seq<Step>, now: nat, made: Opened,
                   items': seq<Facet>, open': SolrFacetFieldQuery?)
    requires Possible(h) && now < |h| && now !in made
    requires HoldsFacets(items, open, h, h[now].on, made)
    requires NextFacets(items, open, h[now].call, items', open')
    ensures HoldsFacets(items', open', h, now + 1, MadeBy(made, h[now].call, now, open'))
  {
  }

  /** Whatever is opened later, a builder holds the facets it held. */
  lemma FacetsStay(items: seq<Facet>, open: SolrFacetFieldQuery?, h: seq<Step>, k: nat, made: Opened, made': Opened)
    requires Ordered(h) && k <= |h| && HoldsFacets(items, open, h, k, made)
    requires forall j :: j in made ==> j in made' && made'[j] == made[j]
    ensures HoldsFacets(items, open, h, k, made')
  {
  }

  lemma {:induction false} SettingsNext(h: seq<Step>, j: nat, now: nat)
    requires Ordered(h) && j <= now < |h| && h[j].call.WithFacetField?
    ensures SettingsAt(h, j, now + 1) ==
              if j == now then Unset(h[j].call.field)
              else if h[now].call.Configure? && OpenOn(h, h[now].on) == Some(j)
              then Set(SettingsAt(h, j, now), h[now].call.x) else SettingsAt(h, j, now)
  {
  }

  /** What the objects show after one more step. */
  lemma TracksNext(made: Opened, values: map<nat, Settings>, h: seq<Step>, now: nat, open: SolrFacetFieldQuery?,
                   values': map<nat, Settings>)
    requires Possible(h) && now < |h| && Tracks(made, values, h, now)
    requires forall j :: j in made ==>
               j in values' &&
               values'[j] == if h[now].call.Configure? && OpenOn(h, h[now].on) == Some(j)
                             then Set(values[j], h[now].call.x) else values[j]
    requires h[now].call.WithFacetField? ==>
               && open != null && open !in made.Values
               && now in values' && values'[now] == Unset(h[now].call.field)
    ensures Tracks(MadeBy(made, h[now].call, now, open), values', h, now + 1)
  {
    hide Set, Unset, SettingsAt, OpenOn;
    var made' := MadeBy(made, h[now].call, now, open);
    forall j | j in made' ensures j in values' && values'[j] == SettingsAt(h, j, now + 1) {
      SettingsNext(h, j, now);
    }
  }

  /** One step of a history. */
  method Advance(b: DSLRun, ghost query: Option<DslQueries.Query>, h: seq<Step>, now: nat, ghost made: Opened)
    returns (r: DSLRun, ghost made': Opened)
    requires Possible(h) && now < |h| && Tracks(made, Values(made), h, now) && Holds(b, query, h, h[now].on, made)
    modifies made.Values
    ensures fresh(r) && Holds(r, query, h, now + 1, made')
    ensures Tracks(made', Values(made'), h, now + 1) && fresh(made'.Values - made.Values)
    ensures forall j :: j in made ==> j in made' && made'[j] == made[j]
  {
    hide HoldsPath, Tracks, HoldsFacets, NextFacets, PathTo, FacetsAt, OpenOn, SettingsAt, MadeBy, Set, Unset;
    PathHolds(b.order.items, b.highlight, h, now);
    OpenIsMade(b.facets.items, b.facetQuery, h, now, made);
    ghost var items, open, values := b.facets.items, b.facetQuery, Values(made);
    r := Perform(b, h[now].call);
    OpensOne(items, open, h[now].call, r.facets.items, r.facetQuery);
    made' := MadeBy(made, h[now].call, now, r.facetQuery);
    MadeGrows(made, h[now].call, now, r.facetQuery);
    FacetsHold(items, open, h, now, made, r.facets.items, r.facetQuery);
    TracksNext(made, values, h, now, r.facetQuery, Values(made'));
  }

  lemma MadeGrows(made: Opened, c: Call, now: nat, open: SolrFacetFieldQuery?)
    requires now !in made && (c.WithFacetField? ==> open != null)
    ensures var made' := MadeBy(made, c, now, open);
            && (forall j :: j in made ==> j in made' && made'[j] == made[j])
            && (c.WithFacetField? ==> now in made' && made'[now] == open)
            && (forall x :: x in made'.Values ==> x in made.Values || (c.WithFacetField? && x == open))
  {
  }

  lemma OpensOne(items: seq<Facet>, open: SolrFacetFieldQuery?, c: Call, items': seq<Facet>,
                 open': SolrFacetFieldQuery?)
    requires NextFacets(items, open, c, items', open')
    ensures c.WithFacetField? ==> open' != null
    ensures c.Configure? ==> open' == open
  {
  }

  /** The open facet query of a receiver is the object of the step that opened it, and no other step's. */
  lemma OpenIsMade(items: seq<Facet>, open: SolrFacetFieldQuery?, h: seq<Step>, now: nat, made: Opened)
    requires Possible(h) && now < |h| && Tracks(made, Values(made), h, now)
    requires HoldsFacets(items, open, h, h[now].on, made)
    ensures now !in made
    ensures h[now].call.Configure? ==> open != null && open in made.Values
    ensures h[now].call.Configure? ==> forall j :: j in made ==> (made[j] == open <==> OpenOn(h, h[now].on) == Some(j))
  {
  }

  /** Builder `k` of a history. */
  ghost predicate Holds(b: DSLRun, query: Option<DslQueries.Query>, h: seq<Step>, k: nat, made: Opened)
    requires Ordered(h) && k <= |h|
    reads b.order, b.facets
  {
    && b.query == query
    && HoldsPath(b.order.items, b.highlight, h, k)
    && HoldsFacets(b.facets.items, b.facetQuery, h, k, made)
  }

  lemma HoldsStays(b: DSLRun, query: Option<DslQueries.Query>, h: seq<Step>, k: nat, made: Opened, made': Opened)
    requires Ordered(h) && k <= |h| && Holds(b, query, h, k, made)
    requires forall j :: j in made ==> j in made' && made'[j] == made[j]
    ensures Holds(b, query, h, k, made')
  {
    FacetsStay(b.facets.items, b.facetQuery, h, k, made, made');
  }

  method RunSteps(query: Option<DslQueries.Query>, h: seq<Step>)
    returns (builders: seq<DSLRun>, ghost made: Opened)
    requires Possible(h)
    ensures |builders| == |h| + 1 && Tracks(made, Values(made), h, |h|)
    ensures forall k :: 0 <= k <= |h| ==> Holds(builders[k], query, h, k, made)
  {
    hide Holds, Tracks, Values;
    var start := NewQuery(query, h);
    made := map[];
    builders := [start];
    StartHolds(h);
    for now := 0 to |h|
      invariant |builders| == now + 1 && Tracks(made, Values(made), h, now) && fresh(made.Values)
      invariant forall k :: 0 <= k <= now ==> Holds(builders[k], query, h, k, made)
    {
      var r;
      ghost var before := made;
      r, made := Advance(builders[h[now].on], query, h, now, made);
      forall k | 0 <= k <= now ensures Holds(builders[k], query, h, k, made) {
        HoldsStays(builders[k], query, h, k, before, made);
      }
      builders := builders + [r];
    }
  }

  method NewQuery(query: Option<DslQueries.Query>, ghost h: seq<Step>) returns (r: DSLRun)
    requires Ordered(h)
    ensures fresh(r) && fresh(r.order) && fresh(r.facets) && Holds(r, query, h, 0, map[])
  {
    var noOrder := new List<SortOrder>();
    var noFacets := new List<Facet>();
    StartHolds(h);
    r := new DSLRun(query, noOrder, noFacets, None, null);
  }

  /**
   Any history on objects. In the end every builder has the orders and the highlighting of its own path,
   whatever was done on other branches, and shows each of its facets with all options given through any
   builder that had it open.
   */
  method RunHistory(query: Option<DslQueries.Query>, h: seq<Step>) returns (builders: seq<DSLRun>)
    requires Possible(h)
    ensures |builders| == |h| + 1
    ensures forall k :: 0 <= k <= |h| ==>
              && builders[k].query == query
              && builders[k].order.items == OrdersOf(PathTo(h, k))
              && builders[k].highlight == LastHighlight(Since(PathTo(h, k), true))
              && Shows(builders[k], ShownFacets(h, k, |h|))
  {
    hide HoldsFacets, HoldsPath, Tracks, Shows, Values, FacetsAt, OpenOn, ShownFacets;
    hide PathTo, OrdersOf, Since, LastHighlight;
    ghost var made;
    builders, made := RunSteps(query, h);
    forall k | 0 <= k <= |h|
      ensures builders[k].order.items == OrdersOf(PathTo(h, k))
      ensures builders[k].highlight == LastHighlight(Since(PathTo(h, k), true))
      ensures Shows(builders[k], ShownFacets(h, k, |h|))
    {
      PathHeld(builders[k].order.items, builders[k].highlight, h, k);
      FacetsShown(builders[k], h, k, made);
    }
  }

  lemma StartHolds(h: seq<Step>)
    requires Ordered(h)
    ensures HoldsPath([], None, h, 0) && HoldsFacets([], null, h, 0, map[]) && Tracks(map[], Values(map[]), h, 0)
  {
  }

  lemma PathHeld(orders: seq<SortOrder>, highlight: Option<Highlight>, h: seq<Step>, k: nat)
    requires Ordered(h) && k <= |h| && HoldsPath(orders, highlight, h, k)
    ensures orders == OrdersOf(PathTo(h, k)) && highlight == LastHighlight(Since(PathTo(h, k), true))
  {
  }

  lemma FacetsShown(b: DSLRun, h: seq<Step>, k: nat, made: Opened)
    requires Ordered(h) && k <= |h| && Tracks(made, Values(made), h, |h|)
    requires HoldsFacets(b.facets.items, b.facetQuery, h, k, made)
    ensures Shows(b, ShownFacets(h, k, |h|))
  {
    var refs := FacetsAt(h, k);
    forall i: nat | i < |refs| ensures Matches(b.facets.items[i], refs[i], made) {
    }
  }

  /** The facet list of a builder, with the present settings of its facet queries. */
  ghost predicate Shows(b: DSLRun, fs: seq<FacetValue>)
    reads b.facets, set i | 0 <= i < |b.facets.items| && b.facets.items[i].OfField? :: b.facets.items[i].facet
  {
    && |b.facets.items| == |fs|
    && forall i :: 0 <= i < |fs| ==>
         fs[i] == match b.facets.items[i]
                  case OfField(facet) => FieldFacet(facet.Value())
                  case OfQuery(q) => QueryFacet(q)
  }

  /** A single chain on objects: the builder it ends with shows what the calls mean. */
  method RunChain(query: Option<DslQueries.Query>, calls: seq<Call>) returns (r: DSLRun)
    requires Typed(calls)
    ensures r.query == query && r.order.items == OrdersOf(calls) && r.highlight == LastHighlight(Since(calls, true))
    ensures Shows(r, FacetsOf(Since(calls, false)))
  {
    StraightIsPossible(calls);
    StraightIsChain(calls);
    var builders := RunHistory(query, Straight(calls));
    r := builders[|calls|];
  }
}
