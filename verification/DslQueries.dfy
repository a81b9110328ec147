/**
 The query part of the fluent builder: SolrNet.DSL/Impl/DSLQuery.cs, DSLQueryBy.cs, DSLQueryBetween.cs and
 DSLQueryRange.cs. Every clause wraps the query so far and itself in a new list of criteria; the first one
 wraps null.
 */
module DslQueries {
  import opened Options

  datatype Query =
    | Text(q: string)
    | ByField(field: string, value: string)
    | ByRange(field: string, lower: string, upper: string, inclusive: bool)
    | Criteria(queries: seq<Option<Query>>)

  /** DSLQuery, and with `range` DSLQueryRange, which remembers how to build its query again. */
  datatype DslQuery = DslQuery(query: Option<Query>, range: Option<Range>)

  datatype Range = Range(prev: Option<Query>, field: string, lower: string, upper: string)

  datatype DslQueryBy = DslQueryBy(query: Option<Query>, field: string)

  datatype DslQueryBetween = DslQueryBetween(query: Option<Query>, field: string, lower: string)

  function AndAlso(prev: Option<Query>, clause: Query): Option<Query> {
    Some(Criteria([prev, Some(clause)]))
  }

  function By(d: DslQuery, field: string): DslQueryBy {
    DslQueryBy(d.query, field)
  }

  function Is(d: DslQueryBy, value: string): DslQuery {
    DslQuery(AndAlso(d.query, ByField(d.field, value)), None)
  }

  function Between(d: DslQueryBy, lower: string): DslQueryBetween {
    DslQueryBetween(d.query, d.field, lower)
  }

  function And(d: DslQueryBetween, upper: string): DslQuery {
    DslQuery(AndAlso(d.query, ByRange(d.field, d.lower, upper, true)), None)
  }

  /** The constructor of DSLQueryRange: its own query has the inclusive range. */
  function InRange(d: DslQuery, field: string, lower: string, upper: string): DslQuery {
    DslQuery(AndAlso(d.query, ByRange(field, lower, upper, true)), Some(Range(d.query, field, lower, upper)))
  }

  function BuildFinalQuery(r: Range, inclusive: bool): Option<Query> {
    AndAlso(r.prev, ByRange(r.field, r.lower, r.upper, inclusive))
  }

  function Bounds(d: DslQuery, inclusive: bool): DslQuery
    requires d.range.Some?
  {
    DslQuery(BuildFinalQuery(d.range.value, inclusive), None)
  }

  // ----- Chains -----

  datatype Clause =
    | FieldIs(field: string, value: string)
    | FieldBetween(field: string, lower: string, upper: string)
    | FieldInRange(field: string, lower: string, upper: string)
    | Exclusive
    | Inclusive

  /** `Exclusive` and `Inclusive` exist only on what `ByRange` returns. */
  predicate Typed(clauses: seq<Clause>) {
    forall i :: 0 <= i < |clauses| && (clauses[i].Exclusive? || clauses[i].Inclusive?) ==>
      i > 0 && clauses[i - 1].FieldInRange?
  }

  function Extend(d: DslQuery, c: Clause): DslQuery
    requires c.Exclusive? || c.Inclusive? ==> d.range.Some?
  {
    match c
    case FieldIs(field, value) => Is(By(d, field), value)
    case FieldBetween(field, lower, upper) => And(Between(By(d, field), lower), upper)
    case FieldInRange(field, lower, upper) => InRange(d, field, lower, upper)
    case Exclusive => Bounds(d, false)
    case Inclusive => Bounds(d, true)
  }

  function Chain(start: Option<Query>, clauses: seq<Clause>): (d: DslQuery)
    requires Typed(clauses)
    ensures d.range.Some? <==> clauses != [] && clauses[|clauses| - 1].FieldInRange?
    decreases |clauses|
  {
    if clauses == [] then DslQuery(start, None)
    else Extend(Chain(start, clauses[..|clauses| - 1]), clauses[|clauses| - 1])
  }

  /** The clauses of nested criteria, from left to right, without nulls. */
  function Flatten(q: Option<Query>): seq<Query>
    decreases q, 0
  {
    if q.None? then [] else if q.value.Criteria? then FlattenAll(q.value.queries) else [q.value]
  }

  function FlattenAll(qs: seq<Option<Query>>): seq<Query>
    decreases qs, 1
  {
    if qs == [] then [] else Flatten(qs[0]) + FlattenAll(qs[1..])
  }

  /** The query of one clause, given whether `Exclusive` follows; a bounds call has none of its own. */
  function QueryOf(c: Clause, exclusive: bool): seq<Query> {
    match c
    case FieldIs(field, value) => [ByField(field, value)]
    case FieldBetween(field, lower, upper) => [ByRange(field, lower, upper, true)]
    case FieldInRange(field, lower, upper) => [ByRange(field, lower, upper, !exclusive)]
    case _ => []
  }

  /** One query per clause, in the order of the calls. */
  function QueriesOf(clauses: seq<Clause>): seq<Query> {
    if clauses == [] then [] else
    QueryOf(clauses[0], |clauses| > 1 && clauses[1].Exclusive?) + QueriesOf(clauses[1..])
  }

  lemma FlattenPair(prev: Option<Query>, clause: Query)
    requires !clause.Criteria?
    ensures Flatten(AndAlso(prev, clause)) == Flatten(prev) + [clause]
  {
    var qs := [prev, Some(clause)];
    assert qs[1..] == [Some(clause)] && qs[1..][1..] == [];
    assert FlattenAll(qs[1..]) == Flatten(Some(clause)) + FlattenAll(qs[1..][1..]);
  }

  lemma {:induction false} QueriesAppend(xs: seq<Clause>, ys: seq<Clause>)
    requires ys != [] ==> !ys[0].Exclusive?
    ensures QueriesOf(xs + ys) == QueriesOf(xs) + QueriesOf(ys)
  {
    if xs == [] {
      assert xs + ys == ys;
    } else {
      assert (xs + ys)[1..] == xs[1..] + ys;
      QueriesAppend(xs[1..], ys);
    }
  }

  lemma QueriesOne(c: Clause)
    ensures QueriesOf([c]) == QueryOf(c, false)
  {
    assert [c][1..] == [];
  }

  lemma QueriesTwo(c: Clause, d: Clause)
    ensures QueriesOf([c, d]) == QueryOf(c, d.Exclusive?) + QueryOf(d, false)
  {
    assert [c, d][1..] == [d];
    QueriesOne(d);
  }

  /** What a DSLQueryRange remembers: its last clause and the query before it. */
  ghost predicate Remembers(d: DslQuery, earlier: seq<Query>, clauses: seq<Clause>) {
    d.range.Some? ==>
      && clauses != [] && clauses[|clauses| - 1].FieldInRange?
      && (var k := |clauses| - 1;
          var c, r := clauses[k], d.range.value;
          && r.field == c.field && r.lower == c.lower && r.upper == c.upper
          && Flatten(r.prev) == earlier + QueriesOf(clauses[..k]))
  }

  /**
   For every chain of clauses on any start query: the nested criteria hold, after the start query, exactly
   one query per clause, in the order of the calls, and `Exclusive` and `Inclusive` have replaced the range
   before them instead of adding one.
   */
  lemma {:induction false} ChainHoldsClauses(start: Option<Query>, clauses: seq<Clause>)
    requires Typed(clauses)
    ensures Flatten(Chain(start, clauses).query) == Flatten(start) + QueriesOf(clauses)
    ensures Remembers(Chain(start, clauses), Flatten(start), clauses)
    decreases |clauses|
  {
    hide Flatten, QueriesOf, Extend;
    if clauses == [] {
      NoQueries();
    } else {
      var k := |clauses| - 1;
      var init, c := clauses[..k], clauses[k];
      ChainHoldsClauses(start, init);
      assert clauses == init + [c];
      if c.Exclusive? || c.Inclusive? {
        assert clauses == init[..k - 1] + [init[k - 1], c];
        BoundsReplace(Chain(start, init), Flatten(start), init[..k - 1], init[k - 1], c);
      } else {
        ClauseAdds(Chain(start, init), Flatten(start), init, c);
      }
    }
  }

  lemma NoQueries()
    ensures QueriesOf([]) == []
  {
  }

  lemma ClauseAdds(d: DslQuery, earlier: seq<Query>, init: seq<Clause>, c: Clause)
    requires !c.Exclusive? && !c.Inclusive?
    requires Flatten(d.query) == earlier + QueriesOf(init)
    ensures Flatten(Extend(d, c).query) == earlier + QueriesOf(init + [c])
    ensures Remembers(Extend(d, c), earlier, init + [c])
  {
    QueriesAppend(init, [c]);
    QueriesOne(c);
    FlattenPair(d.query, QueryOf(c, false)[0]);
    assert (init + [c])[..|init|] == init;
  }

  lemma BoundsReplace(d: DslQuery, earlier: seq<Query>, before: seq<Clause>, r: Clause, c: Clause)
    requires r.FieldInRange? && (c.Exclusive? || c.Inclusive?) && d.range.Some?
    requires d.range.value == Range(d.range.value.prev, r.field, r.lower, r.upper)
    requires Flatten(d.range.value.prev) == earlier + QueriesOf(before)
    ensures Flatten(Extend(d, c).query) == earlier + QueriesOf(before + [r, c])
  {
    var clause := ByRange(r.field, r.lower, r.upper, c.Inclusive?);
    QueriesAppend(before, [r, c]);
    QueriesTwo(r, c);
    FlattenPair(d.range.value.prev, clause);
    assert QueriesOf([r, c]) == [clause];
    assert earlier + QueriesOf(before) + [clause] == earlier + (QueriesOf(before) + [clause]);
  }

  /**
   What a single clause adds, to the letter: ranges are inclusive unless `Exclusive` follows, and the bounds
   keep their order.
   */
  lemma SingleClauses(start: Option<Query>, field: string, value: string, lower: string, upper: string)
    ensures var d := DslQuery(start, None);
            && Flatten(Is(By(d, field), value).query) == Flatten(start) + [ByField(field, value)]
            && Flatten(And(Between(By(d, field), lower), upper).query) ==
                 Flatten(start) + [ByRange(field, lower, upper, true)]
            && Flatten(InRange(d, field, lower, upper).query) == Flatten(start) + [ByRange(field, lower, upper, true)]
            && Flatten(Bounds(InRange(d, field, lower, upper), false).query) ==
                 Flatten(start) + [ByRange(field, lower, upper, false)]
            && Flatten(Bounds(InRange(d, field, lower, upper), true).query) ==
                 Flatten(start) + [ByRange(field, lower, upper, true)]
  {
    FlattenPair(start, ByField(field, value));
    FlattenPair(start, ByRange(field, lower, upper, true));
    FlattenPair(start, ByRange(field, lower, upper, false));
  }
}
