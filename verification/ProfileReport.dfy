/**
 The report of SolrNet.Tests/Utils/ProfilerTests.cs: a profile is flattened, grouped by method, the times
 of each group are added up, and the groups are listed by descending time.
 */
module ProfileReport {
  import opened Options
  import opened CallTree
  import opened CallTrace
  import opened CallFailures

  datatype Sample = Sample(m: MethodInfo, time: nat)

  function Flatten(t: Tree): seq<Sample>
    decreases t, 1
  {
    (if t.key.Some? then [Sample(t.key.value, t.time)] else []) + FlattenAll(t.kids)
  }

  function FlattenAll(ts: seq<Tree>): seq<Sample>
    decreases ts, 0
  {
    if ts == [] then [] else Flatten(ts[0]) + FlattenAll(ts[1..])
  }

  lemma {:induction false} FlattenAppend(ts: seq<Tree>, us: seq<Tree>)
    ensures FlattenAll(ts + us) == FlattenAll(ts) + FlattenAll(us)
  {
    if ts == [] {
      assert ts + us == us;
    } else {
      assert (ts + us)[1..] == ts[1..] + us;
      FlattenAppend(ts[1..], us);
    }
  }

  /** The nodes from index `lo` on, in the order of their creation. */
  function Created(recs: seq<Rec>, lo: nat): seq<Sample>
    requires lo <= |recs|
    requires forall i :: lo <= i < |recs| ==> recs[i].key.Some?
    decreases |recs| - lo
  {
    if lo == |recs| then [] else [Sample(recs[lo].key.value, recs[lo].time)] + Created(recs, lo + 1)
  }

  lemma {:induction false} CreatedSplit(recs: seq<Rec>, lo: nat, mid: nat, more: seq<Rec>)
    requires lo <= mid == |recs| <= |more|
    requires forall i :: lo <= i < |recs| ==> recs[i].key.Some? && more[i] == recs[i]
    requires forall i :: mid <= i < |more| ==> more[i].key.Some?
    ensures Created(more, lo) == Created(recs, lo) + Created(more, mid)
    decreases mid - lo
  {
    if lo < mid {
      CreatedSplit(recs, lo + 1, mid, more);
    }
  }

  lemma KeysPresent(a: Arena)
    requires WellFormed(a)
    ensures forall i :: 0 < i < |a.recs| ==> a.recs[i].key.Some?
  {
    forall i: nat | 0 < i < |a.recs| ensures a.recs[i].key.Some? {
      assert LinksAgree(a.recs, i);
    }
  }

  /** Flattening visits the calls in the order in which they were entered: preorder is creation order. */
  lemma {:induction false} FlattenIsCallOrder(a: Arena, b: Body)
    requires WellFormed(a)
    ensures |a.recs| <= |After(a, b).recs|
    ensures forall i :: |a.recs| <= i < |After(a, b).recs| ==> After(a, b).recs[i].key.Some?
    ensures Created(After(a, b).recs, |a.recs|) == FlattenAll(CallForest(b))
    decreases b, 0
  {
    TreeEqualsTrace(a, b);
    KeysPresent(After(a, b));
    match b
    case End(_) =>
    case Work(d, rest) =>
      FlattenIsCallOrder(Apply(a, Elapsed(d)), rest);
    case Clear(rest) =>
      FlattenIsCallOrder(a, rest);
    case Invoke(m, callee, caught, rest) =>
      CallOrder(a, m, callee);
      var tree := Tree(Some(m), OwnTime(callee), CallForest(callee));
      assert FlattenAll([tree]) == Flatten(tree);
      if !Aborts(b) {
        var c := AfterCall(a, m, callee);
        FlattenIsCallOrder(c, rest);
        TreeEqualsTrace(c, rest);
        FlattenAppend([tree], CallForest(rest));
        CreatedSplit(c.recs, |a.recs|, |c.recs|, After(c, rest).recs);
      }
  }

  lemma {:induction false} CallOrder(a: Arena, m: MethodInfo, callee: Body)
    requires WellFormed(a)
    ensures |a.recs| < |AfterCall(a, m, callee).recs| && AfterCall(a, m, callee).cur == a.cur
    ensures forall i :: |a.recs| <= i < |AfterCall(a, m, callee).recs| ==> AfterCall(a, m, callee).recs[i].key.Some?
    ensures Created(AfterCall(a, m, callee).recs, |a.recs|)
         == Flatten(Tree(Some(m), OwnTime(callee), CallForest(callee)))
    decreases callee, 1
  {
    var e := Apply(a, Entered(m));
    FlattenIsCallOrder(e, callee);
    TreeEqualsTrace(e, callee);
    KeysPresent(AfterCall(a, m, callee));
  }

  // ----- Grouping -----

  function Sum(s: seq<Sample>): nat {
    if s == [] then 0 else s[0].time + Sum(s[1..])
  }

  /** The time of one method. */
  function SumOf(s: seq<Sample>, m: MethodInfo): nat {
    if s == [] then 0 else (if s[0].m == m then s[0].time else 0) + SumOf(s[1..], m)
  }

  /** The groups with one more sample: a method seen before keeps its place, a new one comes last. */
  function AddTo(groups: seq<Sample>, x: Sample): seq<Sample> {
    if groups == [] then [x]
    else if groups[0].m == x.m then [Sample(x.m, groups[0].time + x.time)] + groups[1..]
    else [groups[0]] + AddTo(groups[1..], x)
  }

  function GroupByMethod(s: seq<Sample>): seq<Sample> {
    if s == [] then [] else AddTo(GroupByMethod(s[..|s| - 1]), s[|s| - 1])
  }

  /** A stable descending sort by time. */
  function Insert(x: Sample, s: seq<Sample>): seq<Sample> {
    if s == [] || x.time >= s[0].time then [x] + s else [s[0]] + Insert(x, s[1..])
  }

  function SortDescending(s: seq<Sample>): seq<Sample> {
    if s == [] then [] else Insert(s[0], SortDescending(s[1..]))
  }

  function Report(profile: Tree): seq<Sample> {
    SortDescending(GroupByMethod(Flatten(profile)))
  }

  ghost predicate Listed(s: seq<Sample>, m: MethodInfo) {
    exists i :: 0 <= i < |s| && s[i].m == m
  }

  ghost predicate DistinctMethods(s: seq<Sample>) {
    forall i, j :: 0 <= i < j < |s| ==> s[i].m != s[j].m
  }

  /** By descending time, and among equal times by ascending rank of the method. */
  ghost predicate Ranked(s: seq<Sample>, rank: MethodInfo -> nat) {
    forall i, j :: 0 <= i < j < |s| ==> Above(s[i], s[j], rank)
  }

  ghost predicate Above(x: Sample, y: Sample, rank: MethodInfo -> nat) {
    x.time > y.time || (x.time == y.time && rank(x.m) < rank(y.m))
  }

  /** In the order of the methods' ranks. */
  ghost predicate InOrder(s: seq<Sample>, rank: MethodInfo -> nat) {
    forall i, j :: 0 <= i < j < |s| ==> rank(s[i].m) < rank(s[j].m)
  }

  /** The position of the first sample of a method. */
  function FirstCall(s: seq<Sample>, m: MethodInfo): nat {
    if s == [] || s[0].m == m then 0 else 1 + FirstCall(s[1..], m)
  }

  lemma {:induction false} SumSnoc(s: seq<Sample>, x: Sample, m: MethodInfo)
    ensures Sum(s + [x]) == Sum(s) + x.time
    ensures SumOf(s + [x], m) == SumOf(s, m) + if x.m == m then x.time else 0
  {
    if s != [] {
      assert (s + [x])[1..] == s[1..] + [x];
      SumSnoc(s[1..], x, m);
    }
  }

  lemma {:induction false} AddToSums(groups: seq<Sample>, x: Sample, m: MethodInfo)
    ensures Sum(AddTo(groups, x)) == Sum(groups) + x.time
    ensures SumOf(AddTo(groups, x), m) == SumOf(groups, m) + if x.m == m then x.time else 0
    ensures Listed(AddTo(groups, x), m) <==> Listed(groups, m) || x.m == m
  {
    if groups == [] {
      assert AddTo(groups, x)[0] == x;
    } else if groups[0].m == x.m {
      var added := AddTo(groups, x);
      assert added[0].m == groups[0].m && forall i :: 0 < i < |groups| ==> added[i] == groups[i];
    } else {
      AddToSums(groups[1..], x, m);
      ListedCons(groups[0], groups[1..], m);
      ListedCons(groups[0], AddTo(groups[1..], x), m);
      assert groups == [groups[0]] + groups[1..];
    }
  }

  lemma ListedCons(x: Sample, s: seq<Sample>, m: MethodInfo)
    ensures Listed([x] + s, m) <==> x.m == m || Listed(s, m)
  {
    if x.m == m {
      assert ([x] + s)[0].m == m;
    }
    if Listed(s, m) {
      var i :| 0 <= i < |s| && s[i].m == m;
      assert ([x] + s)[i + 1].m == m;
    }
  }

  lemma {:induction false} AddToDistinct(groups: seq<Sample>, x: Sample)
    requires DistinctMethods(groups)
    ensures DistinctMethods(AddTo(groups, x))
  {
    if groups != [] && groups[0].m != x.m {
      AddToDistinct(groups[1..], x);
      AddToSums(groups[1..], x, groups[0].m);
      assert !Listed(groups[1..], groups[0].m);
    }
  }

  lemma {:induction false} GroupSums(s: seq<Sample>, m: MethodInfo)
    ensures SumOf(GroupByMethod(s), m) == SumOf(s, m)
    ensures Listed(GroupByMethod(s), m) <==> Listed(s, m)
    decreases |s|
  {
    if s != [] {
      var before, x := s[..|s| - 1], s[|s| - 1];
      GroupSums(before, m);
      AddToSums(GroupByMethod(before), x, m);
      assert s == before + [x];
      SumSnoc(before, x, m);
      if Listed(s, m) && x.m != m {
        var i :| 0 <= i < |s| && s[i].m == m;
        assert before[i].m == m;
      }
    }
  }

  lemma {:induction false} GroupTotal(s: seq<Sample>)
    ensures DistinctMethods(GroupByMethod(s)) && Sum(GroupByMethod(s)) == Sum(s)
    decreases |s|
  {
    if s != [] {
      var before, x := s[..|s| - 1], s[|s| - 1];
      GroupTotal(before);
      AddToSums(GroupByMethod(before), x, x.m);
      AddToDistinct(GroupByMethod(before), x);
      assert s == before + [x];
      SumSnoc(before, x, x.m);
    }
  }

  lemma {:induction false} InsertSorts(x: Sample, s: seq<Sample>, rank: MethodInfo -> nat)
    requires Ranked(s, rank) && forall y :: y in s ==> rank(x.m) < rank(y.m)
    ensures Ranked(Insert(x, s), rank) && |Insert(x, s)| == |s| + 1
    ensures Sum(Insert(x, s)) == Sum(s) + x.time
    ensures forall y :: y in Insert(x, s) <==> y == x || y in s
  {
    if s == [] || x.time >= s[0].time {
      forall i | 0 <= i < |s| ensures Above(x, s[i], rank) {
        assert s[i] in s && (i > 0 ==> Above(s[0], s[i], rank));
      }
    } else {
      InsertSorts(x, s[1..], rank);
      var r := Insert(x, s[1..]);
      forall j | 0 <= j < |r|
        ensures Above(s[0], r[j], rank)
      {
        assert r[j] in r;
      }
    }
  }

  /** The sort is stable: samples with equal times stay in the order of the ranks. */
  lemma {:induction false} SortSorts(s: seq<Sample>, rank: MethodInfo -> nat)
    requires InOrder(s, rank)
    ensures var r := SortDescending(s);
            && Ranked(r, rank) && |r| == |s| && Sum(r) == Sum(s)
            && forall y :: y in r <==> y in s
  {
    if s != [] {
      SortSorts(s[1..], rank);
      InsertSorts(s[0], SortDescending(s[1..]), rank);
      assert s == [s[0]] + s[1..];
    }
  }

  lemma {:induction false} FirstSnoc(s: seq<Sample>, x: Sample, m: MethodInfo)
    ensures FirstCall(s, m) <= |s| && (FirstCall(s, m) < |s| <==> Listed(s, m))
    ensures FirstCall(s + [x], m) ==
              if Listed(s, m) then FirstCall(s, m) else |s| + if x.m == m then 0 else 1
  {
    if s != [] {
      assert (s + [x])[1..] == s[1..] + [x];
      FirstSnoc(s[1..], x, m);
      ListedCons(s[0], s[1..], m);
      assert s == [s[0]] + s[1..];
    }
  }

  /** Groups stay where they are, and a new one comes last. */
  lemma {:induction false} AddToKeeps(groups: seq<Sample>, x: Sample)
    ensures var r := AddTo(groups, x);
            && |groups| <= |r| <= |groups| + 1
            && (forall i :: 0 <= i < |groups| ==> r[i].m == groups[i].m)
            && (|r| > |groups| ==> !Listed(groups, x.m) && r[|groups|] == x)
  {
    if groups != [] && groups[0].m != x.m {
      AddToKeeps(groups[1..], x);
      assert groups == [groups[0]] + groups[1..];
      ListedCons(groups[0], groups[1..], x.m);
    }
  }

  /** The groups are in the order of their first calls. */
  lemma {:induction false} GroupsInOrder(s: seq<Sample>)
    ensures InOrder(GroupByMethod(s), m => FirstCall(s, m))
    decreases |s|
  {
    if s != [] {
      var before, x := s[..|s| - 1], s[|s| - 1];
      var groups, r := GroupByMethod(before), GroupByMethod(s);
      GroupsInOrder(before);
      AddToKeeps(groups, x);
      assert s == before + [x];
      forall i: nat | i < |r|
        ensures i < |groups| ==> FirstCall(s, r[i].m) == FirstCall(before, groups[i].m) < |before|
        ensures i == |groups| ==> FirstCall(s, r[i].m) == |before|
      {
        FirstSnoc(before, x, r[i].m);
        GroupSums(before, r[i].m);
      }
    }
  }

  lemma {:induction false} OwnSum(s: seq<Sample>, i: nat)
    requires DistinctMethods(s) && i < |s|
    ensures SumOf(s, s[i].m) == s[i].time
  {
    if i > 0 {
      OwnSum(s[1..], i - 1);
    } else {
      AbsentSum(s[1..], s[0].m);
    }
  }

  lemma {:induction false} AbsentSum(s: seq<Sample>, m: MethodInfo)
    requires forall i :: 0 <= i < |s| ==> s[i].m != m
    ensures SumOf(s, m) == 0
  {
    if s != [] {
      AbsentSum(s[1..], m);
    }
  }

  /** Where the time depends on the method alone, a ranked list has each method once. */
  lemma OnceEach(s: seq<Sample>, time: MethodInfo -> nat, rank: MethodInfo -> nat)
    requires Ranked(s, rank) && forall x :: x in s ==> x.time == time(x.m)
    ensures DistinctMethods(s)
  {
    forall i, j | 0 <= i < j < |s| ensures s[i].m != s[j].m {
      assert s[i] in s && s[j] in s;
    }
  }

  /**
   The report lists every profiled method once, with the sum of its times, in descending order and for equal
   sums in the order of the first calls, and the listed times add up to the time of the whole profile.
   */
  lemma ReportIsExact(profile: Tree)
    ensures var r, flat := Report(profile), Flatten(profile);
            && DistinctMethods(r) && Ranked(r, m => FirstCall(flat, m)) && Sum(r) == Sum(flat)
            && (forall g :: g in r ==> g.time == SumOf(flat, g.m) && Listed(flat, g.m))
            && (forall m :: Listed(flat, m) ==> Sample(m, SumOf(flat, m)) in r)
  {
    var flat := Flatten(profile);
    var groups := GroupByMethod(flat);
    GroupTotal(flat);
    forall m ensures SumOf(groups, m) == SumOf(flat, m) && (Listed(groups, m) <==> Listed(flat, m)) {
      GroupSums(flat, m);
    }
    GroupsInOrder(flat);
    SortSorts(groups, m => FirstCall(flat, m));
    forall g | g in Report(profile) ensures g.time == SumOf(flat, g.m) && Listed(flat, g.m) {
      var i :| 0 <= i < |groups| && groups[i] == g;
      OwnSum(groups, i);
    }
    OnceEach(Report(profile), m => SumOf(flat, m), m => FirstCall(flat, m));
    forall m | Listed(flat, m) ensures Sample(m, SumOf(flat, m)) in Report(profile) {
      var i :| 0 <= i < |groups| && groups[i].m == m;
      OwnSum(groups, i);
      assert groups[i] in groups;
    }
  }

  /** The ticks a body causes to pass inside the calls it makes, at any depth. */
  function TimeInCalls(b: Body): nat {
    match b
    case End(_) => 0
    case Work(_, rest) => TimeInCalls(rest)
    case Clear(rest) => TimeInCalls(rest)
    case Invoke(_, callee, _, rest) =>
      OwnTime(callee) + TimeInCalls(callee) + if Aborts(b) then 0 else TimeInCalls(rest)
  }

  lemma {:induction false} SumAppend(s: seq<Sample>, r: seq<Sample>)
    ensures Sum(s + r) == Sum(s) + Sum(r)
  {
    if s == [] {
      assert s + r == r;
    } else {
      assert (s + r)[1..] == s[1..] + r;
      SumAppend(s[1..], r);
    }
  }

  lemma {:induction false} ForestTime(b: Body)
    ensures Sum(FlattenAll(CallForest(b))) == TimeInCalls(b)
  {
    match b
    case End(_) =>
    case Work(_, rest) => ForestTime(rest);
    case Clear(rest) => ForestTime(rest);
    case Invoke(m, callee, _, rest) =>
      ForestTime(callee);
      var tree := Tree(Some(m), OwnTime(callee), CallForest(callee));
      var others := if Aborts(b) then [] else CallForest(rest);
      if !Aborts(b) {
        ForestTime(rest);
      }
      assert CallForest(b)[1..] == others;
      SumAppend(Flatten(tree), FlattenAll(others));
      SumAppend([Sample(m, OwnTime(callee))], FlattenAll(CallForest(callee)));
  }

  /**
   The report of a new profiler that watched `b`, cleared between calls or not at all, accounts for exactly
   the ticks inside calls since it was cleared.
   */
  lemma ReportedTime(b: Body)
    requires !ClearsInCalls(b)
    ensures var r := Execute(At(Fresh()), b);
            && r.cursor.At? && r.cursor.a.cur == 0
            && Sum(Report(TreeAt(r.cursor.a, 0))) == TimeInCalls(LastPart(b))
            && Flatten(TreeAt(r.cursor.a, 0)) == FlattenAll(CallForest(LastPart(b)))
  {
    ShownSinceClear(b);
    var part := LastPart(b);
    hide Execute, LastPart, TreeAt;
    RootFlatten(CallForest(part));
    ReportIsExact(Tree(None, 0, CallForest(part)));
    ForestTime(part);
  }

  lemma RootFlatten(ts: seq<Tree>)
    ensures Flatten(Tree(None, 0, ts)) == FlattenAll(ts)
  {
  }
}
