/** The parameter check of SolrNet.Tests/MockConnection.cs, and what it can and cannot tell. */
module MockConnections {
  import opened Options

  datatype KeyValue = KeyValue(key: string, value: string)

  /** `NoExpectations` is the failure of a connection built without expectations. */
  datatype Reply = Response | NoExpectations | WrongCount | Unexpected(p: KeyValue)

  predicate Accepts(expectations: seq<KeyValue>, param: seq<KeyValue>) {
    |expectations| == |param| && forall p :: p in param ==> p in expectations
  }

  class MockConnection {
    const expectations: Option<seq<KeyValue>>

    constructor (expectations: Option<seq<KeyValue>>)
      ensures this.expectations == expectations
    {
      this.expectations := expectations;
    }

    /** Counts, then looks for each parameter in turn and stops at the first that is not expected. */
    method Get(parameters: seq<KeyValue>) returns (r: Reply)
      ensures r.NoExpectations? <==> expectations.None?
      ensures r.Response? <==> expectations.Some? && |expectations.value| == |parameters|
                               && forall p :: p in parameters ==> p in expectations.value
      ensures r.Response? <==> expectations.Some? && Accepts(expectations.value, parameters)
      ensures r.WrongCount? <==> expectations.Some? && |expectations.value| != |parameters|
      ensures r.Unexpected? ==> r.p in parameters && r.p !in expectations.value
    {
      if expectations.None? {
        return NoExpectations;
      }
      var param := parameters;
      if |expectations.value| != |param| {
        return WrongCount;
      }
      for i := 0 to |param|
        invariant forall j :: 0 <= j < i ==> param[j] in expectations.value
      {
        if param[i] !in expectations.value {
          return Unexpected(param[i]);
        }
      }
      return Response;
    }
  }

  ghost predicate NoRepeats(s: seq<KeyValue>) {
    forall i, j :: 0 <= i < j < |s| ==> s[i] != s[j]
  }

  lemma {:induction false} OnceEach(s: seq<KeyValue>, p: KeyValue)
    requires NoRepeats(s)
    ensures multiset(s)[p] <= 1
  {
    if s != [] {
      var k := |s| - 1;
      assert s == s[..k] + [s[k]];
      OnceEach(s[..k], p);
      assert s[k] !in s[..k];
    }
  }

  /** Pigeonhole: distinct parameters that are all expected, and as many as are expected, are all of them. */
  lemma AcceptedIsPermutation(expectations: seq<KeyValue>, param: seq<KeyValue>)
    requires NoRepeats(param) && Accepts(expectations, param)
    ensures multiset(param) == multiset(expectations)
  {
    forall p | p in multiset(param) ensures multiset(param)[p] <= multiset(expectations)[p] {
      OnceEach(param, p);
      assert p in expectations;
    }
    assert multiset(param) <= multiset(expectations);
    assert |multiset(expectations) - multiset(param)| == 0;
  }

  function LongestKey(s: seq<KeyValue>): nat {
    if s == [] then 0 else
    var n := LongestKey(s[1..]);
    if |s[0].key| > n then |s[0].key| else n
  }

  lemma {:induction false} KeysAreShorter(s: seq<KeyValue>, p: KeyValue)
    requires p in s
    ensures |p.key| <= LongestKey(s)
  {
    if p != s[0] {
      KeysAreShorter(s[1..], p);
    }
  }

  /** With a repeated parameter, some expectations are met in count and membership but are not the same list. */
  lemma RepeatsFoolTheCheck(param: seq<KeyValue>) returns (expectations: seq<KeyValue>)
    requires !NoRepeats(param)
    ensures Accepts(expectations, param) && multiset(expectations) != multiset(param)
  {
    var i, j :| 0 <= i < j < |param| && param[i] == param[j];
    var other := KeyValue(seq(LongestKey(param) + 1, _ => 'x'), "");
    if other in param {
      KeysAreShorter(param, other);
    }
    expectations := param[i := other];
    forall p | p in param ensures p in expectations {
      var k :| 0 <= k < |param| && param[k] == p;
      assert expectations[if k == i then j else k] == p;
    }
    assert other in multiset(expectations);
    assert expectations[i] == other;
  }

  /**
   The check accepts every permutation of the expectations; and it accepts nothing else, whatever is
   expected, exactly when no actual parameter is repeated.
   */
  lemma CheckIsPermutation(param: seq<KeyValue>)
    ensures forall expectations :: multiset(param) == multiset(expectations) ==> Accepts(expectations, param)
    ensures (forall expectations :: Accepts(expectations, param) ==> multiset(param) == multiset(expectations))
            <==> NoRepeats(param)
  {
    forall expectations: seq<KeyValue> | multiset(param) == multiset(expectations)
      ensures Accepts(expectations, param)
    {
      assert |multiset(param)| == |multiset(expectations)|;
      forall p | p in param ensures p in expectations {
        assert p in multiset(param);
      }
    }
    if NoRepeats(param) {
      forall expectations | Accepts(expectations, param) ensures multiset(param) == multiset(expectations) {
        AcceptedIsPermutation(expectations, param);
      }
    } else {
      var expectations := RepeatsFoolTheCheck(param);
    }
  }
}
