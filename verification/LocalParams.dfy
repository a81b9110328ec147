/**
 The local-params printer of SolrNet/LocalParams.cs and a reader for the syntax that its documentation
 refers to: `{!`, then `key=value` pairs separated by white space, then `}` and the query. A value may be
 quoted with ' or ", where a backslash escapes the next character; otherwise it ends at white space or `}`.
 A key without `=` is the value of the key `type`.
 */
module LocalParams {
  import opened Options

  datatype Param = Param(key: string, value: Option<string>)

  datatype Pair = Pair(key: string, value: string)

  // ----- Printing -----

  function Escape(v: string): string {
    if v == "" then "" else (if v[0] == '\'' then "\\'" else [v[0]]) + Escape(v[1..])
  }

  function Quote(v: string): string {
    if ' ' !in v then v else "'" + Escape(v) + "'"
  }

  function PrintPair(p: Pair): string {
    p.key + "=" + Quote(p.value)
  }

  function Join(ps: seq<Pair>): string
    requires ps != []
  {
    if |ps| == 1 then PrintPair(ps[0]) else PrintPair(ps[0]) + " " + Join(ps[1..])
  }

  function Print(ps: seq<Pair>): string {
    if ps == [] then "" else "{!" + Join(ps) + "}"
  }

  predicate HasNull(ps: seq<Param>) {
    exists i :: 0 <= i < |ps| && ps[i].value.None?
  }

  function Pairs(ps: seq<Param>): seq<Pair>
    requires !HasNull(ps)
  {
    seq(|ps|, i requires 0 <= i < |ps| => Pair(ps[i].key, ps[i].value.value))
  }

  lemma {:induction false} EscapeAppend(x: string, y: string)
    ensures Escape(x + y) == Escape(x) + Escape(y)
  {
    if x == "" {
      assert x + y == y;
    } else {
      assert (x + y)[1..] == x[1..] + y;
      EscapeAppend(x[1..], y);
    }
  }

  predicate NoQuotes(x: string) {
    '\'' !in x
  }

  lemma {:induction false} EscapePlain(x: string)
    requires NoQuotes(x)
    ensures Escape(x) == x
  {
    if x != "" {
      EscapePlain(x[1..]);
    }
  }

  /**
   How values are printed, to the letter: as they are without a space, and with one between single quotes,
   where a backslash is put before every single quote and nothing else is changed.
   */
  lemma QuotedForms(v: string, x: string, y: string)
    requires NoQuotes(x)
    ensures ' ' !in v ==> Quote(v) == v
    ensures ' ' in v ==> Quote(v) == "'" + Escape(v) + "'"
    ensures ' ' in x ==> Quote(x) == "'" + x + "'"
    ensures Escape(x + ("'" + y)) == x + ("\\'" + Escape(y))
  {
    EscapePlain(x);
    EscapeAppend(x, "'" + y);
    assert ("'" + y)[1..] == y;
  }

  /** The whole text, to the letter: the pairs with an equals sign each and one space between them. */
  lemma PrintedForms(p: Pair, ps: seq<Pair>)
    ensures Print([]) == ""
    ensures Print([p]) == "{!" + (p.key + "=" + Quote(p.value)) + "}"
    ensures ps != [] ==> Print(ps + [p]) == Print(ps)[..|Print(ps)| - 1] + " " + (p.key + "=" + Quote(p.value)) + "}"
  {
    hide Quote;
    if ps != [] {
      JoinSnoc(ps, p);
      LongerText(Join(ps), PrintPair(p), Join(ps + [p]));
    }
  }

  lemma LongerText(x: string, y: string, z: string)
    requires z == x + " " + y
    ensures "{!" + z + "}" == ("{!" + x + "}")[..|"{!" + x + "}"| - 1] + " " + y + "}"
  {
    assert ("{!" + x + "}")[..|"{!" + x + "}"| - 1] == "{!" + x;
  }

  // ----- Reading -----

  predicate White(c: char) {
    c == ' ' || c == '\t' || c == '\n' || c == '\r'
  }

  predicate EndsKey(c: char) {
    c == '=' || c == '}' || White(c)
  }

  predicate EndsValue(c: char) {
    c == '}' || White(c)
  }

  /** The length of the longest prefix without an end character. */
  function Span(s: string, ends: char -> bool): (n: nat)
    ensures n <= |s|
  {
    if s == "" || ends(s[0]) then 0 else 1 + Span(s[1..], ends)
  }

  datatype Read<+V> = Read(value: V, rest: string)

  function ReadQuoted(q: char, s: string): Option<Read<string>> {
    if s == "" then None
    else if s[0] == q then Some(Read("", s[1..]))
    else if s[0] == '\\' then
      if |s| == 1 then None else Prepend(s[1], ReadQuoted(q, s[2..]))
    else Prepend(s[0], ReadQuoted(q, s[1..]))
  }

  function Prepend(c: char, r: Option<Read<string>>): Option<Read<string>> {
    if r.None? then None else Some(Read([c] + r.value.value, r.value.rest))
  }

  function ReadValue(s: string): Option<Read<string>> {
    if s != "" && (s[0] == '\'' || s[0] == '"') then ReadQuoted(s[0], s[1..])
    else var n := Span(s, EndsValue); Some(Read(s[..n], s[n..]))
  }

  function ReadPair(s: string): Option<Read<Pair>> {
    var n := Span(s, EndsKey);
    if n == 0 then None
    else if n == |s| || s[n] != '=' then Some(Read(Pair("type", s[..n]), s[n..]))
    else
      var v := ReadValue(s[n + 1..]);
      if v.None? then None else Some(Read(Pair(s[..n], v.value.value), v.value.rest))
  }

  lemma {:induction false} QuotedConsumes(q: char, s: string)
    ensures var r := ReadQuoted(q, s); r.Some? ==> |r.value.rest| < |s|
    decreases |s|
  {
    if s != "" && s[0] != q {
      if s[0] == '\\' {
        if |s| > 1 {
          QuotedConsumes(q, s[2..]);
        }
      } else {
        QuotedConsumes(q, s[1..]);
      }
    }
  }

  lemma PairConsumes(s: string)
    ensures var r := ReadPair(s); r.Some? ==> |r.value.rest| < |s|
  {
    var n := Span(s, EndsKey);
    if n > 0 && n < |s| && s[n] == '=' {
      var t := s[n + 1..];
      if t != "" {
        QuotedConsumes(t[0], t[1..]);
      }
    }
  }

  function ReadPairs(s: string): Option<Read<seq<Pair>>>
    decreases |s|
  {
    if s == "" then None
    else if s[0] == '}' then Some(Read([], s[1..]))
    else if White(s[0]) then ReadPairs(s[1..])
    else
      PairConsumes(s);
      var p := ReadPair(s);
      if p.None? then None else
      var more := ReadPairs(p.value.rest);
      if more.None? then None else Some(Read([p.value.value] + more.value.value, more.value.rest))
  }

  /** The local params and the query of a query string. */
  function ReadQuery(s: string): Option<Read<seq<Pair>>> {
    if "{!" <= s then ReadPairs(s[2..]) else Some(Read([], s))
  }

  // ----- What can be read back -----

  predicate SafeKey(k: string) {
    k != "" && forall i :: 0 <= i < |k| ==> !EndsKey(k[i])
  }

  predicate SafeValue(v: string) {
    if ' ' in v then '\\' !in v
    else (v != "" ==> v[0] != '\'' && v[0] != '"') && forall i :: 0 <= i < |v| ==> !EndsValue(v[i])
  }

  predicate Safe(p: Pair) {
    SafeKey(p.key) && SafeValue(p.value)
  }

  /** A key or an unquoted value ends exactly where an end character follows it. */
  lemma {:induction false} SpanOf(x: string, rest: string, ends: char -> bool)
    requires forall i :: 0 <= i < |x| ==> !ends(x[i])
    requires rest != "" && ends(rest[0])
    ensures Span(x + rest, ends) == |x|
  {
    if x == "" {
      assert x + rest == rest;
    } else {
      assert (x + rest)[1..] == x[1..] + rest;
      SpanOf(x[1..], rest, ends);
    }
  }

  lemma {:induction false} SpanStops(s: string, i: nat, ends: char -> bool)
    requires i < |s| && ends(s[i])
    ensures Span(s, ends) <= i
  {
    if !ends(s[0]) {
      SpanStops(s[1..], i - 1, ends);
    }
  }

  lemma {:induction false} SpanHasNoEnd(s: string, ends: char -> bool)
    ensures forall i :: 0 <= i < Span(s, ends) ==> !ends(s[i])
  {
    if s != "" && !ends(s[0]) {
      SpanHasNoEnd(s[1..], ends);
    }
  }

  /** A quoted character that is not a backslash reads back as itself. */
  lemma QuotedFirst(v: string, rest: string)
    requires v != "" && v[0] != '\\'
    ensures ReadQuoted('\'', Escape(v) + "'" + rest)
         == Prepend(v[0], ReadQuoted('\'', Escape(v[1..]) + "'" + rest))
  {
    var s, tail := Escape(v) + "'" + rest, Escape(v[1..]) + "'" + rest;
    if v[0] == '\'' {
      assert s == "\\'" + tail;
    } else {
      assert s == [v[0]] + tail;
    }
  }

  /** Quoted text without backslashes reads back. */
  lemma {:induction false} QuotedReadsBack(v: string, rest: string)
    requires '\\' !in v
    ensures ReadQuoted('\'', Escape(v) + "'" + rest) == Some(Read(v, rest))
  {
    if v == "" {
      assert ("'" + rest)[1..] == rest && Escape("") + "'" + rest == "'" + rest;
    } else {
      hide ReadQuoted, Escape;
      QuotedReadsBack(v[1..], rest);
      QuotedFirst(v, rest);
      assert v == [v[0]] + v[1..];
    }
  }

  function Slashes(n: nat): string {
    if n == 0 then "" else "\\" + Slashes(n - 1)
  }

  lemma {:induction false} SlashesMove(n: nat, x: string)
    ensures Slashes(n) + ("\\" + x) == "\\" + (Slashes(n) + x)
  {
    if n > 0 {
      SlashesMove(n - 1, x);
      assert Slashes(n) + ("\\" + x) == "\\" + (Slashes(n - 1) + ("\\" + x));
      assert Slashes(n) + x == "\\" + (Slashes(n - 1) + x);
    }
  }

  lemma PrependDiffers(c: char, r: Option<Read<string>>, t: string)
    requires r.None? || r.value.value != t
    ensures Prepend(c, r).None? || Prepend(c, r).value.value != [c] + t
  {
    if r.Some? {
      assert ([c] + r.value.value)[1..] == r.value.value && ([c] + t)[1..] == t;
    }
  }

  /**
   Quoted text never reads back from its first backslash on: the reader falls behind, because it takes two
   backslashes for one, or loses a quote.
   */
  lemma {:induction false} BackslashNeverReadsBack(x: string, lag: nat, rest: string)
    requires lag > 0 || (x != "" && x[0] == '\\')
    ensures var r := ReadQuoted('\'', Escape(x) + "'" + rest);
            r.None? || r.value.value != Slashes(lag) + x
    decreases |x|
  {
    var s := Escape(x) + "'" + rest;
    if |x| >= 2 && x[0] == '\\' && x[1] == '\\' {
      var y := x[2..];
      assert Escape(x) == ['\\'] + Escape(x[1..]) && Escape(x[1..]) == ['\\'] + Escape(x[1..][1..]);
      assert x[1..][1..] == y;
      assert s == ['\\', '\\'] + (Escape(y) + "'" + rest);
      BackslashNeverReadsBack(y, lag + 1, rest);
      TwoSlashes(x, lag);
      PrependDiffers('\\', ReadQuoted('\'', s[2..]), Slashes(lag + 1) + y);
    } else {
      FirstDiffers(x, lag, rest);
    }
  }

  lemma TwoSlashes(x: string, lag: nat)
    requires |x| >= 2 && x[0] == '\\' && x[1] == '\\'
    ensures Slashes(lag) + x == ['\\'] + (Slashes(lag + 1) + x[2..])
  {
    var y := x[2..];
    assert x == "\\" + ("\\" + y);
    SlashesMove(lag, "\\" + y);
    SlashesMove(lag, y);
    assert Slashes(lag + 1) + y == "\\" + (Slashes(lag) + y);
  }

  /** Unless two backslashes follow each other, the very next characters differ. */
  lemma FirstDiffers(x: string, lag: nat, rest: string)
    requires lag > 0 || (x != "" && x[0] == '\\')
    requires |x| >= 2 && x[0] == '\\' ==> x[1] != '\\'
    ensures var r := ReadQuoted('\'', Escape(x) + "'" + rest);
            r.None? || r.value.value != Slashes(lag) + x
  {
    var s := Escape(x) + "'" + rest;
    assert (Slashes(lag) + x)[0] == '\\';
    if x != "" && x[0] == '\\' {
      if |x| >= 2 && x[1] == '\'' {
        assert s[0] == '\\' && s[1] == '\\' && s[2] == '\'';
      } else {
        assert s[0] == '\\' && s[1] != '\\';
      }
    }
  }

  lemma {:induction false} BackslashBreaks(v: string, rest: string)
    requires '\\' in v
    ensures var r := ReadQuoted('\'', Escape(v) + "'" + rest); r.None? || r.value.value != v
  {
    if v[0] == '\\' {
      BackslashNeverReadsBack(v, 0, rest);
    } else {
      hide ReadQuoted, Escape;
      BackslashBreaks(v[1..], rest);
      QuotedFirst(v, rest);
      PrependDiffers(v[0], ReadQuoted('\'', Escape(v[1..]) + "'" + rest), v[1..]);
      assert v == [v[0]] + v[1..];
    }
  }

  /** The characters of which an unquoted value would have to consist to survive a leading quote. */
  predicate QuoteOrSlash(q: char, c: char) {
    c == q || c == '\\'
  }

  /**
   An unquoted value that begins with a quote never reads back: each of its characters would have to be
   escaped, so the text would need twice as many characters as it has before the value ends.
   */
  lemma {:induction false} LeadingQuoteBreaks(q: char, t: string, n: nat, i: nat)
    requires i < n < |t| && 2 * i < n && q != '\\'
    requires forall k :: 0 <= k <= 2 * i ==> QuoteOrSlash(q, t[k])
    requires !QuoteOrSlash(q, t[n])
    ensures var r := ReadQuoted(q, t[2 * i + 1..]); r.None? || r.value.value != t[i..n]
    decreases n - i
  {
    var s := t[2 * i + 1..];
    assert t[i..n][0] == t[i] && QuoteOrSlash(q, t[i]);
    if s != "" && s[0] == '\\' && |s| > 1 && s[1] == t[i] {
      assert s[0] == t[2 * i + 1] && s[1] == t[2 * i + 2];
      assert s[2..] == t[2 * (i + 1) + 1..];
      LeadingQuoteBreaks(q, t, n, i + 1);
      PrependDiffers(t[i], ReadQuoted(q, s[2..]), t[i + 1..n]);
      assert t[i..n] == [t[i]] + t[i + 1..n];
    }
  }

  lemma QuotedValue(v: string, rest: string)
    requires ' ' in v
    ensures var r := ReadValue(Quote(v) + rest);
            if SafeValue(v) then r == Some(Read(v, rest)) else r.None? || r.value.value != v
  {
    assert (Quote(v) + rest)[1..] == Escape(v) + "'" + rest;
    if '\\' in v {
      BackslashBreaks(v, rest);
    } else {
      QuotedReadsBack(v, rest);
    }
  }

  lemma PlainValue(v: string, rest: string)
    requires v != "" ==> v[0] != '\'' && v[0] != '"'
    requires rest != "" && EndsValue(rest[0])
    ensures var n := Span(v + rest, EndsValue);
            if exists i :: 0 <= i < |v| && EndsValue(v[i]) then n < |v| else n == |v|
  {
    if i :| 0 <= i < |v| && EndsValue(v[i]) {
      SpanStops(v + rest, i, EndsValue);
    } else {
      SpanOf(v, rest, EndsValue);
    }
  }

  /** A value reads back, up to the separator that follows it, exactly when it is safe. */
  lemma ValueReadsBack(v: string, rest: string)
    requires rest != "" && EndsValue(rest[0])
    ensures var r := ReadValue(Quote(v) + rest);
            if SafeValue(v) then r == Some(Read(v, rest)) else r.None? || r.value.value != v
  {
    if ' ' in v {
      QuotedValue(v, rest);
    } else if v != "" && (v[0] == '\'' || v[0] == '"') {
      LeadingQuoteBreaks(v[0], v + rest, |v|, 0);
      assert (v + rest)[0..|v|] == v;
    } else {
      PlainValue(v, rest);
      var n := Span(v + rest, EndsValue);
      assert n == |v| ==> (v + rest)[..n] == v && (v + rest)[n..] == rest;
    }
  }

  lemma PairReadsBack(p: Pair, rest: string)
    requires SafeKey(p.key) && rest != "" && EndsValue(rest[0])
    ensures var r := ReadPair(PrintPair(p) + rest);
            if Safe(p) then r == Some(Read(p, rest)) else r.None? || r.value.value != p
  {
    hide Quote, SafeValue, ReadValue, Span;
    var t, more := PrintPair(p) + rest, "=" + (Quote(p.value) + rest);
    assert t == p.key + more;
    SpanOf(p.key, more, EndsKey);
    ValueReadsBack(p.value, rest);
    assert t[..|p.key|] == p.key && t[|p.key| + 1..] == Quote(p.value) + rest;
  }

  /** Whatever is read, its keys are safe. */
  lemma {:induction false} KeysReadAreSafe(s: string)
    ensures var r := ReadPairs(s); r.Some? ==> forall p :: p in r.value.value ==> SafeKey(p.key)
    decreases |s|
  {
    if s != "" && s[0] != '}' {
      if White(s[0]) {
        KeysReadAreSafe(s[1..]);
      } else {
        SpanHasNoEnd(s, EndsKey);
        PairConsumes(s);
        var p := ReadPair(s);
        if p.Some? {
          KeysReadAreSafe(p.value.rest);
        }
      }
    }
  }

  lemma {:induction false} JoinReadsBack(ps: seq<Pair>, suffix: string)
    requires ps != [] && forall i :: 0 <= i < |ps| ==> SafeKey(ps[i].key)
    ensures var r := ReadPairs(Join(ps) + "}" + suffix);
            r == Some(Read(ps, suffix)) <==> forall i :: 0 <= i < |ps| ==> Safe(ps[i])
    decreases |ps|
  {
    hide SafeValue, ReadPair, Quote;
    var tail := if |ps| == 1 then "}" + suffix else Join(ps[1..]) + "}" + suffix;
    var rest := if |ps| == 1 then tail else " " + tail;
    var s := Join(ps) + "}" + suffix;
    assert s == PrintPair(ps[0]) + rest;
    PairReadsBack(ps[0], rest);
    assert s[0] == ps[0].key[0];
    if |ps| == 1 {
      assert rest[1..] == suffix;
      assert ReadPairs(rest) == Some(Read([], suffix));
    } else {
      assert rest[1..] == tail;
      assert ReadPairs(rest) == ReadPairs(tail);
      JoinReadsBack(ps[1..], suffix);
    }
    FirstThenRest(s, ps, rest, suffix);
  }

  lemma FirstThenRest(s: string, ps: seq<Pair>, rest: string, suffix: string)
    requires ps != [] && s != "" && s[0] != '}' && !White(s[0])
    requires var r := ReadPair(s);
             if Safe(ps[0]) then r == Some(Read(ps[0], rest)) else r.None? || r.value.value != ps[0]
    requires ReadPairs(rest) == Some(Read(ps[1..], suffix)) <==> forall i :: 1 <= i < |ps| ==> Safe(ps[i])
    ensures ReadPairs(s) == Some(Read(ps, suffix)) <==> forall i :: 0 <= i < |ps| ==> Safe(ps[i])
  {
    assert ps == [ps[0]] + ps[1..];
  }

  /**
   The printed params, followed by any query text, read back as the same params and the same text exactly
   when every key and value is safe; the query text makes no difference.
   */
  lemma RoundTrip(ps: seq<Pair>, query: string)
    requires ps != []
    ensures ReadQuery(Print(ps) + query) == Some(Read(ps, query)) <==> forall p :: p in ps ==> Safe(p)
  {
    hide ReadPairs, Join, SafeKey, SafeValue;
    var s := Print(ps) + query;
    assert s[2..] == Join(ps) + "}" + query;
    KeysReadAreSafe(s[2..]);
    if forall p :: p in ps ==> SafeKey(p.key) {
      JoinReadsBack(ps, query);
    }
  }

  lemma {:induction false} PairsConsume(s: string)
    ensures var r := ReadPairs(s); r.Some? ==> |r.value.rest| < |s|
    decreases |s|
  {
    if s != "" && s[0] != '}' {
      if White(s[0]) {
        PairsConsume(s[1..]);
      } else {
        PairConsumes(s);
        var p := ReadPair(s);
        if p.Some? {
          PairsConsume(p.value.rest);
        }
      }
    }
  }

  /** Without params nothing is printed, and the query is read as such unless it begins like params. */
  lemma RoundTripEmpty(query: string)
    ensures ReadQuery(Print([]) + query) == Some(Read([], query)) <==> !("{!" <= query)
  {
    assert Print([]) + query == query;
    if "{!" <= query {
      PairsConsume(query[2..]);
    }
  }

  /** On safe params, what is printed in front of a query determines both. */
  lemma PrintIsInjective(ps: seq<Pair>, query: string, qs: seq<Pair>, query': string)
    requires ps != [] && qs != []
    requires (forall p :: p in ps ==> Safe(p)) && (forall q :: q in qs ==> Safe(q))
    requires Print(ps) + query == Print(qs) + query'
    ensures ps == qs && query == query'
  {
    RoundTrip(ps, query);
    RoundTrip(qs, query');
  }

  lemma {:induction false} JoinSnoc(ps: seq<Pair>, p: Pair)
    requires ps != []
    ensures Join(ps + [p]) == Join(ps) + " " + PrintPair(p)
  {
    assert (ps + [p])[1..] == ps[1..] + [p];
    if |ps| > 1 {
      JoinSnoc(ps[1..], p);
    } else {
      assert (ps + [p])[1..] == [p];
    }
  }

  /** The text of the first `i` params. */
  function Begun(ps: seq<Param>, i: nat): string
    requires i <= |ps| && !HasNull(ps[..i])
  {
    if i == 0 then "{!" else "{!" + Join(Pairs(ps[..i]))
  }

  lemma NextParam(ps: seq<Param>, i: nat)
    requires i < |ps| && !HasNull(ps[..i]) && ps[i].value.Some?
    ensures !HasNull(ps[..i + 1])
    ensures Begun(ps, i + 1)
         == Begun(ps, i) + (if i == 0 then "" else " ") + PrintPair(Pair(ps[i].key, ps[i].value.value))
  {
    var next := Pair(ps[i].key, ps[i].value.value);
    assert Pairs(ps[..i + 1]) == Pairs(ps[..i]) + [next];
    if i > 0 {
      JoinSnoc(Pairs(ps[..i]), next);
    }
  }

  /**
   ToString fails exactly when a value is null. Otherwise, whatever query text the result is put in front
   of, a reader finds the params of the dictionary and that text exactly when the params are safe.
   */
  method ToString(ps: seq<Param>) returns (r: Option<string>)
    ensures r.None? <==> HasNull(ps)
    ensures r.Some? && ps == [] ==> r.value == ""
    ensures r.Some? ==> r.value == Print(Pairs(ps))
    ensures r.Some? && ps != [] ==>
              forall query :: ReadQuery(r.value + query) == Some(Read(Pairs(ps), query))
                         <==> forall p :: p in Pairs(ps) ==> Safe(p)
  {
    hide Join, Quote, Safe, ReadQuery;
    if |ps| == 0 {
      return Some("");
    }
    var sb := "{!";
    for i := 0 to |ps|
      invariant !HasNull(ps[..i]) && sb == Begun(ps, i)
    {
      if ps[i].value.None? {
        return None;
      }
      NextParam(ps, i);
      if i > 0 {
        sb := sb + " ";
      }
      sb := sb + (ps[i].key + "=" + Quote(ps[i].value.value));
    }
    sb := sb + "}";
    assert ps[..|ps|] == ps;
    forall query ensures ReadQuery(sb + query) == Some(Read(Pairs(ps), query))
                    <==> forall p :: p in Pairs(ps) ==> Safe(p) {
      RoundTrip(Pairs(ps), query);
    }
    r := Some(sb);
  }
}
