/** The sort order of SolrNet/SortOrder.cs: its printed form and its parser. */
module SortOrders {
  import opened Options

  /** An enumeration on 32-bit integers; values without a name are possible too. */
  type Order = o: int | -0x8000_0000 <= o < 0x8000_0000

  const ASC: Order := 0
  const DESC: Order := 1

  datatype SortOrder = SortOrder(field: string, order: Order)

  datatype Parsed = Null | Parsed(o: SortOrder) | Invalid

  /** What Trim removes and \s matches: the control characters for layout and the Unicode separators. */
  predicate White(c: char) {
    || '\t' <= c <= '\r' || c == ' ' || c == '\U{85}' || c == '\U{A0}' || c == '\U{1680}' || c == '\U{180E}'
    || '\U{2000}' <= c <= '\U{200A}' || c == '\U{2028}' || c == '\U{2029}' || c == '\U{202F}'
    || c == '\U{205F}' || c == '\U{3000}'
  }

  /** They are, one by one, with U+0085 and the separators of Unicode. */
  lemma WhiteCharacters(c: char)
    ensures var all :=
      "\U{09}\U{0A}\U{0B}\U{0C}\U{0D}\U{20}\U{85}\U{A0}\U{1680}\U{180E}" +
      "\U{2000}\U{2001}\U{2002}\U{2003}\U{2004}\U{2005}\U{2006}\U{2007}\U{2008}\U{2009}\U{200A}" +
      "\U{2028}\U{2029}\U{202F}\U{205F}\U{3000}";
            White(c) <==> c in all
  {
  }

  ghost predicate Blank(s: string) {
    forall i :: 0 <= i < |s| ==> White(s[i])
  }

  predicate NoWhite(s: string) {
    forall i :: 0 <= i < |s| ==> !White(s[i])
  }

  /** A value without a name prints as a number. */
  function Lower(o: Order): string {
    if o == ASC then "asc" else if o == DESC then "desc" else Decimal(o)
  }

  function Decimal(i: int): string {
    if i < 0 then "-" + Digits(-i) else Digits(i)
  }

  function Digits(n: nat): string {
    if n < 10 then ['0' + n as char] else Digits(n / 10) + ['0' + (n % 10) as char]
  }

  function Print(o: SortOrder): string {
    o.field + " " + Lower(o.order)
  }

  // ----- Parsing -----

  function TrimStart(s: string): string {
    if s != "" && White(s[0]) then TrimStart(s[1..]) else s
  }

  function TrimEnd(s: string): string {
    if s != "" && White(s[|s| - 1]) then TrimEnd(s[..|s| - 1]) else s
  }

  function Run(s: string): (n: nat)
    ensures n <= |s|
    ensures forall i :: 0 <= i < n ==> !White(s[i])
    ensures n < |s| ==> White(s[n])
  {
    if s == "" || White(s[0]) then 0 else 1 + Run(s[1..])
  }

  lemma {:induction false} TrimStartShrinks(s: string)
    ensures |TrimStart(s)| <= |s|
    ensures TrimStart(s) != "" ==> !White(TrimStart(s)[0]) && TrimStart(s) == s[|s| - |TrimStart(s)|..]
    ensures s != "" && White(s[0]) ==> |TrimStart(s)| < |s|
  {
    if s != "" && White(s[0]) {
      TrimStartShrinks(s[1..]);
    }
  }

  /** Splitting at every run of white space; a leading or trailing run leaves an empty piece. */
  function Split(s: string): (pieces: seq<string>)
    ensures pieces != []
    decreases |s|
  {
    var n := Run(s);
    if n == |s| then [s] else
    TrimStartShrinks(s[n..]);
    [s[..n]] + Split(TrimStart(s[n..]))
  }

  function UpperChar(c: char): char {
    if 'a' <= c <= 'z' then c - 'a' + 'A' else c
  }

  function Upper(s: string): string {
    seq(|s|, i requires 0 <= i < |s| => UpperChar(s[i]))
  }

  predicate AllDigits(s: string) {
    s != "" && forall i :: 0 <= i < |s| ==> '0' <= s[i] <= '9'
  }

  function ValueOf(digits: string): nat
    requires forall i :: 0 <= i < |digits| ==> '0' <= digits[i] <= '9'
  {
    if digits == "" then 0
    else 10 * ValueOf(digits[..|digits| - 1]) + (digits[|digits| - 1] - '0') as nat
  }

  /** A number of the form that a 32-bit integer is parsed from. */
  function Number(s: string): Option<int> {
    if s != "" && (s[0] == '-' || s[0] == '+') then
      if !AllDigits(s[1..]) then None else
      var v: int := ValueOf(s[1..]); Some(if s[0] == '-' then -v else v)
    else if AllDigits(s) then Some(ValueOf(s))
    else None
  }

  function SplitCommas(s: string): (pieces: seq<string>)
    ensures pieces != []
  {
    if s == "" then [""] else
    var rest := SplitCommas(s[1..]);
    if s[0] == ',' then [""] + rest else [[s[0]] + rest[0]] + rest[1..]
  }

  /** Enum.Parse: a number in range, or names separated by commas, whose values are combined bit by bit. */
  function OrderOf(token: string): Option<Order> {
    var u := Upper(token);
    var number := Number(u);
    if number.Some? then
      if -0x8000_0000 <= number.value < 0x8000_0000 then Some(number.value) else None
    else
      var names := SplitCommas(u);
      if exists i :: 0 <= i < |names| && names[i] != "ASC" && names[i] != "DESC" then None
      else Some(if "DESC" in names then DESC else ASC)
  }

  function Parse(s: Option<string>): Parsed {
    if s.None? || s.value == "" then Null else
    var tokens := Split(TrimEnd(TrimStart(s.value)));
    if |tokens| > 1 then
      if OrderOf(tokens[1]).None? then Invalid else Parsed(SortOrder(tokens[0], OrderOf(tokens[1]).value))
    else Parsed(SortOrder(tokens[0], ASC))
  }

  // ----- The words of a string -----

  /** The maximal runs without white space. */
  function Words(s: string): seq<string>
    decreases |s|
  {
    if s == "" then [] else
    if White(s[0]) then Words(s[1..]) else
    [s[..Run(s)]] + Words(s[Run(s)..])
  }

  lemma {:induction false} RunIs(x: string, rest: string)
    requires NoWhite(x) && (rest != "" ==> White(rest[0]))
    ensures Run(x + rest) == |x|
  {
    if x == "" {
      assert x + rest == rest;
    } else {
      assert (x + rest)[1..] == x[1..] + rest;
      RunIs(x[1..], rest);
    }
  }

  lemma WordFirst(x: string, rest: string)
    requires x != "" && NoWhite(x) && (rest != "" ==> White(rest[0]))
    ensures Words(x + rest) == [x] + Words(rest)
  {
    RunIs(x, rest);
    assert (x + rest)[..|x|] == x && (x + rest)[|x|..] == rest;
  }

  lemma {:induction false} SkipBlank(w: string, rest: string)
    requires Blank(w)
    ensures Words(w + rest) == Words(rest)
  {
    if w == "" {
      assert w + rest == rest;
    } else {
      assert (w + rest)[1..] == w[1..] + rest;
      SkipBlank(w[1..], rest);
    }
  }

  lemma {:induction false} WordsSnoc(t: string, c: char)
    requires White(c)
    ensures Words(t + [c]) == Words(t)
    decreases |t|
  {
    if t == "" {
      SkipBlank([c], "");
    } else if White(t[0]) {
      assert (t + [c])[1..] == t[1..] + [c];
      WordsSnoc(t[1..], c);
    } else {
      var x, rest := t[..Run(t)], t[Run(t)..];
      assert t == x + rest && t + [c] == x + (rest + [c]);
      WordFirst(x, rest);
      WordFirst(x, rest + [c]);
      WordsSnoc(rest, c);
    }
  }

  lemma {:induction false} WordsTrimEnd(s: string)
    ensures Words(TrimEnd(s)) == Words(s)
    ensures TrimEnd(s) != "" ==> !White(TrimEnd(s)[|TrimEnd(s)| - 1]) && TrimEnd(s)[0] == s[0]
    decreases |s|
  {
    if s != "" && White(s[|s| - 1]) {
      WordsTrimEnd(s[..|s| - 1]);
      assert s == s[..|s| - 1] + [s[|s| - 1]];
      WordsSnoc(s[..|s| - 1], s[|s| - 1]);
    }
  }

  lemma {:induction false} WordsTrimStart(s: string)
    ensures Words(TrimStart(s)) == Words(s)
  {
    if s != "" && White(s[0]) {
      WordsTrimStart(s[1..]);
    }
  }

  /** On a string with no white space at its ends, splitting gives its words. */
  lemma {:induction false} SplitIsWords(s: string)
    requires s != "" && !White(s[0]) && !White(s[|s| - 1])
    ensures Split(s) == Words(s)
    decreases |s|
  {
    var n := Run(s);
    if n == |s| {
      assert s[..n] == s && s[n..] == "";
    } else {
      var rest := TrimStart(s[n..]);
      TrimStartShrinks(s[n..]);
      WordsTrimStart(s[n..]);
      TrimStartKeepsLast(s[n..]);
      SplitIsWords(rest);
    }
  }

  lemma {:induction false} TrimStartKeepsLast(s: string)
    requires s != "" && !White(s[|s| - 1])
    ensures TrimStart(s) != "" && TrimStart(s)[|TrimStart(s)| - 1] == s[|s| - 1]
  {
    if White(s[0]) {
      TrimStartKeepsLast(s[1..]);
    }
  }

  function FromWords(words: seq<string>): Parsed {
    if words == [] then Parsed(SortOrder("", ASC))
    else if |words| == 1 then Parsed(SortOrder(words[0], ASC))
    else if OrderOf(words[1]).None? then Invalid
    else Parsed(SortOrder(words[0], OrderOf(words[1]).value))
  }

  /**
   A non-empty string is parsed by its first two words alone, so the amount, kind and place of white space
   around and between them never matters, and neither does anything after them.
   */
  lemma ParseReadsWords(s: string)
    requires s != ""
    ensures Parse(Some(s)) == FromWords(Words(s))
  {
    var t := TrimEnd(TrimStart(s));
    WordsTrimStart(s);
    TrimStartShrinks(s);
    WordsTrimEnd(TrimStart(s));
    if t != "" {
      SplitIsWords(t);
      assert Words(t) != [];
    } else {
      assert Words(t) == [];
      assert Split(t) == [""];
    }
  }

  /** Two words with any layout: the first is the field, the second the direction, the rest is ignored. */
  lemma TwoWords(w0: string, field: string, w1: string, token: string, w2: string)
    requires Blank(w0) && Blank(w1) && w1 != "" && (w2 != "" ==> White(w2[0]))
    requires field != "" && NoWhite(field) && token != "" && NoWhite(token)
    ensures Parse(Some(w0 + (field + (w1 + (token + w2))))) ==
              if OrderOf(token).None? then Invalid else Parsed(SortOrder(field, OrderOf(token).value))
  {
    hide OrderOf, White;
    var s := w0 + (field + (w1 + (token + w2)));
    SkipBlank(w0, field + (w1 + (token + w2)));
    WordFirst(field, w1 + (token + w2));
    SkipBlank(w1, token + w2);
    WordFirst(token, w2);
    assert Words(s) == [field] + ([token] + Words(w2));
    ParseReadsWords(s);
  }

  /** One word is an ascending order; nothing at all is null. */
  lemma OneWord(w0: string, field: string, w1: string)
    requires Blank(w0) && Blank(w1) && field != "" && NoWhite(field)
    ensures Parse(Some(w0 + (field + w1))) == Parsed(SortOrder(field, ASC))
    ensures Parse(Some("")) == Null && Parse(None) == Null
  {
    hide OrderOf, White;
    SkipBlank(w0, field + w1);
    WordFirst(field, w1);
    SkipBlank(w1, "");
    assert w1 + "" == w1 && Words(w0 + (field + w1)) == [field];
    ParseReadsWords(w0 + (field + w1));
  }

  predicate SpellsAsc(t: string) {
    |t| == 3 && t[0] in {'a', 'A'} && t[1] in {'s', 'S'} && t[2] in {'c', 'C'}
  }

  predicate SpellsDesc(t: string) {
    |t| == 4 && t[0] in {'d', 'D'} && t[1] in {'e', 'E'} && t[2] in {'s', 'S'} && t[3] in {'c', 'C'}
  }

  lemma UpperSpells(t: string)
    ensures Upper(t) == "ASC" <==> SpellsAsc(t)
    ensures Upper(t) == "DESC" <==> SpellsDesc(t)
  {
    assert forall i :: 0 <= i < |t| ==> Upper(t)[i] == UpperChar(t[i]);
    if SpellsAsc(t) {
      assert Upper(t) == ['A', 'S', 'C'];
    }
    if SpellsDesc(t) {
      assert Upper(t) == ['D', 'E', 'S', 'C'];
    }
    if Upper(t) == "ASC" {
      assert UpperChar(t[0]) == 'A' && UpperChar(t[1]) == 'S' && UpperChar(t[2]) == 'C';
    }
    if Upper(t) == "DESC" {
      assert UpperChar(t[0]) == 'D' && UpperChar(t[1]) == 'E' && UpperChar(t[2]) == 'S' && UpperChar(t[3]) == 'C';
    }
  }

  lemma UpperDigits(s: string)
    ensures AllDigits(Upper(s)) <==> AllDigits(s)
    ensures AllDigits(s) ==> Upper(s) == s
  {
    assert forall i :: 0 <= i < |s| ==> Upper(s)[i] == UpperChar(s[i]);
    if AllDigits(Upper(s)) {
      forall i | 0 <= i < |s| ensures '0' <= s[i] <= '9' {
        assert '0' <= Upper(s)[i] <= '9';
      }
    }
  }

  /** Case makes no difference to a number. */
  lemma UpperNumber(s: string)
    ensures Number(Upper(s)) == Number(s)
  {
    UpperDigits(s);
    if s != "" {
      UpperDigits(s[1..]);
      assert Upper(s)[1..] == Upper(s[1..]) && Upper(s)[0] == UpperChar(s[0]);
    }
  }

  lemma {:induction false} SplitUpper(s: string)
    ensures |SplitCommas(Upper(s))| == |SplitCommas(s)|
    ensures forall i :: 0 <= i < |SplitCommas(s)| ==> SplitCommas(Upper(s))[i] == Upper(SplitCommas(s)[i])
  {
    if s == "" {
      assert Upper("") == "";
    } else {
      SplitUpper(s[1..]);
      assert Upper(s)[1..] == Upper(s[1..]) && Upper(s)[0] == UpperChar(s[0]);
      assert Upper("") == "";
      var rest := SplitCommas(s[1..]);
      assert Upper([s[0]] + rest[0]) == [UpperChar(s[0])] + Upper(rest[0]);
    }
  }

  function JoinCommas(pieces: seq<string>): string
    requires pieces != []
  {
    if |pieces| == 1 then pieces[0] else pieces[0] + "," + JoinCommas(pieces[1..])
  }

  /** Splitting at commas takes a token apart at all of them, and loses nothing. */
  lemma {:induction false} PiecesJoin(s: string)
    ensures JoinCommas(SplitCommas(s)) == s
    ensures forall x :: x in SplitCommas(s) ==> ',' !in x
  {
    if s != "" {
      PiecesJoin(s[1..]);
      var rest := SplitCommas(s[1..]);
      if s[0] == ',' {
        assert ([""] + rest)[1..] == rest;
      } else {
        var first := [s[0]] + rest[0];
        assert ([first] + rest[1..])[1..] == rest[1..];
      }
      assert s == [s[0]] + s[1..];
    }
  }

  /**
   Which tokens are directions, letter by letter: a 32-bit number, or "asc" and "desc" in any spelling with
   upper and lower case letters, several of them with commas between them; then one "desc" decides.
   */
  lemma DirectionForms(token: string)
    ensures var names := SplitCommas(token);
            OrderOf(token) ==
              if Number(token).Some? then
                if -0x8000_0000 <= Number(token).value < 0x8000_0000 then Some(Number(token).value) else None
              else if exists i :: 0 <= i < |names| && !SpellsAsc(names[i]) && !SpellsDesc(names[i]) then None
              else if exists i :: 0 <= i < |names| && SpellsDesc(names[i]) then Some(DESC)
              else Some(ASC)
  {
    hide Number, SplitCommas, Upper, SpellsAsc, SpellsDesc;
    var names, uppers := SplitCommas(token), SplitCommas(Upper(token));
    UpperNumber(token);
    SplitUpper(token);
    forall i | 0 <= i < |names|
      ensures uppers[i] == "ASC" <==> SpellsAsc(names[i])
      ensures uppers[i] == "DESC" <==> SpellsDesc(names[i])
    {
      UpperSpells(names[i]);
    }
  }

  /** Every spelling of a name alone. */
  lemma NamesInAnyCase(token: string)
    ensures SpellsAsc(token) ==> OrderOf(token) == Some(ASC)
    ensures SpellsDesc(token) ==> OrderOf(token) == Some(DESC)
  {
    if SpellsAsc(token) || SpellsDesc(token) {
      NoCommas(token);
      DirectionForms(token);
      assert SplitCommas(token)[0] == token && Number(token).None?;
    }
  }

  /** A word that is no number and has neither a name nor a comma is no direction, such as "bla". */
  lemma OtherWords(token: string)
    requires Number(token).None? && ',' !in token && !SpellsAsc(token) && !SpellsDesc(token)
    ensures OrderOf(token) == None
  {
    NoCommas(token);
    DirectionForms(token);
    assert SplitCommas(token)[0] == token;
  }

  /** The layout and the case of the direction do not matter. */
  lemma LayoutAndCase(w0: string, w1: string, w2: string, field: string, token: string)
    requires Blank(w0) && Blank(w1) && w1 != "" && (w2 != "" ==> White(w2[0]))
    requires field != "" && NoWhite(field) && (SpellsAsc(token) || SpellsDesc(token))
    ensures Parse(Some(w0 + (field + (w1 + (token + w2))))) ==
              Parsed(SortOrder(field, if SpellsAsc(token) then ASC else DESC))
  {
    NamesInAnyCase(token);
    assert NoWhite(token);
    TwoWords(w0, field, w1, token, w2);
  }

  /** What is printed, to the letter. */
  lemma PrintedForms(field: string)
    ensures Print(SortOrder(field, ASC)) == field + " asc"
    ensures Print(SortOrder(field, DESC)) == field + " desc"
    ensures Print(SortOrder(field, 120)) == field + " 120" && Print(SortOrder(field, -7)) == field + " -7"
  {
    assert field + " " + "asc" == field + " asc" && field + " " + "desc" == field + " desc";
    assert Digits(1) == "1" && Digits(12) == "12" && Digits(120) == "120" && Digits(7) == "7";
    assert Lower(120) == "120" && Lower(-7) == "-7";
    assert field + " " + "120" == field + " 120" && field + " " + "-7" == field + " -7";
  }

  /** A printed number has no sign but a minus and no leading zeros. */
  lemma {:induction false} NoLeadingZeros(n: nat)
    ensures Digits(n) != "" && (|Digits(n)| > 1 ==> Digits(n)[0] != '0') && (Digits(n)[0] == '0' ==> n == 0)
  {
    if n >= 10 {
      NoLeadingZeros(n / 10);
    }
  }

  lemma {:induction false} DigitsReadBack(n: nat)
    ensures AllDigits(Digits(n)) && ValueOf(Digits(n)) == n
  {
    if n >= 10 {
      DigitsReadBack(n / 10);
      assert Digits(n)[..|Digits(n)| - 1] == Digits(n / 10);
    }
  }

  lemma DigitsArePlain(s: string)
    requires AllDigits(s)
    ensures Upper(s) == s && NoWhite(s)
  {
  }

  lemma DecimalReadsBack(i: int)
    ensures Number(Decimal(i)) == Some(i) && Upper(Decimal(i)) == Decimal(i)
    ensures Decimal(i) != "" && NoWhite(Decimal(i))
  {
    hide Digits, ValueOf;
    var n: nat := if i < 0 then -i else i;
    var d := Digits(n);
    DigitsReadBack(n);
    DigitsArePlain(d);
    if i < 0 {
      assert Decimal(i)[1..] == d;
      assert !White('-');
      assert Upper("-" + d) == "-" + d;
    }
  }

  lemma {:induction false} NoCommas(s: string)
    requires ',' !in s
    ensures SplitCommas(s) == [s]
  {
    if s != "" {
      NoCommas(s[1..]);
      assert s == [s[0]] + s[1..];
    }
  }

  lemma NamesReadBack()
    ensures OrderOf("asc") == Some(ASC) && OrderOf("desc") == Some(DESC)
  {
    assert Upper("asc") == "ASC" && Upper("desc") == "DESC";
    NoCommas("ASC");
    NoCommas("DESC");
    assert !('0' <= "ASC"[0] <= '9') && !('0' <= "DESC"[0] <= '9');
  }

  /** Every value, with a name or not, is parsed from what it prints as. */
  lemma OrderReadsBack(o: Order)
    ensures OrderOf(Lower(o)) == Some(o) && Lower(o) != "" && NoWhite(Lower(o))
  {
    NamesReadBack();
    hide Decimal, Number, SplitCommas;
    if o != ASC && o != DESC {
      DecimalReadsBack(o);
    }
  }

  lemma {:induction false} WordsHaveNoWhite(s: string)
    ensures forall x :: x in Words(s) ==> x != "" && NoWhite(x)
    ensures Words(s) == [] <==> Blank(s)
    decreases |s|
  {
    if s != "" {
      if White(s[0]) {
        WordsHaveNoWhite(s[1..]);
        assert Blank(s) <==> Blank(s[1..]);
      } else {
        WordsHaveNoWhite(s[Run(s)..]);
      }
    }
  }

  /** A sort order survives printing and parsing exactly when its field is a single word. */
  lemma RoundTrip(o: SortOrder)
    ensures Parse(Some(Print(o))) == Parsed(o) <==> o.field != "" && NoWhite(o.field)
  {
    var d := Lower(o.order);
    OrderReadsBack(o.order);
    if o.field != "" && NoWhite(o.field) {
      assert Print(o) == "" + (o.field + (" " + (d + "")));
      TwoWords("", o.field, " ", d, "");
    } else {
      ParsedField(Print(o), |o.field| + 1);
    }
  }

  /** A field that comes out of a string which is not blank is a word. */
  lemma ParsedField(s: string, k: nat)
    requires k < |s| && !White(s[k])
    ensures var r := Parse(Some(s)); r.Parsed? ==> r.o.field != "" && NoWhite(r.o.field)
  {
    ParseReadsWords(s);
    WordsHaveNoWhite(s);
    assert Words(s)[0] in Words(s);
  }

  /** What has been parsed from a string is a fixed point of printing and parsing unless the string was blank. */
  lemma NormalForm(s: string)
    requires Parse(Some(s)).Parsed?
    ensures Parse(Some(Print(Parse(Some(s)).o))) == Parse(Some(s)) <==> !Blank(s)
  {
    ParseReadsWords(s);
    WordsHaveNoWhite(s);
    var o := Parse(Some(s)).o;
    RoundTrip(o);
    if Words(s) != [] {
      assert Words(s)[0] in Words(s);
    }
  }
}
