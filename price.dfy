/** `extract_price`: reads a non-negative number out of a price field that may
    be missing, a string such as "29,99 €", or a list of such strings. */
module Price {
  import opened Values
  import opened Text

  /** The characters `re.sub(r'[^\d.,]', '', s)` keeps. */
  predicate IsNumericChar(c: char) {
    IsDigit(c) || c == '.' || c == ','
  }

  predicate AllNumeric(s: string) {
    forall k :: 0 <= k < |s| ==> IsNumericChar(s[k])
  }

  predicate NoDigit(s: string) {
    forall k :: 0 <= k < |s| ==> !IsDigit(s[k])
  }

  /** `re.sub(r'[^\d.,]', '', s)`: the digits, points and commas of `s`, in order. */
  function KeepNumeric(s: string): (r: string)
    ensures AllNumeric(r)
    ensures AllNumeric(s) ==> r == s
    ensures NoDigit(s) ==> NoDigit(r)
    decreases |s|
  {
    if s == [] then []
    else (if IsNumericChar(s[0]) then [s[0]] else []) + KeepNumeric(s[1..])
  }

  /** `s.replace(',', '.')`. */
  function CommasToDots(s: string): (r: string)
    ensures |r| == |s|
    ensures forall k :: 0 <= k < |s| ==> r[k] == if s[k] == ',' then '.' else s[k]
  {
    seq(|s|, k requires 0 <= k < |s| => if s[k] == ',' then '.' else s[k])
  }

  /** The text `extract_price` searches for a number (lines 75-76). */
  function Clean(s: string): string {
    CommasToDots(KeepNumeric(s))
  }

  /** Where the first match of `\d+\.?\d*` in `c` starts: at the first digit
      at or after `i`, if there is one. */
  function FirstDigit(c: string, i: nat): (r: Option<nat>)
    requires i <= |c|
    ensures r.Some? ==> i <= r.value < |c| && IsDigit(c[r.value])
                        && forall k :: i <= k < r.value ==> !IsDigit(c[k])
    ensures r.None? ==> forall k :: i <= k < |c| ==> !IsDigit(c[k])
    decreases |c| - i
  {
    if i == |c| then None
    else if IsDigit(c[i]) then Some(i)
    else FirstDigit(c, i + 1)
  }

  /** Where the greedy match of `\d+\.?\d*` that starts at digit `st` ends. */
  function NumberEnd(c: string, st: nat): (e: nat)
    requires st < |c| && IsDigit(c[st])
    ensures st < e <= |c|
  {
    var a := Span(c, st, Digit);
    if st + a < |c| && c[st + a] == '.' then st + a + 1 + Span(c, st + a + 1, Digit)
    else st + a
  }

  /** The number `extract_price` reads from one string (lines 75-84). */
  function PriceIn(text: string): (r: real)
    ensures r >= 0.0
  {
    var c := Clean(text);
    match FirstDigit(c, 0)
    case None => 0.0
    case Some(st) =>
      match ParseFloat(c[st..NumberEnd(c, st)])
      case Some(v) => v
      case None => 0.0 // the ValueError branch of line 82; MatchAlwaysParses shows it is dead
  }

  /** `extract_price(price_str)`: 0 for a missing, empty or empty-list price;
      otherwise the number in the string, or in the first element of the list. */
  function ExtractPrice(price: Field): (r: real)
    ensures r >= 0.0
    ensures !Truthy(price) ==> r == 0.0
  {
    if !Truthy(price) then 0.0 else PriceIn(Head(price))
  }

  // ---------------------------------------------------------------------------
  // What the regex match is, and that float() always accepts it

  /** The text matched by `\d+\.?\d*` always parses as a float, so the
      `except ValueError` of line 82 can never run. */
  lemma MatchAlwaysParses(c: string, st: nat)
    requires st < |c| && IsDigit(c[st])
    ensures ParseFloat(c[st..NumberEnd(c, st)]).Some?
  {
    var a := Span(c, st, Digit);
    var e := NumberEnd(c, st);
    DigitSpanIsDigits(c, st);
    if st + a < |c| && c[st + a] == '.' {
      var b := Span(c, st + a + 1, Digit);
      DigitSpanIsDigits(c, st + a + 1);
      assert c[st..e] == c[st..st + a] + "." + c[st + a + 1..e];
      ParseDecimalLiteral(c[st..st + a], c[st + a + 1..e]);
    } else {
      ParseIntegerLiteral(c[st..e]);
    }
  }

  lemma SplitAtPoint(c: string, pre: string, a: string, b: string, rest: string)
    requires c == pre + a + "." + b + rest
    ensures |c| == |pre| + |a| + 1 + |b| + |rest|
    ensures c[..|pre|] == pre && c[|pre|..|pre| + |a|] == a && c[|pre| + |a|] == '.'
    ensures c[|pre| + |a| + 1..|pre| + |a| + 1 + |b|] == b && c[|pre| + |a| + 1 + |b|..] == rest
  {
    var left := pre + a;
    var right := b + rest;
    assert c == left + ("." + right);
    assert c[..|left|] == left && c[|left|] == '.' && c[|left| + 1..] == right;
    assert left[..|pre|] == pre && left[|pre|..] == a;
    assert right[..|b|] == b && right[|b|..] == rest;
  }

  /** In `pre + a + "." + b + rest`, the number starts after `pre` and is `a.b`. */
  lemma DecimalMatch(c: string, pre: string, a: string, b: string, rest: string)
    requires c == pre + a + "." + b + rest
    requires NoDigit(pre) && a != [] && AllDigits(a) && AllDigits(b)
    requires rest == [] || !IsDigit(rest[0])
    ensures FirstDigit(c, 0) == Some(|pre|)
    ensures c[|pre|..NumberEnd(c, |pre|)] == a + "." + b
  {
    SplitAtPoint(c, pre, a, b, rest);
    var st := |pre|;
    var dot := st + |a|;
    var e := dot + 1 + |b|;
    assert e < |c| ==> c[e] == c[e..][0];
    DecimalPieces(c, st, dot, e, a, b);
    DecimalAt(c, st, dot, e);
  }

  /** Digits `a` from `st` to `dot`, a point, digits `b` up to `e`, read back
      position by position and as one piece. */
  lemma DecimalPieces(c: string, st: nat, dot: nat, e: nat, a: string, b: string)
    requires st <= dot < e <= |c| && c[dot] == '.'
    requires c[st..dot] == a && c[dot + 1..e] == b && AllDigits(a) && AllDigits(b)
    ensures forall j :: st <= j < dot ==> IsDigit(c[j])
    ensures forall j :: dot < j < e ==> IsDigit(c[j])
    ensures c[st..e] == a + "." + b
  {
    forall j | st <= j < dot ensures IsDigit(c[j]) { assert c[j] == a[j - st]; }
    forall j | dot < j < e ensures IsDigit(c[j]) { assert c[j] == b[j - dot - 1]; }
    assert c[st..e] == c[st..dot] + [c[dot]] + c[dot + 1..e];
  }

  /** Digits from `st` to `dot`, a point, and digits up to `e`, after no digit
      and before none: the number starts at `st` and ends at `e`. */
  lemma DecimalAt(c: string, st: nat, dot: nat, e: nat)
    requires st < dot < e <= |c| && NoDigit(c[..st]) && c[dot] == '.'
    requires forall j :: st <= j < dot ==> IsDigit(c[j])
    requires forall j :: dot < j < e ==> IsDigit(c[j])
    requires e == |c| || !IsDigit(c[e])
    ensures FirstDigit(c, 0) == Some(st)
    ensures NumberEnd(c, st) == e
  {
    FirstDigitAt(c, st);
    SpanIs(c, st, Digit, dot - st);
    SpanIs(c, dot + 1, Digit, e - dot - 1);
  }

  /** A digit after no digit is where the number starts. */
  lemma FirstDigitAt(c: string, st: nat)
    requires st < |c| && NoDigit(c[..st]) && IsDigit(c[st])
    ensures FirstDigit(c, 0) == Some(st)
  {
    forall j | 0 <= j < st ensures !IsDigit(c[j]) { assert c[j] == c[..st][j]; }
  }

  /** When the cleaned text is some non-digits, then digits `a`, a point and
      digits `b`, the price is `a.b`: what follows `b` is ignored. */
  lemma PriceOfDecimal(text: string, pre: string, a: string, b: string, rest: string)
    requires Clean(text) == pre + a + "." + b + rest
    requires NoDigit(pre) && a != [] && AllDigits(a) && AllDigits(b)
    requires rest == [] || !IsDigit(rest[0])
    ensures PriceIn(text) == DecimalValue(a, b)
  {
    DecimalMatch(Clean(text), pre, a, b, rest);
    ParseDecimalLiteral(a, b);
  }

  /** In `pre + a + rest`, with no point after `a`, the number is `a`. */
  lemma IntegerMatch(c: string, pre: string, a: string, rest: string)
    requires c == pre + a + rest
    requires NoDigit(pre) && a != [] && AllDigits(a)
    requires rest == [] || (!IsDigit(rest[0]) && rest[0] != '.')
    ensures FirstDigit(c, 0) == Some(|pre|)
    ensures c[|pre|..NumberEnd(c, |pre|)] == a
  {
    var st := |pre|;
    var e := st + |a|;
    assert c[..st] == pre && c[st..e] == a && c[e..] == rest;
    assert c[st] == a[0];
    forall j | 0 <= j < st ensures !IsDigit(c[j]) { assert c[j] == c[..st][j]; }
    forall j | st <= j < e ensures IsDigit(c[j]) { assert c[j] == c[st..e][j - st]; }
    assert e < |c| ==> c[e] == rest[0];
    SpanIs(c, st, Digit, |a|);
  }

  /** When the cleaned text is some non-digits, then digits `a` not followed by
      a point, the price is the integer `a`. */
  lemma PriceOfInteger(text: string, pre: string, a: string, rest: string)
    requires Clean(text) == pre + a + rest
    requires NoDigit(pre) && a != [] && AllDigits(a)
    requires rest == [] || (!IsDigit(rest[0]) && rest[0] != '.')
    ensures PriceIn(text) == DigitsValue(a) as real
  {
    IntegerMatch(Clean(text), pre, a, rest);
    ParseIntegerLiteral(a);
  }

  /** A text without a digit has price 0. */
  lemma PriceWithoutDigits(text: string)
    requires NoDigit(text)
    ensures PriceIn(text) == 0.0
  {
    var c := Clean(text);
    assert NoDigit(c);
    assert FirstDigit(c, 0).None?;
  }

  // ---------------------------------------------------------------------------
  // Which characters matter

  lemma KeepNumericAppend(s: string, t: string)
    ensures KeepNumeric(s + t) == KeepNumeric(s) + KeepNumeric(t)
    decreases |s|
  {
    if s != [] {
      assert (s + t)[1..] == s[1..] + t;
      KeepNumericAppend(s[1..], t);
    } else {
      assert s + t == t;
    }
  }

  /** A character other than a digit, '.' or ',' is dropped wherever it stands. */
  lemma KeepNumericDrops(x: string, c: char, y: string)
    requires !IsNumericChar(c)
    ensures KeepNumeric(x + [c] + y) == KeepNumeric(x + y)
  {
    assert x + [c] + y == x + ([c] + y);
    KeepNumericAppend(x, [c] + y);
    KeepNumericAppend([c], y);
    assert KeepNumeric([c]) == [] by { assert [c][1..] == []; }
    KeepNumericAppend(x, y);
  }

  /** A digit, '.' or ',' is kept, in its place among the others. */
  lemma KeepNumericKeeps(x: string, c: char, y: string)
    requires IsNumericChar(c)
    ensures KeepNumeric(x + [c] + y) == KeepNumeric(x) + [c] + KeepNumeric(y)
  {
    assert x + [c] + y == x + ([c] + y);
    KeepNumericAppend(x, [c] + y);
    KeepNumericAppend([c], y);
    assert KeepNumeric([c]) == [c] by { assert [c][1..] == []; }
  }

  lemma {:induction false} KeepNumericIdempotent(s: string)
    ensures KeepNumeric(KeepNumeric(s)) == KeepNumeric(s)
  {
    // KeepNumeric's result is all numeric, and an all-numeric string is kept whole
  }

  lemma {:induction false} KeepNumericCommas(s: string)
    ensures KeepNumeric(CommasToDots(s)) == CommasToDots(KeepNumeric(s))
    decreases |s|
  {
    if s != [] {
      assert CommasToDots(s) == CommasToDots([s[0]]) + CommasToDots(s[1..]);
      KeepNumericAppend(CommasToDots([s[0]]), CommasToDots(s[1..]));
      KeepNumericCommas(s[1..]);
      var h := if IsNumericChar(s[0]) then [s[0]] else [];
      assert KeepNumeric(s) == h + KeepNumeric(s[1..]);
      assert CommasToDots(h + KeepNumeric(s[1..])) == CommasToDots(h) + CommasToDots(KeepNumeric(s[1..]));
    }
  }

  /** Removing a character other than a digit, '.' or ',' leaves the price unchanged. */
  lemma PriceIgnoresOtherCharacters(x: string, c: char, y: string)
    requires !IsNumericChar(c)
    ensures ExtractPrice(Str(x + [c] + y)) == ExtractPrice(Str(x + y))
  {
    KeepNumericDrops(x, c, y);
    if x + y == [] {
      assert Clean(x + [c] + y) == [];
    }
  }

  /** The price is that of the digits, points and commas alone. */
  lemma PriceOfKeptCharacters(s: string)
    ensures ExtractPrice(Str(s)) == ExtractPrice(Str(KeepNumeric(s)))
  {
    KeepNumericIdempotent(s);
    if s != [] && KeepNumeric(s) == [] {
      assert Clean(s) == [];
    }
  }

  /** A comma reads exactly as a point. */
  lemma PriceCommaIsPoint(s: string)
    ensures ExtractPrice(Str(s)) == ExtractPrice(Str(CommasToDots(s)))
  {
    KeepNumericCommas(s);
    var k := KeepNumeric(s);
    assert CommasToDots(CommasToDots(k)) == CommasToDots(k);
  }

  /** Of a non-empty list only the first element is read. */
  lemma PriceOfListIsPriceOfHead(items: seq<string>)
    requires items != []
    ensures ExtractPrice(List(items)) == ExtractPrice(Str(items[0]))
  {
    if items[0] == [] {
      assert Clean(items[0]) == [];
    }
  }

  lemma CleanOfThousands(text: string)
    requires text == "1,299.99"
    ensures Clean(text) == [] + "1" + "." + "299" + ".99"
  {
    assert AllNumeric(text);
    var c := Clean(text);
    assert |c| == 8;
    forall k | 0 <= k < 8 ensures c[k] == ([] + "1" + "." + "299" + ".99")[k] {}
  }

  lemma OnePoint299()
    ensures DecimalValue("1", "299") == 1.299
  {
    var one, frac := "1", "299";
    assert DigitsValue(frac) == 299 by {
      assert frac[..2][..1] == "2" && frac[..2] == "29" && "2"[..0] == [];
    }
    assert DigitsValue(one) == 1 by { assert one[..0] == []; }
    assert Pow10(|frac|) == 1000;
  }

  /** "1,299.99" reads as 1.299: the comma becomes a point, and the second
      point ends the match. */
  lemma ThousandsSeparatorExample(text: string)
    requires text == "1,299.99"
    ensures ExtractPrice(Str(text)) == 1.299
  {
    CleanOfThousands(text);
    PriceOfDecimal(text, [], "1", "299", ".99");
    OnePoint299();
  }
}
