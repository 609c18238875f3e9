/** The Python string built-ins the core relies on, on `string = seq<char>`:
    the `\s` and `\d` classes of `re`, `str.lower`, `str.strip`,
    `str.split()[0]`, `int` of a digit string and `float` of a decimal literal. */
module Text {
  import opened Values

  /** `str.isspace()`, which is also what `\s`, `str.strip()` and `str.split()`
      treat as white space. */
  predicate IsSpace(c: char) {
    ('\t' <= c <= '\r') || ('\U{1C}' <= c <= '\U{1F}') || c == ' ' || c == '\U{85}' || c == '\U{A0}'
    || c == '\U{1680}' || ('\U{2000}' <= c <= '\U{200A}') || c == '\U{2028}' || c == '\U{2029}'
    || c == '\U{202F}' || c == '\U{205F}' || c == '\U{3000}'
  }

  /** `\d`, restricted to the ASCII digits. */
  predicate IsDigit(c: char) {
    '0' <= c <= '9'
  }

  predicate AllSpace(s: string) {
    forall k :: 0 <= k < |s| ==> IsSpace(s[k])
  }

  predicate AllDigits(s: string) {
    forall k :: 0 <= k < |s| ==> IsDigit(s[k])
  }

  /** `s` has `w` at position `i`. */
  predicate StartsAt(s: string, i: nat, w: string) {
    i + |w| <= |s| && s[i..i + |w|] == w
  }

  /** `w` occurs somewhere in `s`. */
  predicate Occurs(w: string, s: string) {
    exists i: nat :: i <= |s| && StartsAt(s, i, w)
  }

  datatype CharClass = Whitespace | Digit | NonWhitespace

  predicate InClass(c: char, cl: CharClass) {
    match cl
    case Whitespace => IsSpace(c)
    case Digit => IsDigit(c)
    case NonWhitespace => !IsSpace(c)
  }

  /** The length of the longest run of `cl` characters that starts at `i`:
      what a greedy `\s+`, `\s*`, `\d+` or `\S+` consumes there. */
  function Span(s: string, i: nat, cl: CharClass): (n: nat)
    requires i <= |s|
    ensures i + n <= |s|
    decreases |s| - i
  {
    if i < |s| && InClass(s[i], cl) then 1 + Span(s, i + 1, cl) else 0
  }

  /** The span is a run of `cl` characters that the next character, if any, ends. */
  lemma {:induction false} SpanShape(s: string, i: nat, cl: CharClass)
    requires i <= |s|
    ensures forall k :: i <= k < i + Span(s, i, cl) ==> InClass(s[k], cl)
    ensures i + Span(s, i, cl) == |s| || !InClass(s[i + Span(s, i, cl)], cl)
    decreases |s| - i
  {
    if i < |s| && InClass(s[i], cl) {
      SpanShape(s, i + 1, cl);
    }
  }

  /** A run of exactly `n` class characters, not followed by another one, is the span. */
  lemma {:induction false} SpanIs(s: string, i: nat, cl: CharClass, n: nat)
    requires i + n <= |s|
    requires forall k :: i <= k < i + n ==> InClass(s[k], cl)
    requires i + n == |s| || !InClass(s[i + n], cl)
    ensures Span(s, i, cl) == n
    decreases n
  {
    if n > 0 {
      SpanIs(s, i + 1, cl, n - 1);
    }
  }

  /** A run of `n` class characters at `i` lies within the span there. */
  lemma {:induction false} SpanAtLeast(s: string, i: nat, cl: CharClass, n: nat)
    requires i + n <= |s|
    requires forall k :: i <= k < i + n ==> InClass(s[k], cl)
    ensures n <= Span(s, i, cl)
    decreases n
  {
    if n > 0 {
      SpanAtLeast(s, i + 1, cl, n - 1);
    }
  }

  /** A piece `x` of `cl` characters at `i`, not followed by another one, is the span there. */
  lemma SpanOfPiece(s: string, i: nat, x: string, cl: CharClass)
    requires StartsAt(s, i, x)
    requires forall k :: 0 <= k < |x| ==> InClass(x[k], cl)
    requires i + |x| == |s| || !InClass(s[i + |x|], cl)
    ensures Span(s, i, cl) == |x|
  {
    forall k | i <= k < i + |x| ensures InClass(s[k], cl) {
      assert s[k] == x[k - i];
    }
    SpanIs(s, i, cl, |x|);
  }

  /** The character at a non-empty piece's position is its first one. */
  lemma FirstOf(s: string, i: nat, x: string)
    requires StartsAt(s, i, x) && x != []
    ensures i < |s| && s[i] == x[0]
  {
    assert s[i..i + |x|][0] == s[i];
  }

  /** `y[i..]` starts with `x`; what follows it is `z`. */
  lemma Peel(y: string, i: nat, x: string, z: string)
    requires i <= |y| && y[i..] == x + z
    ensures StartsAt(y, i, x) && y[i + |x|..] == z
  {
    assert y[i..i + |x|] == (x + z)[..|x|];
    assert y[i + |x|..] == (x + z)[|x|..];
  }

  /** The digits a greedy `\d+` consumes. */
  lemma DigitSpanIsDigits(s: string, i: nat)
    requires i <= |s|
    ensures AllDigits(s[i..i + Span(s, i, Digit)])
  {
    var n := Span(s, i, Digit);
    SpanShape(s, i, Digit);
    var t := s[i..i + n];
    forall k | 0 <= k < |t| ensures IsDigit(t[k]) {
      assert t[k] == s[i + k] && InClass(s[i + k], Digit);
    }
  }

  /** `int` of the digits a greedy `\d+` takes at `i`. */
  function DigitRunValue(s: string, i: nat): nat
    requires i <= |s|
  {
    DigitSpanIsDigits(s, i);
    DigitsValue(s[i..i + Span(s, i, Digit)])
  }

  /** A digit run `a` at `i` that no further digit follows is what `\d+`
      takes there, and it reads as `int(a)`. */
  lemma DigitRunOf(s: string, i: nat, a: string)
    requires StartsAt(s, i, a) && AllDigits(a)
    requires i + |a| == |s| || !IsDigit(s[i + |a|])
    ensures Span(s, i, Digit) == |a|
    ensures DigitRunValue(s, i) == DigitsValue(a)
  {
    forall k | 0 <= k < |a| ensures InClass(a[k], Digit) {
      assert IsDigit(a[k]);
    }
    SpanOfPiece(s, i, a, Digit);
    assert s[i..i + |a|] == a;
  }

  // ---------------------------------------------------------------------------
  // str.lower()

  /** `str.lower()` on one character, for ASCII and the Latin-1 capitals. */
  predicate IsUpper(c: char) {
    ('A' <= c <= 'Z') || ('\U{C0}' <= c <= '\U{DE}' && c != '\U{D7}')
  }

  function LowerChar(c: char): (d: char)
    ensures !IsUpper(d)
    ensures !IsUpper(c) ==> d == c
    ensures IsSpace(d) <==> IsSpace(c)
    ensures IsDigit(d) <==> IsDigit(c)
  {
    if IsUpper(c) then
      (c as int + 32) as char
    else
      c
  }

  function Lower(s: string): (r: string)
    ensures |r| == |s|
    ensures forall k :: 0 <= k < |s| ==> r[k] == LowerChar(s[k])
  {
    seq(|s|, k requires 0 <= k < |s| => LowerChar(s[k]))
  }

  /** `str.lower()` works character by character. */
  lemma LowerAppend(a: string, b: string)
    ensures Lower(a + b) == Lower(a) + Lower(b)
  {
    assert forall k :: 0 <= k < |a + b| ==> Lower(a + b)[k] == (Lower(a) + Lower(b))[k];
  }

  predicate IsLowercase(s: string) {
    forall k :: 0 <= k < |s| ==> LowerChar(s[k]) == s[k]
  }

  /** `str.lower()` gives a lower-case string. */
  lemma LowerIsLowercase(s: string)
    ensures IsLowercase(Lower(s))
  {
  }

  /** Lowering a string that is already lower case changes nothing. */
  lemma LowerOfLowercase(s: string)
    requires IsLowercase(s)
    ensures Lower(s) == s
  {
  }

  // ---------------------------------------------------------------------------
  // str.strip() and str.split()[0]

  /** The end of `s[lo..j]` once its trailing white space is dropped. */
  function TrimmedEnd(s: string, lo: nat, j: nat): (e: nat)
    requires lo <= j <= |s|
    ensures lo <= e <= j
    ensures forall k :: e <= k < j ==> IsSpace(s[k])
    ensures e == lo || !IsSpace(s[e - 1])
    decreases j
  {
    if j > lo && IsSpace(s[j - 1]) then TrimmedEnd(s, lo, j - 1) else j
  }

  /** Where the text `str.strip()` keeps begins: after the leading white space. */
  function StripStart(s: string): (i: nat)
    ensures i <= |s| && AllSpace(s[..i])
    ensures i < |s| ==> !IsSpace(s[i])
  {
    var i := Span(s, 0, Whitespace);
    SpanShape(s, 0, Whitespace);
    assert AllSpace(s[..i]) by {
      forall k | 0 <= k < i ensures IsSpace(s[..i][k]) { assert InClass(s[k], Whitespace); }
    }
    i
  }

  /** `str.strip()`: the middle of `s` between a leading and a trailing white
      space run; it neither starts nor ends with white space. */
  function Strip(s: string): (r: string)
    ensures r == [] || (!IsSpace(r[0]) && !IsSpace(r[|r| - 1]))
    ensures StripStart(s) + |r| <= |s| && r == s[StripStart(s)..StripStart(s) + |r|]
    ensures AllSpace(s[StripStart(s) + |r|..])
  {
    var i := StripStart(s);
    var j := TrimmedEnd(s, i, |s|);
    assert AllSpace(s[j..]) by {
      forall k | 0 <= k < |s| - j ensures IsSpace(s[j..][k]) { assert IsSpace(s[j + k]); }
    }
    s[i..j]
  }

  /** A string with no white space at either end is its own strip. */
  lemma StripUnchanged(s: string)
    requires s == [] || (!IsSpace(s[0]) && !IsSpace(s[|s| - 1]))
    ensures Strip(s) == s
  {
    if s != [] {
      SpanIs(s, 0, Whitespace, 0);
    }
  }

  /** The strip of a piece `s[lo..hi]` is itself a piece of `s` within it. */
  lemma StripWithin(s: string, lo: nat, hi: nat) returns (i: nat)
    requires lo <= hi <= |s|
    ensures lo <= i && i + |Strip(s[lo..hi])| <= hi && StartsAt(s, i, Strip(s[lo..hi]))
  {
    var r := Strip(s[lo..hi]);
    var a := StripStart(s[lo..hi]);
    PieceOfPiece(s, lo, hi, a, r);
    i := lo + a;
  }

  /** A piece of `s[lo..hi]` is a piece of `s`. */
  lemma PieceOfPiece(s: string, lo: nat, hi: nat, a: nat, r: string)
    requires lo <= hi <= |s| && a + |r| <= hi - lo && r == s[lo..hi][a..a + |r|]
    ensures StartsAt(s, lo + a, r)
  {
    forall k | 0 <= k < |r| ensures s[lo + a + k] == r[k] {
      assert r[k] == s[lo..hi][a + k];
    }
    assert s[lo + a..lo + a + |r|] == r;
  }

  /** A piece of a lower-case string is lower case. */
  lemma LowercasePiece(s: string, i: nat, q: string)
    requires IsLowercase(s) && StartsAt(s, i, q)
    ensures IsLowercase(q)
  {
    forall k | 0 <= k < |q| ensures LowerChar(q[k]) == q[k] {
      assert q[k] == s[i..i + |q|][k] == s[i + k];
    }
  }

  /** The first word of `str.split()`, or None when `s` is all white space
      (where `s.split()[0]` raises IndexError). */
  function FirstToken(s: string): (r: Option<string>)
    ensures r.None? <==> AllSpace(s)
    ensures r.Some? ==> r.value != [] && (forall k :: 0 <= k < |r.value| ==> !IsSpace(r.value[k]))
    ensures r.Some? ==> exists i: nat :: i + |r.value| <= |s| && AllSpace(s[..i]) && s[i..i + |r.value|] == r.value
                                      && (i + |r.value| == |s| || IsSpace(s[i + |r.value|]))
  {
    var i := Span(s, 0, Whitespace);
    SpanShape(s, 0, Whitespace);
    if i == |s| then
      None
    else
      var n := Span(s, i, NonWhitespace);
      SpanShape(s, i, NonWhitespace);
      assert AllSpace(s[..i]) by {
        forall k | 0 <= k < i ensures IsSpace(s[..i][k]) { assert InClass(s[k], Whitespace); }
      }
      Some(s[i..i + n])
  }

  // ---------------------------------------------------------------------------
  // int() of a digit string and float() of a decimal literal

  function Pow10(n: nat): (p: nat)
    ensures p >= 1
  {
    if n == 0 then 1 else 10 * Pow10(n - 1)
  }

  function DigitValue(c: char): (d: nat)
    requires IsDigit(c)
    ensures d < 10
  {
    (c as int) - ('0' as int)
  }

  /** `int(ds)` for a string of ASCII digits; it has fewer digits than Pow10 says. */
  function DigitsValue(ds: string): (v: nat)
    requires AllDigits(ds)
    ensures v < Pow10(|ds|)
    decreases |ds|
  {
    if ds == [] then 0 else 10 * DigitsValue(ds[..|ds| - 1]) + DigitValue(ds[|ds| - 1])
  }

  /** The value of the decimal literal `a.b`: whole part `a`, fraction digits `b`. */
  function DecimalValue(a: string, b: string): (v: real)
    requires AllDigits(a) && AllDigits(b)
    ensures DigitsValue(a) as real <= v < DigitsValue(a) as real + 1.0
  {
    var f := DigitsValue(b) as real / Pow10(|b|) as real;
    assert 0.0 <= f < 1.0 by { FractionBelowOne(DigitsValue(b) as real, Pow10(|b|) as real); }
    DigitsValue(a) as real + f
  }

  lemma FractionBelowOne(x: real, y: real)
    requires 0.0 <= x < y
    ensures 0.0 <= x / y < 1.0
  {
  }

  /** `t` is digits, a point at `k` and digits, with at least one digit in all. */
  predicate PointAt(t: string, k: nat) {
    k < |t| && t[k] == '.' && AllDigits(t[..k]) && AllDigits(t[k + 1..]) && |t| > 1
  }

  /** The unsigned decimal literals `float()` accepts: "12", "12.5", "12." and ".5". */
  predicate UnsignedLiteral(t: string) {
    (t != [] && AllDigits(t)) || exists k: nat :: k < |t| && PointAt(t, k)
  }

  /** An unsigned decimal literal, optionally after one '+' or '-'. */
  predicate FloatLiteral(t: string) {
    UnsignedLiteral(t) || (t != [] && (t[0] == '+' || t[0] == '-') && UnsignedLiteral(t[1..]))
  }

  /** The leading digits of a literal with a point are exactly those before it,
      and the digits after it run to the end. */
  lemma PointSpans(t: string)
    ensures forall k: nat :: PointAt(t, k) ==> Span(t, 0, Digit) == k && Span(t, k + 1, Digit) == |t| - k - 1
  {
    forall k: nat | PointAt(t, k)
      ensures Span(t, 0, Digit) == k && Span(t, k + 1, Digit) == |t| - k - 1
    {
      forall i | 0 <= i < k ensures InClass(t[i], Digit) {
        assert t[i] == t[..k][i];
      }
      SpanIs(t, 0, Digit, k);
      forall i | k + 1 <= i < |t| ensures InClass(t[i], Digit) {
        assert t[i] == t[k + 1..][i - k - 1];
      }
      SpanIs(t, k + 1, Digit, |t| - k - 1);
    }
  }

  /** `float(t)` for an unsigned decimal literal: digits, optionally a point
      and more digits, with at least one digit in all. */
  function ParseUnsigned(t: string): (r: Option<real>)
    ensures r.Some? <==> UnsignedLiteral(t)
    ensures t != [] && AllDigits(t) ==> r == Some(DigitsValue(t) as real)
    ensures forall k: nat :: PointAt(t, k) ==> r == Some(DecimalValue(t[..k], t[k + 1..]))
    ensures r.Some? ==> r.value >= 0.0
    ensures r.Some? ==> IsDigit(t[0]) || t[0] == '.'
  {
    var a := Span(t, 0, Digit);
    SpanShape(t, 0, Digit);
    PointSpans(t);
    assert AllDigits(t) ==> a == |t| by {
      if AllDigits(t) { SpanIs(t, 0, Digit, |t|); }
    }
    if a == |t| then
      if a > 0 then Some(DigitsValue(t) as real) else None
    else if t[a] != '.' then
      None
    else
      var b := Span(t, a + 1, Digit);
      SpanShape(t, a + 1, Digit);
      if a + 1 + b != |t| || (a == 0 && b == 0) then None
      else
        assert AllDigits(t[..a]) by {
          forall i | 0 <= i < a ensures IsDigit(t[..a][i]) { assert InClass(t[i], Digit); }
        }
        assert AllDigits(t[a + 1..]) by {
          var u := t[a + 1..];
          forall i | 0 <= i < |u| ensures IsDigit(u[i]) { assert u[i] == t[a + 1 + i] && InClass(t[a + 1 + i], Digit); }
        }
        assert PointAt(t, a);
        Some(DecimalValue(t[..a], t[a + 1..]))
  }

  /** `float(tok)` for an optionally signed decimal literal; None where Python
      raises ValueError. Only a literal that starts with '-' is negative. */
  function ParseFloat(tok: string): (r: Option<real>)
    ensures r.Some? <==> FloatLiteral(tok)
    ensures r.Some? && r.value < 0.0 ==> |tok| > 0 && tok[0] == '-'
  {
    if tok != [] && (tok[0] == '+' || tok[0] == '-') then
      assert ParseUnsigned(tok).None?;
      match ParseUnsigned(tok[1..])
      case Some(v) => Some(if tok[0] == '-' then -v else v)
      case None => None
    else
      ParseUnsigned(tok)
  }

  /** The value of a literal under its sign. */
  function Signed(sign: char, v: real): real {
    if sign == '-' then -v else v
  }

  /** A sign in front of an unsigned literal applies to its value. */
  lemma SignedOf(sign: char, u: string, v: real)
    requires sign == '+' || sign == '-'
    requires ParseUnsigned(u) == Some(v)
    ensures ParseFloat([sign] + u) == Some(Signed(sign, v))
  {
    assert ([sign] + u)[0] == sign && ([sign] + u)[1..] == u;
  }

  /** A signed literal reads as the value of its digits, negated after '-'. */
  lemma ParseSignedInteger(sign: char, a: string)
    requires sign == '+' || sign == '-'
    requires AllDigits(a) && a != []
    ensures ParseFloat([sign] + a) == Some(Signed(sign, DigitsValue(a) as real))
  {
    SignedOf(sign, a, DigitsValue(a) as real);
  }

  /** A signed literal with a point reads as the value of a.b, negated after '-'. */
  lemma ParseSignedDecimal(sign: char, a: string, b: string)
    requires sign == '+' || sign == '-'
    requires AllDigits(a) && AllDigits(b) && (a != [] || b != [])
    ensures ParseFloat([sign] + (a + "." + b)) == Some(Signed(sign, DecimalValue(a, b)))
  {
    UnsignedDecimal(a, b);
    SignedOf(sign, a + "." + b, DecimalValue(a, b));
  }

  /** Digits, a point and digits form an unsigned literal with the value of a.b. */
  lemma UnsignedDecimal(a: string, b: string)
    requires AllDigits(a) && AllDigits(b) && (a != [] || b != [])
    ensures ParseUnsigned(a + "." + b) == Some(DecimalValue(a, b))
  {
    var u := a + "." + b;
    assert u[..|a|] == a && u[|a| + 1..] == b;
    assert PointAt(u, |a|);
  }

  /** A decimal literal written as digits, a point and digits reads back as
      the value it spells. */
  lemma ParseDecimalLiteral(a: string, b: string)
    requires AllDigits(a) && AllDigits(b) && (a != [] || b != [])
    ensures ParseFloat(a + "." + b) == Some(DecimalValue(a, b))
  {
    var t := a + "." + b;
    assert t[0] == if a != [] then a[0] else '.';
    SpanIs(t, 0, Digit, |a|);
    assert t[|a|] == '.';
    SpanIs(t, |a| + 1, Digit, |b|);
    assert t[..|a|] == a && t[|a| + 1..] == b;
  }

  /** A literal made of digits alone reads back as its integer value. */
  lemma ParseIntegerLiteral(a: string)
    requires AllDigits(a) && a != []
    ensures ParseFloat(a) == Some(DigitsValue(a) as real)
  {
    SpanIs(a, 0, Digit, |a|);
  }
}
