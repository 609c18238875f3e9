/** The product records of the search response, and the normalisation of one
    record that `fetch_amazon_products` performs (app.py lines 115-140): its
    price is read with `extract_price`, its rating and review count are turned
    into numbers, and the missing fields get their defaults. */
module Products {
  import opened Values
  import opened Text
  import opened Price

  /** A numeric field of the response: missing, a number, or a text. */
  datatype RawNumber = NoNumber | Number(value: real) | NumberText(text: string)

  /** The review count: missing, an integer, or a text such as "1,234". */
  datatype RawCount = NoCount | Count(value: int) | CountText(text: string)

  /** One entry of "organic_results", with only the keys the loop reads. */
  datatype RawProduct = RawProduct(
    title: Option<string>,
    priceStr: Field,
    price: Field,
    rating: RawNumber,
    ratingsTotal: RawCount,
    link: Option<string>,
    snippet: Option<string>,
    image: Option<string>,
    delivery: Field,
    prime: Option<bool>)

  /** "price_str" of a normalised record: the price as dollars, or the text
      "Prix non disponible" (the `:.2f` rendering is not modelled). */
  datatype PriceLabel = Dollars(amount: real) | Unavailable

  const UnavailableText: string := "Prix non disponible"
  const DefaultTitle: string := "Produit sans titre"
  const DefaultDescription: string := "Description non disponible"

  /** A record of the list `fetch_amazon_products` returns. */
  datatype Product = Product(
    title: string,
    price: real,
    priceLabel: PriceLabel,
    rating: real,
    reviews: int,
    link: string,
    description: string,
    image: string,
    delivery: Field,
    prime: bool)

  /** `product.get("price_str") or product.get("price", "0")`. */
  function PriceSource(p: RawProduct): (f: Field)
    ensures Truthy(p.priceStr) ==> f == p.priceStr
    ensures !Truthy(p.priceStr) && p.price.Absent? ==> f == Str("0")
    ensures !Truthy(p.priceStr) && !p.price.Absent? ==> f == p.price
  {
    if Truthy(p.priceStr) then p.priceStr
    else if p.price.Absent? then Str("0")
    else p.price
  }

  /** `price_val` of line 115. */
  function PriceOf(p: RawProduct): (r: real)
    ensures r >= 0.0
  {
    ExtractPrice(PriceSource(p))
  }

  /** The filter of line 117, bounds included. */
  predicate InBudget(p: RawProduct, minPrice: real, maxPrice: real) {
    minPrice <= PriceOf(p) <= maxPrice
  }

  /** The rating of lines 118-123: a number is kept; a text becomes its first
      white-space separated word read as a float, or 0 when the text has no
      word or the word is not a number. */
  function RatingOf(r: RawNumber): (v: real)
    ensures r.NoNumber? ==> v == 0.0
    ensures r.Number? ==> v == r.value
    ensures r.NumberText? && AllSpace(r.text) ==> v == 0.0
  {
    match r
    case NoNumber => 0.0
    case Number(x) => x
    case NumberText(t) =>
      match FirstToken(t)
      case None => 0.0
      case Some(tok) => ParseFloat(tok).GetOr(0.0)
  }

  /** `re.sub(r'[^\d]', '', s)`: the digits of `s`, in order. */
  function KeepDigits(s: string): (r: string)
    ensures AllDigits(r) && |r| <= |s|
    ensures AllDigits(s) ==> r == s
    decreases |s|
  {
    if s == [] then []
    else (if IsDigit(s[0]) then [s[0]] else []) + KeepDigits(s[1..])
  }

  /** The review count of lines 125-127: an integer is kept; a text becomes
      the integer its digits spell, or 0 when it has none. */
  function ReviewsOf(r: RawCount): (n: int)
    ensures r.NoCount? ==> n == 0
    ensures r.Count? ==> n == r.value
    ensures r.CountText? ==> n >= 0
  {
    match r
    case NoCount => 0
    case Count(c) => c
    case CountText(t) => DigitsValue(KeepDigits(t))
  }

  /** The "price_str" of line 132. */
  function LabelOf(price: real): (l: PriceLabel)
    ensures price >= 0.0 ==> (l == Unavailable <==> price == 0.0)
    ensures l.Dollars? ==> l.amount == price && price > 0.0
  {
    if price > 0.0 then Dollars(price) else Unavailable
  }

  /** The record lines 129-140 append for `p`. */
  function Normalise(p: RawProduct): (q: Product)
    ensures q.price == PriceOf(p) && q.rating == RatingOf(p.rating) && q.reviews == ReviewsOf(p.ratingsTotal)
    ensures q.priceLabel == Unavailable <==> q.price == 0.0
    ensures q.priceLabel.Dollars? ==> q.priceLabel.amount == q.price
    ensures p.title.None? ==> q.title == DefaultTitle
    ensures p.title.Some? ==> q.title == p.title.value
    ensures p.snippet.None? ==> q.description == DefaultDescription
    ensures p.snippet.Some? ==> q.description == p.snippet.value
    ensures q.link == p.link.GetOr("") && q.image == p.image.GetOr("") && q.prime == p.prime.GetOr(false)
    ensures q.delivery == if p.delivery.Absent? then Str("") else p.delivery
  {
    var price := PriceOf(p);
    Product(
      p.title.GetOr(DefaultTitle),
      price,
      LabelOf(price),
      RatingOf(p.rating),
      ReviewsOf(p.ratingsTotal),
      p.link.GetOr(""),
      p.snippet.GetOr(DefaultDescription),
      p.image.GetOr(""),
      if p.delivery.Absent? then Str("") else p.delivery,
      p.prime.GetOr(false))
  }

  // ---------------------------------------------------------------------------
  // Properties of the normalisation

  /** A record whose price cannot be read has price 0, so it passes the
      default filter [0, max] and is labelled "Prix non disponible". */
  lemma UnpricedPassesDefaultFilter(p: RawProduct, maxPrice: real)
    requires !Truthy(PriceSource(p)) || NoDigit(Head(PriceSource(p)))
    requires maxPrice >= 0.0
    ensures InBudget(p, 0.0, maxPrice)
    ensures Normalise(p).priceLabel == Unavailable
  {
    if Truthy(PriceSource(p)) {
      PriceWithoutDigits(Head(PriceSource(p)));
    }
  }

  /** A truthy "price_str" decides the price; "price" is then never read. */
  lemma PriceStrFirst(p: RawProduct, other: Field)
    requires Truthy(p.priceStr)
    ensures PriceOf(p) == ExtractPrice(p.priceStr)
    ensures PriceOf(p.(price := other)) == PriceOf(p)
  {
  }

  /** Without a truthy "price_str" the price is read from "price"; the
      default "0" for a missing "price" reads as 0, as a missing value does. */
  lemma PriceFallsBack(p: RawProduct)
    requires !Truthy(p.priceStr)
    ensures PriceOf(p) == ExtractPrice(p.price)
  {
    if p.price.Absent? {
      assert KeepNumeric("0") == "0";
      assert CommasToDots("0") == "0";
      assert "0" == [] + "0" + [];
      PriceOfInteger("0", [], "0", []);
    }
  }

  /** When neither field holds a digit the price is 0. */
  lemma PriceWithoutAnyDigit(p: RawProduct)
    requires !Truthy(p.priceStr) || NoDigit(Head(p.priceStr))
    requires !Truthy(p.price) || NoDigit(Head(p.price))
    ensures PriceOf(p) == 0.0
  {
    if Truthy(p.priceStr) {
      PriceWithoutDigits(Head(p.priceStr));
    } else {
      PriceFallsBack(p);
      if Truthy(p.price) {
        PriceWithoutDigits(Head(p.price));
      }
    }
  }

  /** A rating text whose first word is a decimal literal, such as "4.5" or
      "4.5 out of 5 stars", is read as that literal. */
  lemma RatingOfDecimalText(lead: string, a: string, b: string, rest: string)
    requires AllSpace(lead) && AllDigits(a) && AllDigits(b) && (a != [] || b != [])
    requires rest == [] || IsSpace(rest[0])
    ensures RatingOf(NumberText(lead + (a + "." + b) + rest)) == DecimalValue(a, b)
  {
    var word := a + "." + b;
    forall k | 0 <= k < |word| ensures !IsSpace(word[k]) {
      assert IsDigit(word[k]) || word[k] == '.' by {
        if k < |a| { assert word[k] == a[k]; }
        else if k > |a| { assert word[k] == b[k - |a| - 1]; }
      }
    }
    FirstTokenOf(lead, word, rest);
    ParseDecimalLiteral(a, b);
  }

  /** A rating text whose first word is a whole number, such as "4" or
      "4 sur 5", is read as that number. */
  lemma RatingOfIntegerText(lead: string, a: string, rest: string)
    requires AllSpace(lead) && AllDigits(a) && a != []
    requires rest == [] || IsSpace(rest[0])
    ensures RatingOf(NumberText(lead + a + rest)) == DigitsValue(a) as real
  {
    forall k | 0 <= k < |a| ensures !IsSpace(a[k]) {
      assert IsDigit(a[k]);
    }
    FirstTokenOf(lead, a, rest);
    ParseIntegerLiteral(a);
  }

  /** A rating text whose first word is not a number, such as "N/A", reads as 0. */
  lemma RatingOfNonNumber(lead: string, word: string, rest: string)
    requires AllSpace(lead) && word != [] && (forall k :: 0 <= k < |word| ==> !IsSpace(word[k]))
    requires rest == [] || IsSpace(rest[0])
    requires ParseFloat(word).None?
    ensures RatingOf(NumberText(lead + word + rest)) == 0.0
  {
    FirstTokenOf(lead, word, rest);
  }

  /** The first word of `lead + word + rest`, where `lead` is white space and
      white space (or nothing) follows `word`, is `word`. */
  lemma FirstTokenOf(lead: string, word: string, rest: string)
    requires AllSpace(lead) && word != [] && (forall k :: 0 <= k < |word| ==> !IsSpace(word[k]))
    requires rest == [] || IsSpace(rest[0])
    ensures FirstToken(lead + word + rest) == Some(word)
  {
    var s := lead + word + rest;
    assert s[..|lead|] == lead && s[|lead|..|lead| + |word|] == word;
    SpanIs(s, 0, Whitespace, |lead|);
    SpanIs(s, |lead|, NonWhitespace, |word|);
  }

  lemma {:induction false} KeepDigitsAppend(s: string, t: string)
    ensures KeepDigits(s + t) == KeepDigits(s) + KeepDigits(t)
    decreases |s|
  {
    if s == [] {
      assert s + t == t;
    } else {
      var h := if IsDigit(s[0]) then [s[0]] else [];
      assert (s + t)[0] == s[0] && (s + t)[1..] == s[1..] + t;
      KeepDigitsAppend(s[1..], t);
      assert KeepDigits(s + t) == h + (KeepDigits(s[1..]) + KeepDigits(t));
      assert KeepDigits(s) == h + KeepDigits(s[1..]);
    }
  }

  /** A character other than a digit is dropped wherever it stands. */
  lemma KeepDigitsDrops(x: string, c: char, y: string)
    requires !IsDigit(c)
    ensures KeepDigits(x + [c] + y) == KeepDigits(x + y)
  {
    assert x + [c] + y == x + ([c] + y);
    KeepDigitsAppend(x, [c] + y);
    KeepDigitsAppend([c], y);
    assert KeepDigits([c]) == [] by { assert [c][1..] == []; }
    KeepDigitsAppend(x, y);
  }

  /** A digit is kept, in its place among the others. */
  lemma KeepDigitsKeeps(x: string, c: char, y: string)
    requires IsDigit(c)
    ensures KeepDigits(x + [c] + y) == KeepDigits(x) + [c] + KeepDigits(y)
  {
    assert x + [c] + y == x + ([c] + y);
    KeepDigitsAppend(x, [c] + y);
    KeepDigitsAppend([c], y);
    assert KeepDigits([c]) == [c] by { assert [c][1..] == []; }
  }

  /** A text without digits keeps nothing. */
  lemma {:induction false} KeepDigitsNone(s: string)
    requires NoDigit(s)
    ensures KeepDigits(s) == []
    decreases |s|
  {
    if s != [] {
      KeepDigitsNone(s[1..]);
    }
  }

  lemma DigitsAppend(x: string, y: string)
    requires AllDigits(x) && AllDigits(y)
    ensures AllDigits(x + y)
  {
    forall k | 0 <= k < |x + y| ensures IsDigit((x + y)[k]) {
      if k >= |x| { assert (x + y)[k] == y[k - |x|]; }
    }
  }

  lemma Regroup(v: int, p: int, w: int, d: int)
    ensures 10 * (v * p + w) + d == v * (10 * p) + (10 * w + d)
  {
  }

  /** `int` of the digits of `x + y` in terms of the two parts. */
  lemma {:induction false} DigitsValueAppend(x: string, y: string)
    requires AllDigits(x) && AllDigits(y)
    ensures AllDigits(x + y)
    ensures DigitsValue(x + y) == DigitsValue(x) * Pow10(|y|) + DigitsValue(y)
    decreases |y|
  {
    DigitsAppend(x, y);
    if y == [] {
      assert x + y == x;
    } else {
      var y0, c := y[..|y| - 1], y[|y| - 1];
      assert (x + y)[..|x + y| - 1] == x + y0 && (x + y)[|x + y| - 1] == c;
      DigitsValueAppend(x, y0);
      assert DigitsValue(x + y) == 10 * DigitsValue(x + y0) + DigitValue(c);
      assert DigitsValue(y) == 10 * DigitsValue(y0) + DigitValue(c);
      assert Pow10(|y|) == 10 * Pow10(|y0|);
      Regroup(DigitsValue(x), Pow10(|y0|), DigitsValue(y0), DigitValue(c));
    }
  }

  /** A grouped count such as "1,234" or "1 234" reads as the number its
      digits spell: the separator is dropped, not read as a decimal point. */
  lemma ReviewsOfGrouped(a: string, sep: string, b: string)
    requires AllDigits(a) && AllDigits(b) && NoDigit(sep)
    ensures ReviewsOf(CountText(a + sep + b)) == DigitsValue(a) * Pow10(|b|) + DigitsValue(b)
  {
    KeepDigitsNone(sep);
    KeepDigitsAppend(a + sep, b);
    KeepDigitsAppend(a, sep);
    assert KeepDigits(a + sep) == a by { assert a + [] == a; }
    assert KeepDigits(a + sep + b) == a + b;
    DigitsValueAppend(a, b);
  }

  /** A count text without digits, such as "" or "aucun avis", reads as 0. */
  lemma {:induction false} ReviewsWithoutDigits(t: string)
    requires NoDigit(t)
    ensures ReviewsOf(CountText(t)) == 0
    decreases |t|
  {
    if t != [] {
      ReviewsWithoutDigits(t[1..]);
      assert KeepDigits(t) == KeepDigits(t[1..]);
    }
  }
}
