/** The `float` lexeme recogniser and `parse_float` (common/float.rs). */
module Floats {
  import opened Nom
  import opened Integer

  predicate IsExponentMarker(c: char) {
    c == 'e' || c == 'E'
  }

  predicate NotExponentMarker(c: char) {
    !IsExponentMarker(c)
  }

  /** `opt(one_of("+-"))` then `decimal`: the exponent's digits with their optional sign. */
  function SignedDecimal(s: string): (r: Result<string>)
    ensures r.Ok? <==> (|s| > 0 && IsDigit(s[0])) || (|s| > 1 && s[0] in "+-" && IsDigit(s[1]))
    ensures r.Err? ==> r.failure == Error
    ensures r.Ok? ==> IsSuffix(r.rest, s)
  {
    OptOneOf("+-", s);
    match Opt(OneOf("+-", s), s)
    case Err(f) => Err(f)
    case Ok(s1, _) =>
      match Decimal(s1)
      case Err(f) => Err(f)
      case Ok(s2, d) =>
        SuffixOfAppend(d, s2);
        SuffixOfDrop(s, |s| - |s1|);
        SuffixTransitive(s2, s1, s);
        Ok(s2, Consumed(s, s2))
  }

  /** `tuple((one_of("eE"), opt(one_of("+-")), decimal))`: an exponent. */
  function Exponent(s: string): (r: Result<string>)
    ensures r.Ok? <==> |s| > 0 && IsExponentMarker(s[0]) && var s1 := s[1..];
                       ((|s1| > 0 && IsDigit(s1[0])) || (|s1| > 1 && s1[0] in "+-" && IsDigit(s1[1])))
    ensures r.Err? ==> r.failure == Error
    ensures r.Ok? ==> r.out + r.rest == s
  {
    match OneOf("eE", s)
    case Err(f) => Err(f)
    case Ok(s1, _) =>
      match SignedDecimal(s1)
      case Err(f) => Err(f)
      case Ok(s2, _) =>
        SuffixOfDrop(s, 1);
        SuffixTransitive(s2, s1, s);
        Ok(s2, Consumed(s, s2))
  }

  /** `preceded(char('.'), decimal)`: a fraction. */
  function Fraction(s: string): (r: Result<string>)
    ensures r.Ok? <==> |s| > 1 && s[0] == '.' && IsDigit(s[1])
    ensures r.Err? ==> r.failure == Error
    ensures r.Ok? ==> IsSuffix(r.rest, s)
    ensures r.Ok? ==> |r.rest| < |s|
  {
    match Char('.', s)
    case Err(f) => Err(f)
    case Ok(s1, _) => Decimal(s1)
  }

  /** Case one, `recognize(tuple((char('.'), decimal, opt(exponent))))`: ".42". */
  function LeadingDot(s: string): (r: Result<string>)
    ensures r.Ok? <==> |s| > 1 && s[0] == '.' && IsDigit(s[1])
    ensures r.Err? ==> r.failure == Error
    ensures r.Ok? ==> r.out + r.rest == s
    ensures r.Ok? ==> |r.rest| < |s|
  {
    match Fraction(s)
    case Err(f) => Err(f)
    case Ok(s1, _) =>
      match Opt(Exponent(s1), s1)
      case Err(f) => Err(f)
      case Ok(s2, _) =>
        SuffixTransitive(s2, s1, s);
        Recognize(s, Ok(s2, ()))
  }

  /**
   * Case two, `recognize(tuple((decimal, opt(preceded(char('.'), decimal)),
   * one_of("eE"), opt(one_of("+-")), decimal)))`: "42e42" and "42.42e42". Its
   * last three parsers are the exponent.
   */
  function Scientific(s: string): (r: Result<string>)
    ensures r.Ok? ==> |s| > 0 && IsDigit(s[0])
    ensures r.Err? ==> r.failure == Error
    ensures r.Ok? ==> r.out + r.rest == s
    ensures r.Ok? ==> |r.rest| < |s|
  {
    match Decimal(s)
    case Err(f) => Err(f)
    case Ok(s1, _) =>
      match Opt(Fraction(s1), s1)
      case Err(f) => Err(f)
      case Ok(s2, _) =>
        match Exponent(s2)
        case Err(f) => Err(f)
        case Ok(s3, _) =>
          SuffixTransitive(s3, s2, s1);
          SuffixTransitive(s3, s1, s);
          Recognize(s, Ok(s3, ()))
  }

  /** `opt(decimal)`: digits after a dot, if any. */
  function OptDecimal(s: string): (r: Result<Option<string>>)
    ensures r.Ok? && IsSuffix(r.rest, s)
  {
    Opt(Decimal(s), s)
  }

  /** Case three, `recognize(tuple((decimal, char('.'), opt(decimal))))`: "42." and "42.42". */
  function TrailingDot(s: string): (r: Result<string>)
    ensures r.Ok? <==> |s| > 0 && IsDigit(s[0]) && var d := Decimal(s).rest; |d| > 0 && d[0] == '.'
    ensures r.Err? ==> r.failure == Error
    ensures r.Ok? ==> r.out + r.rest == s
    ensures r.Ok? ==> |r.rest| < |s|
  {
    match Decimal(s)
    case Err(f) => Err(f)
    case Ok(s1, _) =>
      match Char('.', s1)
      case Err(f) => Err(f)
      case Ok(s2, _) =>
        match OptDecimal(s2)
        case Err(f) => Err(f)
        case Ok(s3, _) =>
          assert s2 == s[|s| - |s2|..];
          Recognize(s, Ok(s3, ()))
  }

  /** `alt((case one, case two, case three, decimal))`: the number after its optional sign. */
  function Unsigned(b: string): (r: Result<string>)
    ensures r.Ok? <==> (|b| > 0 && IsDigit(b[0])) || (|b| > 1 && b[0] == '.' && IsDigit(b[1]))
    ensures r.Err? ==> r.failure == Error
    ensures r.Ok? ==> r.out + r.rest == b
    ensures r.Ok? ==> |r.rest| < |b|
  {
    Alt(LeadingDot(b), Alt(Scientific(b), Alt(TrailingDot(b), Decimal(b))))
  }

  /**
   * `float`: `recognize(preceded(opt(char('-')), alt((case one, case two,
   * case three, decimal))))`. It succeeds exactly when, after an optional
   * `-`, the input starts with a digit or with `.` and a digit; it never
   * panics, and its output is the text it consumed.
   */
  function Float(s: string): (r: Result<string>)
    ensures r.Ok? <==> var b := if |s| > 0 && s[0] == '-' then s[1..] else s;
                       (|b| > 0 && IsDigit(b[0])) || (|b| > 1 && b[0] == '.' && IsDigit(b[1]))
    ensures r.Err? ==> r.failure == Error
    ensures r.Ok? ==> r.out + r.rest == s
    ensures r.Ok? ==> |r.rest| < |s|
  {
    match Opt(Char('-', s), s)
    case Err(f) => Err(f)
    case Ok(b, _) =>
      match Unsigned(b)
      case Err(f) => Err(f)
      case Ok(rest, _) =>
        assert IsSuffix(b, s);
        assert IsSuffix(rest, b);
        SuffixTransitive(rest, b, s);
        Recognize(s, Ok(rest, ()))
  }

  // ---------------------------------------------------------------- the value

  /** `m` times ten to the `e`, exactly. */
  function Scale(m: nat, e: int): real {
    if e >= 0 then (m * Pow10(e)) as real else m as real / Pow10(-e) as real
  }

  /** An exponent's digits with their optional sign. */
  function ExponentValue(x: string): int {
    if |x| > 0 && x[0] == '-' then -(DigitsValue(x[1..]) as int)
    else if |x| > 0 && x[0] == '+' then DigitsValue(x[1..])
    else DigitsValue(x)
  }

  /** Value of an unsigned lexeme: a mantissa, then an optional exponent from its marker on. */
  function UnsignedValue(b: string): real {
    var m := Span(NotExponentMarker, b);
    MantissaValue(b[..m], if m < |b| then ExponentValue(b[m + 1..]) else 0)
  }

  /** Value of whole digits, an optional `.` and fraction digits, times ten to the `e`. */
  function MantissaValue(mant: string, e: int): real {
    var p := Span(NotDot, mant);
    var frac := if p < |mant| then mant[p + 1..] else "";
    Scale(DigitsValue(mant[..p] + frac), e - |frac|)
  }

  /**
   * The exact value of a `float` lexeme without `_`, which is what
   * `str::parse::<f64>` rounds to the nearest double.
   */
  function LexemeValue(t: string): real {
    if |t| > 0 && t[0] == '-' then -UnsignedValue(t[1..]) else UnsignedValue(t)
  }

  /**
   * `parse_float`: `map(float, string_to_float)`. `string_to_float`'s
   * `unwrap` panics on a lexeme with `_`, which `f64`'s parser rejects; every
   * other lexeme `float` recognises is one it accepts.
   */
  function ParseFloat(s: string): (r: Result<real>)
    ensures r == Err(Error) <==> Float(s).Err?
    ensures r == Err(Panic) <==> Float(s).Ok? && '_' in Float(s).out
    ensures r.Ok? ==> r.rest == Float(s).rest && r.out == LexemeValue(Float(s).out)
  {
    match Float(s)
    case Err(f) => Err(f)
    case Ok(rest, text) => if '_' in text then Err(Panic) else Ok(rest, LexemeValue(text))
  }

  // ---------------------------------------------------------- numbers as text

  /** An exponent: `e` or `E`, an optional sign, and one or more digits. */
  predicate IsExponentText(e: string) {
    |e| > 1 && IsExponentMarker(e[0]) &&
    var d := if e[1] in "+-" then e[2..] else e[1..];
    |d| > 0 && AllDigits(d)
  }

  /** What may follow a number without `float` reading it into the number. */
  predicate Ends(x: string) {
    x == "" || (!IsDigitOrUnderscore(x[0]) && x[0] != '.' && Exponent(x).Err?)
  }

  /** A number written the way `float` reads it: `-`, digits, `.`, digits, exponent. */
  datatype Number = Number(negative: bool, whole: string, dot: bool, frac: string, exponent: string)
  {
    /**
     * The forms `float` reads completely: ".42" and ".42e1", "42e1" and
     * "42.42e1", "42." and "42.42", "42" (a dot followed straight by an
     * exponent, "42.e1", stops after the dot).
     */
    predicate Valid() {
      && AllDigits(whole) && AllDigits(frac)
      && (exponent == "" || IsExponentText(exponent))
      && (!dot ==> frac == "")
      && (whole == "" ==> dot && frac != "")
      && (dot && frac == "" ==> exponent == "")
    }

    function DotText(): string {
      if dot then "." else ""
    }

    function Unsigned(): string {
      whole + (DotText() + (frac + exponent))
    }

    function Text(): string {
      if negative then "-" + Unsigned() else Unsigned()
    }

    function Exponent10(): int {
      if exponent == "" then 0 else ExponentValue(exponent[1..])
    }

    /** The exact value the text denotes. */
    function Value(): real {
      var v := Scale(DigitsValue(whole + frac), Exponent10() - |frac|);
      if negative then -v else v
    }
  }

  lemma Associative(a: string, b: string, c: string)
    ensures (a + b) + c == a + (b + c)
  {}

  /** An exponent followed by something that is not a digit is read whole. */
  lemma ExponentOf(e: string, x: string)
    requires IsExponentText(e)
    requires x == "" || !IsDigitOrUnderscore(x[0])
    ensures Exponent(e + x) == Ok(x, e)
  {
    var s := e + x;
    var k := if e[1] in "+-" then 2 else 1;
    var d := e[k..];
    DropAppend(e, x, k);
    DecimalOf(d, x);
    DropAppend(e, x, 1);
    if k == 1 {
      assert s[1] == e[1];
    }
  }

  /** A dot and digits followed by something that is not a digit is a fraction. */
  lemma FractionOf(f: string, x: string)
    requires |f| > 0 && AllDigits(f)
    requires x == "" || !IsDigitOrUnderscore(x[0])
    ensures Fraction("." + (f + x)) == Ok(x, f)
  {
    assert ("." + (f + x))[1..] == f + x;
    DecimalOf(f, x);
  }

  /** An exponent, or nothing, followed by the end of a number. */
  lemma OptExponentOf(e: string, x: string)
    requires e == "" || IsExponentText(e)
    requires Ends(x)
    ensures Opt(Exponent(e + x), e + x).Ok? && Opt(Exponent(e + x), e + x).rest == x
  {
    if e != "" {
      ExponentOf(e, x);
    } else {
      assert e + x == x;
    }
  }

  /** Case one reads ".42" and ".42e1" up to the end of the number. */
  lemma LeadingDotOf(f: string, e: string, x: string)
    requires |f| > 0 && AllDigits(f)
    requires e == "" || IsExponentText(e)
    requires Ends(x)
    ensures LeadingDot("." + (f + (e + x))).Ok? && LeadingDot("." + (f + (e + x))).rest == x
  {
    FractionOf(f, e + x);
    OptExponentOf(e, x);
  }

  /** Case two reads "42e1" and "42.42e1" up to the end of the number. */
  lemma ScientificOf(w: string, d: string, f: string, e: string, x: string)
    requires |w| > 0 && AllDigits(w) && AllDigits(f)
    requires (d == "." && f != "") || (d == "" && f == "")
    requires IsExponentText(e)
    requires x == "" || !IsDigitOrUnderscore(x[0])
    ensures Scientific(w + (d + (f + (e + x)))).Ok? && Scientific(w + (d + (f + (e + x)))).rest == x
  {
    var tail := d + (f + (e + x));
    if d == "" {
      assert tail == e + x;
      assert Opt(Fraction(tail), tail) == Ok(e + x, None);
    } else {
      FractionOf(f, e + x);
    }
    ScientificTail(w, tail, e, x);
  }

  lemma ScientificTail(w: string, tail: string, e: string, x: string)
    requires |w| > 0 && AllDigits(w)
    requires Opt(Fraction(tail), tail).Ok? && Opt(Fraction(tail), tail).rest == e + x
    requires |tail| > 0 && (tail[0] == '.' || IsExponentMarker(tail[0]))
    requires IsExponentText(e)
    requires x == "" || !IsDigitOrUnderscore(x[0])
    ensures Scientific(w + tail).Ok? && Scientific(w + tail).rest == x
  {
    assert Decimal(w + tail) == Ok(tail, w) by {
      DecimalOf(w, tail);
    }
    assert Exponent(e + x) == Ok(x, e) by {
      ExponentOf(e, x);
    }
    ScientificSteps(w + tail, tail, e + x, x);
  }

  /** Case two's three steps, one after the other. */
  lemma ScientificSteps(s: string, s1: string, s2: string, s3: string)
    requires Decimal(s).Ok? && Decimal(s).rest == s1
    requires Opt(Fraction(s1), s1).Ok? && Opt(Fraction(s1), s1).rest == s2
    requires Exponent(s2).Ok? && Exponent(s2).rest == s3
    ensures Scientific(s).Ok? && Scientific(s).rest == s3
  {}

  /** Without an exponent, case two fails on "42." and "42.42". */
  lemma ScientificFailsOnDot(w: string, f: string, x: string)
    requires |w| > 0 && AllDigits(w) && AllDigits(f)
    requires Ends(x)
    ensures Scientific(w + ("." + (f + x))) == Err(Error)
  {
    if f != "" {
      ScientificFailsOnFraction(w, f, x);
    } else {
      assert "." + (f + x) == "." + x;
      ScientificFailsOnBareDot(w, x);
    }
  }

  lemma ScientificFailsOnFraction(w: string, f: string, x: string)
    requires |w| > 0 && AllDigits(w) && |f| > 0 && AllDigits(f)
    requires Ends(x)
    ensures Scientific(w + ("." + (f + x))) == Err(Error)
  {
    var tail := "." + (f + x);
    DecimalOf(w, tail);
    FractionOf(f, x);
    ScientificStops(w + tail, tail, x);
  }

  lemma ScientificFailsOnBareDot(w: string, x: string)
    requires |w| > 0 && AllDigits(w)
    requires Ends(x)
    ensures Scientific(w + ("." + x)) == Err(Error)
  {
    var tail := "." + x;
    DecimalOf(w, tail);
    assert tail[0] == '.' && (|x| > 0 ==> tail[1] == x[0]);
    assert Opt(Fraction(tail), tail) == Ok(tail, None);
    ScientificStops(w + tail, tail, tail);
  }

  /** Case two fails when no exponent follows the digits and the optional fraction. */
  lemma ScientificStops(s: string, s1: string, s2: string)
    requires Decimal(s).Ok? && Decimal(s).rest == s1
    requires Opt(Fraction(s1), s1).Ok? && Opt(Fraction(s1), s1).rest == s2
    requires Exponent(s2).Err?
    ensures Scientific(s) == Err(Error)
  {}

  /** Case three reads "42." and "42.42" up to the end of the number. */
  lemma TrailingDotOf(w: string, f: string, x: string)
    requires |w| > 0 && AllDigits(w) && AllDigits(f)
    requires Ends(x)
    ensures TrailingDot(w + ("." + (f + x))).Ok? && TrailingDot(w + ("." + (f + x))).rest == x
  {
    DecimalOf(w, "." + (f + x));
    assert ("." + (f + x))[1..] == f + x;
    if f != "" {
      DecimalOf(f, x);
    } else {
      assert f + x == x;
    }
  }

  /** Cases two and three fail on a bare "42", which case four reads. */
  lemma IntegerOnly(w: string, x: string)
    requires |w| > 0 && AllDigits(w)
    requires Ends(x)
    ensures Scientific(w + x) == Err(Error) && TrailingDot(w + x) == Err(Error)
    ensures Decimal(w + x) == Ok(x, w)
  {
    DecimalOf(w, x);
  }

  /** The alternatives together read a number's unsigned text up to its end. */
  lemma UnsignedOf(n: Number, x: string)
    requires n.Valid() && Ends(x)
    ensures Unsigned(n.Unsigned() + x).Ok? && Unsigned(n.Unsigned() + x).rest == x
  {
    var w, d, f, e := n.whole, n.DotText(), n.frac, n.exponent;
    Associative(f, e, x);
    Associative(d, f + e, x);
    Associative(w, d + (f + e), x);
    assert n.Unsigned() + x == w + (d + (f + (e + x)));
    if w == "" {
      UnsignedLeadingDot(f, e, x);
    } else {
      UnsignedWithWhole(w, d, f, e, x);
    }
  }

  lemma UnsignedLeadingDot(f: string, e: string, x: string)
    requires |f| > 0 && AllDigits(f)
    requires e == "" || IsExponentText(e)
    requires Ends(x)
    ensures var b := "" + ("." + (f + (e + x)));
      Unsigned(b).Ok? && Unsigned(b).rest == x
  {
    assert "" + ("." + (f + (e + x))) == "." + (f + (e + x));
    LeadingDotOf(f, e, x);
  }

  lemma UnsignedWithWhole(w: string, d: string, f: string, e: string, x: string)
    requires |w| > 0 && AllDigits(w) && AllDigits(f)
    requires (d == "." && (f != "" || e == "")) || (d == "" && f == "")
    requires e == "" || IsExponentText(e)
    requires Ends(x)
    ensures var b := w + (d + (f + (e + x)));
      Unsigned(b).Ok? && Unsigned(b).rest == x
  {
    var b := w + (d + (f + (e + x)));
    assert b[0] == w[0];
    if e != "" {
      ScientificOf(w, d, f, e, x);
      AltSecond(b);
    } else if d == "." {
      assert b == w + ("." + (f + x));
      ScientificFailsOnDot(w, f, x);
      TrailingDotOf(w, f, x);
      AltThird(b);
    } else {
      assert b == w + x;
      IntegerOnly(w, x);
      AltFourth(b);
    }
  }

  lemma AltSecond(b: string)
    requires |b| > 0 && IsDigit(b[0])
    requires Scientific(b).Ok?
    ensures Unsigned(b) == Scientific(b)
  {}

  lemma AltThird(b: string)
    requires |b| > 0 && IsDigit(b[0])
    requires Scientific(b) == Err(Error) && TrailingDot(b).Ok?
    ensures Unsigned(b) == TrailingDot(b)
  {}

  lemma AltFourth(b: string)
    requires |b| > 0 && IsDigit(b[0])
    requires Scientific(b) == Err(Error) && TrailingDot(b) == Err(Error)
    ensures Unsigned(b) == Decimal(b)
  {}

  /** `float` reads an optional `-` and then what the alternatives read. */
  lemma SignedOf(negative: bool, u: string, x: string)
    requires |u| > 0 && (u[0] == '.' || IsDigit(u[0]))
    requires Unsigned(u + x).Ok? && Unsigned(u + x).rest == x
    ensures var t := if negative then "-" + u else u;
      Float(t + x) == Ok(x, t)
  {
    var t := if negative then "-" + u else u;
    var s := t + x;
    if negative {
      Associative("-", u, x);
      NegativeOf(u + x, x, s);
    } else {
      assert s[0] == u[0];
      assert Opt(Char('-', s), s) == Ok(s, None);
    }
    var r := Float(s);
    assert r.out + x == t + x;
    assert r.out == (r.out + x)[..|r.out|];
  }

  lemma NegativeOf(b: string, x: string, s: string)
    requires |s| > 0 && s[0] == '-' && b == s[1..]
    requires Unsigned(b).Ok? && Unsigned(b).rest == x
    ensures Float(s).Ok? && Float(s).rest == x
  {
    assert Opt(Char('-', s), s) == Ok(b, Some('-'));
  }

  /** `float` reads a number's text up to the end of the number, and outputs exactly that text. */
  lemma FloatOf(n: Number, x: string)
    requires n.Valid() && Ends(x)
    ensures Float(n.Text() + x) == Ok(x, n.Text())
  {
    UnsignedStart(n);
    UnsignedOf(n, x);
    SignedOf(n.negative, n.Unsigned(), x);
  }

  lemma DigitsAreNotMarkers(d: string)
    requires AllDigits(d)
    ensures forall i :: 0 <= i < |d| ==> NotExponentMarker(d[i]) && NotDot(d[i]) && d[i] != '_'
  {}

  lemma NoMarkerAppend(a: string, b: string)
    requires forall i :: 0 <= i < |a| ==> NotExponentMarker(a[i])
    requires forall i :: 0 <= i < |b| ==> NotExponentMarker(b[i])
    ensures forall i :: 0 <= i < |a + b| ==> NotExponentMarker((a + b)[i])
  {}

  /** A mantissa followed by an exponent (or nothing) splits at the marker. */
  lemma UnsignedValueSplit(mant: string, e: string)
    requires forall i :: 0 <= i < |mant| ==> NotExponentMarker(mant[i])
    requires e == "" || IsExponentMarker(e[0])
    ensures UnsignedValue(mant + e) == MantissaValue(mant, if e == "" then 0 else ExponentValue(e[1..]))
  {
    var u := mant + e;
    SpanIs(NotExponentMarker, e, 0);
    SpanAppend(NotExponentMarker, mant, e);
    assert u[..|mant|] == mant;
    if e != "" {
      assert u[|mant| + 1..] == e[1..];
    }
  }

  /** Whole digits, a dot, and fraction digits have the value of all the digits over a power of ten. */
  lemma MantissaValueOf(w: string, d: string, f: string, e: int)
    requires AllDigits(w) && AllDigits(f)
    requires d == "." || (d == "" && f == "")
    ensures MantissaValue(w + (d + f), e) == Scale(DigitsValue(w + f), e - |f|)
  {
    if d == "." {
      MantissaDotted(w, f, e);
    } else {
      assert w + (d + f) == w && w + f == w;
      MantissaWhole(w, e);
    }
  }

  lemma MantissaDotted(w: string, f: string, e: int)
    requires AllDigits(w)
    ensures MantissaValue(w + ("." + f), e) == Scale(DigitsValue(w + f), e - |f|)
  {
    var mant := w + ("." + f);
    DigitsAreNotMarkers(w);
    SpanIs(NotDot, "." + f, 0);
    SpanAppend(NotDot, w, "." + f);
    assert mant[..|w|] == w;
    assert mant[|w| + 1..] == f;
  }

  lemma MantissaWhole(w: string, e: int)
    requires AllDigits(w)
    ensures MantissaValue(w, e) == Scale(DigitsValue(w), e)
  {
    DigitsAreNotMarkers(w);
    SpanIs(NotDot, w, |w|);
    assert w[..|w|] + "" == w;
  }

  /** What a valid number's value rests on: digits, a dot or nothing, an exponent marker or nothing. */
  lemma ValidParts(n: Number)
    requires n.Valid()
    ensures AllDigits(n.whole) && AllDigits(n.frac) && (n.dot || n.frac == "")
    ensures n.exponent == "" || IsExponentMarker(n.exponent[0])
  {}

  /** The value of a number's unsigned text is its digits scaled by its exponent. */
  lemma UnsignedValueOf(n: Number)
    requires AllDigits(n.whole) && AllDigits(n.frac) && (n.dot || n.frac == "")
    requires n.exponent == "" || IsExponentMarker(n.exponent[0])
    ensures UnsignedValue(n.Unsigned()) == Scale(DigitsValue(n.whole + n.frac), n.Exponent10() - |n.frac|)
  {
    PartsValue(n.whole, n.DotText(), n.frac, n.exponent);
  }

  lemma PartsValue(w: string, d: string, f: string, e: string)
    requires AllDigits(w) && AllDigits(f)
    requires d == "." || (d == "" && f == "")
    requires e == "" || IsExponentMarker(e[0])
    ensures var e10 := if e == "" then 0 else ExponentValue(e[1..]);
      UnsignedValue(w + (d + (f + e))) == Scale(DigitsValue(w + f), e10 - |f|)
  {
    var mant := w + (d + f);
    Associative(d, f, e);
    Associative(w, d + f, e);
    DigitsAreNotMarkers(w);
    DigitsAreNotMarkers(f);
    NoMarkerAppend(d, f);
    NoMarkerAppend(w, d + f);
    UnsignedValueSplit(mant, e);
    MantissaValueOf(w, d, f, if e == "" then 0 else ExponentValue(e[1..]));
  }

  /** An optional `-` negates the value of what follows it. */
  lemma SignedValue(negative: bool, u: string)
    requires |u| > 0 && u[0] != '-'
    ensures LexemeValue(if negative then "-" + u else u) == if negative then -UnsignedValue(u) else UnsignedValue(u)
  {
    if negative {
      assert ("-" + u)[1..] == u;
    }
  }

  /** The value of a number's text is the number's value. */
  lemma LexemeValueOf(n: Number)
    requires n.Valid()
    ensures LexemeValue(n.Text()) == n.Value()
  {
    var u := n.Unsigned();
    UnsignedStart(n);
    ValidParts(n);
    UnsignedValueOf(n);
    SignedValue(n.negative, u);
    assert n.Text() == if n.negative then "-" + u else u;
  }

  /** A number's unsigned text starts with a digit or with its dot. */
  lemma UnsignedStart(n: Number)
    requires n.Valid()
    ensures |n.Unsigned()| > 0 && (n.Unsigned()[0] == '.' || IsDigit(n.Unsigned()[0]))
  {
    assert n.Unsigned()[0] == (if n.whole == "" then '.' else n.whole[0]);
  }

  /** An exponent holds no `_`. */
  lemma ExponentHasNoUnderscore(e: string)
    requires IsExponentText(e)
    ensures '_' !in e
  {
    var k := if e[1] in "+-" then 2 else 1;
    assert e == e[..k] + e[k..];
    DigitsAreNotMarkers(e[k..]);
    if k == 2 {
      assert e[..k] == [e[0], e[1]];
    } else {
      assert e[..k] == [e[0]];
    }
  }

  /** A number's text holds no `_`, so `f64`'s parser accepts it. */
  lemma NoUnderscore(n: Number)
    requires n.Valid()
    ensures '_' !in n.Text()
  {
    DigitsAreNotMarkers(n.whole);
    DigitsAreNotMarkers(n.frac);
    if n.exponent != "" {
      ExponentHasNoUnderscore(n.exponent);
    }
  }

  /** `parse_float` reads every number back as its exact value (before rounding to `f64`). */
  lemma ParseFloatOf(n: Number, x: string)
    requires n.Valid() && Ends(x)
    ensures ParseFloat(n.Text() + x) == Ok(x, n.Value())
  {
    FloatOf(n, x);
    LexemeValueOf(n);
    NoUnderscore(n);
  }

  // ------------------------------------------------------------------ examples

  /** `test_float`, first case: a leading dot. */
  lemma FloatExampleLeadingDot()
    ensures Float(".42") == Ok("", ".42")
  {
    var n := Number(false, "", true, "42", "");
    assert n.Text() == ".42";
    assert n.Text() + "" == ".42";
    FloatOf(n, "");
  }

  /** `test_float`, second case: a trailing dot. */
  lemma FloatExampleTrailingDot()
    ensures Float("1.") == Ok("", "1.")
  {
    var n := Number(false, "1", true, "", "");
    assert n.Text() == "1.";
    assert n.Text() + "" == "1.";
    FloatOf(n, "");
  }

  /** `test_float`, third case: a signed exponent, stopped by a letter. */
  lemma FloatExampleNegative()
    ensures Float("-7.42e+13b") == Ok("b", "-7.42e+13")
  {
    var n := Number(true, "7", true, "42", "e+13");
    assert n.Text() == "-7.42e+13";
    assert n.Text() + "b" == "-7.42e+13b";
    FloatOf(n, "b");
  }

  /** `test_float`, fourth case: a negative exponent, stopped by a space. */
  lemma FloatExampleExponent()
    ensures Float("3.42e-15 ") == Ok(" ", "3.42e-15")
  {
    var n := Number(false, "3", true, "42", "e-15");
    assert n.Text() == "3.42e-15";
    assert n.Text() + " " == "3.42e-15 ";
    FloatOf(n, " ");
  }

  lemma Value0187()
    ensures Number(false, "0", true, "187", "").Value() == 0.187
  {
    var n := Number(false, "0", true, "187", "");
    assert NatToDecimal(187) == "187";
    NatToDecimalValue(187);
    DigitsValueAppend("0", "187");
    assert n.whole + n.frac == "0" + "187";
    assert DigitsValue(n.whole + n.frac) == 187;
    assert Pow10(3) == 1000;
  }

  /** `test_parse_float`, first case. */
  lemma ParseFloatExampleSpace()
    ensures ParseFloat("0.187 ") == Ok(" ", 0.187)
  {
    var n := Number(false, "0", true, "187", "");
    Value0187();
    assert n.Text() + " " == "0.187 ";
    ParseFloatOf(n, " ");
  }

  lemma Value314159()
    ensures Number(true, "3", true, "14159", "").Value() == -3.14159
  {
    var n := Number(true, "3", true, "14159", "");
    assert NatToDecimal(14159) == "14159";
    NatToDecimalValue(14159);
    DigitsValueAppend("3", "14159");
    assert n.whole + n.frac == "3" + "14159";
    assert DigitsValue(n.whole + n.frac) == 314159;
    assert Pow10(5) == 100000;
  }

  /** `test_parse_float`, second case. */
  lemma ParseFloatExampleNegative()
    ensures ParseFloat("-3.14159") == Ok("", -3.14159)
  {
    var n := Number(true, "3", true, "14159", "");
    Value314159();
    assert n.Text() + "" == "-3.14159";
    ParseFloatOf(n, "");
  }

  /** `test_parse_float`, third case: an `e` without exponent digits is left over. */
  lemma ParseFloatExampleBareMarker()
    ensures ParseFloat("0.187e") == Ok("e", 0.187)
  {
    var n := Number(false, "0", true, "187", "");
    Value0187();
    assert n.Text() + "e" == "0.187e";
    ParseFloatOf(n, "e");
  }
}
