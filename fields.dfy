/**
 * `tws(parse_float)`: one number of a `v`, `vn` or `vt` record and the
 * whitespace after it, as polygon/vertex.rs, polygon/vector.rs and
 * polygon/texture_coordinates.rs read them.
 */
module Fields {
  import opened Nom
  import opened Whitespace
  import opened Integer
  import opened Floats

  /** `tws(tag(t))`: a record's keyword and the whitespace after it. */
  function Keyword(t: string, s: string): (r: Result<string>)
    ensures r.Err? ==> r.failure == Error
    ensures r.Ok? <==> t <= s
    ensures r.Ok? ==> r.rest == SkipSpace(s[|t|..]) && IsSuffix(r.rest, s)
  {
    var r := Tws(Tag(t, s));
    if r.Err? then r
    else
      SuffixOfDrop(s, |t|);
      SuffixTransitive(r.rest, s[|t|..], s);
      r
  }

  /** A keyword followed by text that is not whitespace. */
  lemma KeywordThenText(t: string, x: string)
    requires x == "" || !IsMultispace(x[0])
    ensures Keyword(t, t + x) == Ok(x, t)
  {
    assert (t + x)[|t|..] == x;
    SkipNoSpace(x);
  }

  /** The whitespace after a keyword is skipped up to the first number. */
  lemma KeywordBeforeNumber(t: string, w0: string, n: Number, rest: string)
    requires AllMultispace(w0) && n.Valid()
    ensures Keyword(t, t + (w0 + (n.Text() + rest))) == Ok(n.Text() + rest, t)
  {
    TextStart(n);
    assert (n.Text() + rest)[0] == n.Text()[0];
    assert (t + (w0 + (n.Text() + rest)))[|t|..] == w0 + (n.Text() + rest);
    SkipSpaceOver(w0, n.Text() + rest);
  }

  /**
   * `tws(parse_float)`: fails where no number starts; on success it
   * consumes the number and the whole run of whitespace after it.
   */
  function FloatField(s: string): (r: Result<real>)
    ensures Float(s).Err? ==> r == Err(Error)
    ensures r.Ok? ==> IsSuffix(r.rest, s) && |r.rest| < |s|
    ensures r.Ok? ==> r.rest == "" || !IsMultispace(r.rest[0])
  {
    match ParseFloat(s)
    case Err(f) => Err(f)
    case Ok(rest, v) =>
      FieldProgress(s);
      SuffixTransitive(SkipSpace(rest), rest, s);
      Ok(SkipSpace(rest), v)
  }

  /** `parse_float` consumes something and leaves a suffix. */
  lemma FieldProgress(s: string)
    requires ParseFloat(s).Ok?
    ensures IsSuffix(ParseFloat(s).rest, s) && |ParseFloat(s).rest| < |s|
  {
    var f := Float(s);
    assert f.Ok? && f.rest == ParseFloat(s).rest;
    SuffixOfAppend(f.out, f.rest);
  }

  /** `opt(tws(parse_float))`: a number if one starts here, else nothing. */
  function OptFloatField(s: string): (r: Result<Option<real>>)
    ensures Float(s).Err? ==> r == Ok(s, None)
    ensures r.Ok? ==> IsSuffix(r.rest, s)
    ensures r.Ok? && r.out.None? ==> r.rest == s
    ensures r.Ok? && r.out.Some? ==> r.rest == "" || !IsMultispace(r.rest[0])
  {
    Opt(FloatField(s), s)
  }

  /** Three `tws(parse_float)` one after the other: the `x y z` of a record. */
  function Triple(s: string): (r: Result<(real, real, real)>)
    ensures Float(s).Err? ==> r == Err(Error)
    ensures r.Ok? ==> IsSuffix(r.rest, s) && (r.rest == "" || !IsMultispace(r.rest[0]))
  {
    match FloatField(s)
    case Err(f) => Err(f)
    case Ok(s1, x) =>
      match FloatField(s1)
      case Err(f) => Err(f)
      case Ok(s2, y) =>
        match FloatField(s2)
        case Err(f) => Err(f)
        case Ok(s3, z) =>
          SuffixTransitive(s2, s1, s);
          SuffixTransitive(s3, s2, s);
          Ok(s3, (x, y, z))
  }

  /** No number starts here, so `opt(tws(parse_float))` reads nothing. */
  lemma NoField(x: string)
    requires Float(x).Err?
    ensures OptFloatField(x) == Ok(x, None)
  {}

  /** A letter other than `e` starts no number. */
  lemma LetterIsNoNumber(s: string)
    requires |s| > 0 && 'a' <= s[0] <= 'z'
    ensures Float(s).Err?
  {}

  /** A number's text starts with `-`, `.` or a digit, so it is not whitespace. */
  lemma TextStart(n: Number)
    requires n.Valid()
    ensures |n.Text()| > 0 && !IsMultispace(n.Text()[0])
  {
    UnsignedStart(n);
  }

  /** Whitespace ends a number. */
  lemma SpaceEnds(w: string, x: string)
    requires w != "" && IsMultispace(w[0])
    ensures Ends(w + x)
  {
    assert (w + x)[0] == w[0];
  }

  /** `tws(parse_float)` reads a number, then the whitespace run `w`, up to `x`. */
  lemma FloatFieldOf(n: Number, w: string, x: string)
    requires n.Valid() && AllMultispace(w)
    requires w != "" || Ends(x)
    requires x == "" || !IsMultispace(x[0])
    ensures FloatField(n.Text() + (w + x)) == Ok(x, n.Value())
  {
    if w != "" {
      SpaceEnds(w, x);
    } else {
      assert w + x == x;
    }
    ParseFloatOf(n, w + x);
    SkipSpaceOver(w, x);
  }

  /** A number, `sep` and then what follows, read by `tws(parse_float)`. */
  lemma FieldThen(n: Number, sep: string, m: Number, rest: string)
    requires n.Valid() && m.Valid() && sep != "" && AllMultispace(sep)
    ensures FloatField(n.Text() + (sep + (m.Text() + rest))) == Ok(m.Text() + rest, n.Value())
  {
    TextStart(m);
    assert (m.Text() + rest)[0] == m.Text()[0];
    FloatFieldOf(n, sep, m.Text() + rest);
  }

  /** `Triple` in steps: one `tws(parse_float)` after the other. */
  lemma TripleSteps(s: string, s1: string, s2: string, s3: string, x: real, y: real, z: real)
    requires FloatField(s) == Ok(s1, x) && FloatField(s1) == Ok(s2, y) && FloatField(s2) == Ok(s3, z)
    ensures Triple(s) == Ok(s3, (x, y, z))
  {}

  /**
   * Three numbers, the whitespace runs `sep1` and `sep2` between them and `w` after them:
   * `Triple` reads their values and stops at `x`.
   */
  lemma TripleOf(a: Number, b: Number, c: Number, sep1: string, sep2: string, w: string, x: string)
    requires a.Valid() && b.Valid() && c.Valid()
    requires sep1 != "" && AllMultispace(sep1) && sep2 != "" && AllMultispace(sep2) && AllMultispace(w)
    requires w != "" || Ends(x)
    requires x == "" || !IsMultispace(x[0])
    ensures Triple(a.Text() + (sep1 + (b.Text() + (sep2 + (c.Text() + (w + x))))))
         == Ok(x, (a.Value(), b.Value(), c.Value()))
  {
    var s2 := c.Text() + (w + x);
    var s1 := b.Text() + (sep2 + s2);
    FieldThen(a, sep1, b, sep2 + s2);
    FieldThen(b, sep2, c, w + x);
    FloatFieldOf(c, w, x);
    TripleSteps(a.Text() + (sep1 + s1), s1, s2, x, a.Value(), b.Value(), c.Value());
  }

  /** Two numbers and then no number: `Triple` is refused. */
  lemma TripleMissingOne(a: Number, b: Number, sep: string, w: string, x: string)
    requires a.Valid() && b.Valid()
    requires sep != "" && AllMultispace(sep) && AllMultispace(w)
    requires w != "" || Ends(x)
    requires x == "" || !IsMultispace(x[0])
    requires Float(x).Err?
    ensures Triple(a.Text() + (sep + (b.Text() + (w + x)))) == Err(Error)
  {
    FieldThen(a, sep, b, w + x);
    FloatFieldOf(b, w, x);
  }

  /** One number and then no number: `Triple` is refused. */
  lemma TripleMissingTwo(a: Number, w: string, x: string)
    requires a.Valid() && AllMultispace(w)
    requires w != "" || Ends(x)
    requires x == "" || !IsMultispace(x[0])
    requires Float(x).Err?
    ensures Triple(a.Text() + (w + x)) == Err(Error)
  {
    FloatFieldOf(a, w, x);
  }

  /** The last number read by `opt(tws(parse_float))`. */
  lemma OptFieldLast(n: Number, w: string, x: string)
    requires n.Valid() && AllMultispace(w)
    requires w != "" || Ends(x)
    requires x == "" || !IsMultispace(x[0])
    ensures OptFloatField(n.Text() + (w + x)) == Ok(x, Some(n.Value()))
  {
    FloatFieldOf(n, w, x);
  }

  // ------------------------------------------------------- values of numbers

  /** `(a * q + b) / q` is `a + b / q`. */
  lemma DivideSplit(a: real, b: real, q: real)
    requires q > 0.0
    ensures (a * q + b) / q == a + b / q
  {
    assert (a * q) / q == a;
  }

  /** Scaling digits down by the number of fraction digits splits off the whole part. */
  lemma ScaleSplit(m: nat, whole: nat, frac: nat, k: nat)
    requires m == whole * Pow10(k) + frac
    ensures Scale(m, -(k as int)) == whole as real + frac as real / Pow10(k) as real
  {
    var p := Pow10(k);
    if k == 0 {
      assert p == 1;
    } else {
      var a, b, q := whole as real, frac as real, p as real;
      assert Scale(m, -(k as int)) == m as real / q;
      assert (whole * p) as real == a * q;
      assert m as real == a * q + b;
      DivideSplit(a, b, q);
    }
  }

  /** A number without exponent is its whole part plus its fraction over a power of ten. */
  lemma PointValue(n: Number, whole: nat, frac: nat)
    requires n.Valid() && n.exponent == "" && !n.negative
    requires DigitsValue(n.whole) == whole && DigitsValue(n.frac) == frac
    ensures n.Value() == whole as real + frac as real / Pow10(|n.frac|) as real
  {
    DigitsValueAppend(n.whole, n.frac);
    assert n.Exponent10() == 0;
    ScaleSplit(DigitsValue(n.whole + n.frac), whole, frac, |n.frac|);
  }

  /** The digits `NatToDecimal` writes are worth the number written. */
  lemma DigitsOf(d: string, v: nat)
    requires NatToDecimal(v) == d
    ensures DigitsValue(d) == v
  {
    NatToDecimalValue(v);
  }

  /** A number written with `-` has the opposite value. */
  lemma NegatedValue(n: Number)
    requires n.negative
    ensures n.Value() == -n.(negative := false).Value()
  {}

  /** A run of zeros is worth nothing. */
  lemma {:induction false} ZerosValue(z: string)
    requires forall i :: 0 <= i < |z| ==> z[i] == '0'
    ensures DigitsValue(z) == 0
    decreases |z|
  {
    if |z| > 0 {
      ZerosValue(z[..|z| - 1]);
    }
  }

  // ------------------------------------------------- example numbers, as text and as value

  lemma Number0123()
    ensures Number(false, "0", true, "123", "").Text() == "0.123"
    ensures Number(false, "0", true, "123", "").Value() == 0.123
  {
    DigitsOf("0", 0);
    DigitsOf("123", 123);
    PointValue(Number(false, "0", true, "123", ""), 0, 123);
  }

  lemma NumberMinus0234()
    ensures Number(true, "0", true, "234", "").Text() == "-0.234"
    ensures Number(true, "0", true, "234", "").Value() == -0.234
  {
    DigitsOf("0", 0);
    DigitsOf("234", 234);
    PointValue(Number(false, "0", true, "234", ""), 0, 234);
    NegatedValue(Number(true, "0", true, "234", ""));
  }

  lemma Number2345()
    ensures Number(false, "2", true, "345", "").Text() == "2.345"
    ensures Number(false, "2", true, "345", "").Value() == 2.345
  {
    DigitsOf("2", 2);
    DigitsOf("345", 345);
    PointValue(Number(false, "2", true, "345", ""), 2, 345);
  }
}
