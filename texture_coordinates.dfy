/**
 * `parse_texture_coordinates` (obj/polygon/texture_coordinates.rs): a
 * texture vertex, `vt u [v [w]]`.
 */
module Textures {
  import opened Nom
  import opened Whitespace
  import opened Integer
  import opened Floats
  import opened Fields

  /** Texture coordinates; `v` and `w` are 0.0 when the record leaves them out. */
  datatype TextureCoordinates = TextureCoordinates(u: real, v: real, w: real)

  /**
   * `parse_texture_coordinates`: the keyword `vt` and its whitespace, one
   * number, then up to two more, each with the whitespace after it. The
   * range check the source sketches has empty bodies, so any value is kept.
   */
  function ParseTextureCoordinates(s: string): (r: Result<TextureCoordinates>)
    ensures !("vt" <= s) ==> r == Err(Error)
    ensures r.Ok? ==> IsSuffix(r.rest, s)
  {
    match Keyword("vt", s)
    case Err(f) => Err(f)
    case Ok(s1, _) =>
      match FloatField(s1)
      case Err(f) => Err(f)
      case Ok(s2, u) =>
        match OptFloatField(s2)
        case Err(f) => Err(f)
        case Ok(s3, v) =>
          match OptFloatField(s3)
          case Err(f) => Err(f)
          case Ok(s4, w) =>
            SuffixTransitive(s3, s2, s1);
            SuffixTransitive(s4, s3, s1);
            SuffixTransitive(s4, s1, s);
            Ok(s4, TextureCoordinates(u, v.UnwrapOr(0.0), w.UnwrapOr(0.0)))
  }

  /** `parse_texture_coordinates` in steps: the keyword, `u`, then `v` and `w` if present. */
  lemma TextureSteps(s: string, s1: string, s2: string, s3: string, s4: string,
                     t: TextureCoordinates, v: Option<real>, w: Option<real>)
    requires Keyword("vt", s) == Ok(s1, "vt")
    requires FloatField(s1) == Ok(s2, t.u)
    requires OptFloatField(s2) == Ok(s3, v) && t.v == v.UnwrapOr(0.0)
    requires OptFloatField(s3) == Ok(s4, w) && t.w == w.UnwrapOr(0.0)
    ensures ParseTextureCoordinates(s) == Ok(s4, t)
  {}

  /**
   * A `vt` record of one number read back: `v` and `w` are 0.0, and the
   * value is kept whatever it is, inside [0, 1] or not.
   */
  lemma ParseTextureCoordinatesOfOne(w0: string, a: Number, w: string, x: string)
    requires a.Valid() && AllMultispace(w0) && AllMultispace(w)
    requires w != "" || Ends(x)
    requires x == "" || !IsMultispace(x[0])
    requires Float(x).Err?
    ensures ParseTextureCoordinates("vt" + (w0 + (a.Text() + (w + x))))
         == Ok(x, TextureCoordinates(a.Value(), 0.0, 0.0))
  {
    var s1 := a.Text() + (w + x);
    KeywordBeforeNumber("vt", w0, a, w + x);
    FloatFieldOf(a, w, x);
    NoField(x);
    TextureSteps("vt" + (w0 + s1), s1, x, x, x, TextureCoordinates(a.Value(), 0.0, 0.0), None, None);
  }

  /** A `vt` record of two numbers read back: `w` is 0.0. */
  lemma ParseTextureCoordinatesOfTwo(w0: string, a: Number, b: Number, sep: string, w: string, x: string)
    requires a.Valid() && b.Valid()
    requires AllMultispace(w0) && sep != "" && AllMultispace(sep) && AllMultispace(w)
    requires w != "" || Ends(x)
    requires x == "" || !IsMultispace(x[0])
    requires Float(x).Err?
    ensures ParseTextureCoordinates("vt" + (w0 + (a.Text() + (sep + (b.Text() + (w + x))))))
         == Ok(x, TextureCoordinates(a.Value(), b.Value(), 0.0))
  {
    var s2 := b.Text() + (w + x);
    var s1 := a.Text() + (sep + s2);
    KeywordBeforeNumber("vt", w0, a, sep + s2);
    OneOptionalField(a, b, sep, w, x);
    TextureSteps("vt" + (w0 + s1), s1, s2, x, x, TextureCoordinates(a.Value(), b.Value(), 0.0), Some(b.Value()), None);
  }

  /** The numbers of a two-number `vt` record: the third field is absent. */
  lemma OneOptionalField(a: Number, b: Number, sep: string, w: string, x: string)
    requires a.Valid() && b.Valid() && sep != "" && AllMultispace(sep) && AllMultispace(w)
    requires w != "" || Ends(x)
    requires x == "" || !IsMultispace(x[0])
    requires Float(x).Err?
    ensures FloatField(a.Text() + (sep + (b.Text() + (w + x)))) == Ok(b.Text() + (w + x), a.Value())
    ensures OptFloatField(b.Text() + (w + x)) == Ok(x, Some(b.Value()))
    ensures OptFloatField(x) == Ok(x, None)
  {
    FieldThen(a, sep, b, w + x);
    OptFieldLast(b, w, x);
    NoField(x);
  }

  /** The second and third numbers of a three-number `vt` record. */
  lemma TwoOptionalFields(b: Number, c: Number, sep: string, w: string, x: string)
    requires b.Valid() && c.Valid() && sep != "" && AllMultispace(sep) && AllMultispace(w)
    requires w != "" || Ends(x)
    requires x == "" || !IsMultispace(x[0])
    ensures OptFloatField(b.Text() + (sep + (c.Text() + (w + x)))) == Ok(c.Text() + (w + x), Some(b.Value()))
    ensures OptFloatField(c.Text() + (w + x)) == Ok(x, Some(c.Value()))
  {
    FieldThen(b, sep, c, w + x);
    OptFieldLast(c, w, x);
  }

  /** The numbers of a three-number `vt` record, one field after another. */
  lemma ThreeFields(a: Number, b: Number, c: Number, sep1: string, sep2: string, w: string, x: string)
    requires a.Valid() && b.Valid() && c.Valid()
    requires sep1 != "" && AllMultispace(sep1) && sep2 != "" && AllMultispace(sep2) && AllMultispace(w)
    requires w != "" || Ends(x)
    requires x == "" || !IsMultispace(x[0])
    ensures FloatField(a.Text() + (sep1 + (b.Text() + (sep2 + (c.Text() + (w + x))))))
         == Ok(b.Text() + (sep2 + (c.Text() + (w + x))), a.Value())
    ensures OptFloatField(b.Text() + (sep2 + (c.Text() + (w + x)))) == Ok(c.Text() + (w + x), Some(b.Value()))
    ensures OptFloatField(c.Text() + (w + x)) == Ok(x, Some(c.Value()))
  {
    FieldThen(a, sep1, b, sep2 + (c.Text() + (w + x)));
    TwoOptionalFields(b, c, sep2, w, x);
  }

  /**
   * A `vt` record of three numbers read back. Whatever follows is left,
   * even another number, since there is no fourth field.
   */
  lemma ParseTextureCoordinatesOfThree(w0: string, a: Number, b: Number, c: Number,
                                       sep1: string, sep2: string, w: string, x: string)
    requires a.Valid() && b.Valid() && c.Valid()
    requires AllMultispace(w0) && sep1 != "" && AllMultispace(sep1) && sep2 != "" && AllMultispace(sep2)
    requires AllMultispace(w) && (w != "" || Ends(x))
    requires x == "" || !IsMultispace(x[0])
    ensures ParseTextureCoordinates("vt" + (w0 + (a.Text() + (sep1 + (b.Text() + (sep2 + (c.Text() + (w + x))))))))
         == Ok(x, TextureCoordinates(a.Value(), b.Value(), c.Value()))
  {
    var s3 := c.Text() + (w + x);
    var s2 := b.Text() + (sep2 + s3);
    var s1 := a.Text() + (sep1 + s2);
    KeywordBeforeNumber("vt", w0, a, sep1 + s2);
    ThreeFields(a, b, c, sep1, sep2, w, x);
    TextureSteps("vt" + (w0 + s1), s1, s2, s3, x, TextureCoordinates(a.Value(), b.Value(), c.Value()),
                 Some(b.Value()), Some(c.Value()));
  }

  /** `parse_texture_coordinates` stops where no number follows its keyword. */
  lemma TextureStops(s: string, s1: string)
    requires Keyword("vt", s) == Ok(s1, "vt") && Float(s1).Err?
    ensures ParseTextureCoordinates(s) == Err(Error)
  {}

  /** A `vt` keyword followed by no number at all is refused: `u` is required. */
  lemma ParseTextureCoordinatesEmpty(w: string, x: string)
    requires AllMultispace(w)
    requires x == "" || !IsMultispace(x[0])
    requires Float(x).Err?
    ensures ParseTextureCoordinates("vt" + (w + x)) == Err(Error)
  {
    assert ("vt" + (w + x))[|"vt"|..] == w + x;
    SkipSpaceOver(w, x);
    TextureStops("vt" + (w + x), x);
  }

  // ------------------------------------------------------------------ examples

  lemma Value0500()
    ensures Number(false, "0", true, "500", "").Text() == "0.500"
    ensures Number(false, "0", true, "500", "").Value() == 0.5
  {
    DigitsOf("0", 0);
    DigitsOf("500", 500);
    PointValue(Number(false, "0", true, "500", ""), 0, 500);
    assert Pow10(3) == 1000;
  }

  lemma ValueWhole(d: string, k: nat)
    requires NatToDecimal(k) == d
    ensures Number(false, d, false, "", "").Valid()
    ensures Number(false, d, false, "", "").Text() == d
    ensures Number(false, d, false, "", "").Value() == k as real
  {
    DigitsOf(d, k);
    assert d + "" == d;
  }

  /** `test_parse_texture_coordinates`, first case: `w` defaults to 0.0. */
  lemma ParseTextureCoordinatesExampleTwo()
    ensures ParseTextureCoordinates("vt 0.500 0") == Ok("", TextureCoordinates(0.5, 0.0, 0.0))
  {
    var a, b := Number(false, "0", true, "500", ""), Number(false, "0", false, "", "");
    Value0500();
    ValueWhole("0", 0);
    assert "vt" + (" " + ("0.500" + (" " + ("0" + ("" + ""))))) == "vt 0.500 0";
    ParseTextureCoordinatesOfTwo(" ", a, b, " ", "", "");
  }

  /** `test_parse_texture_coordinates`, second case: three numbers and a line break. */
  lemma ParseTextureCoordinatesExampleThree()
    ensures ParseTextureCoordinates("vt 0.500 1 1\r\n") == Ok("", TextureCoordinates(0.5, 1.0, 1.0))
  {
    var a, b := Number(false, "0", true, "500", ""), Number(false, "1", false, "", "");
    Value0500();
    ValueWhole("1", 1);
    assert "vt" + (" " + ("0.500" + (" " + ("1" + (" " + ("1" + ("\r\n" + ""))))))) == "vt 0.500 1 1\r\n";
    ParseTextureCoordinatesOfThree(" ", a, b, b, " ", " ", "\r\n", "");
  }

  lemma Minus15()
    ensures Number(true, "1", true, "5", "").Text() == "-1.5"
    ensures Number(true, "1", true, "5", "").Value() == -1.5
  {
    DigitsOf("1", 1);
    DigitsOf("5", 5);
    PointValue(Number(false, "1", true, "5", ""), 1, 5);
    NegatedValue(Number(true, "1", true, "5", ""));
  }

  /** Values outside [0, 1] are accepted: the range check never rejects. */
  lemma ParseTextureCoordinatesOutOfRange()
    ensures ParseTextureCoordinates("vt -1.5 2") == Ok("", TextureCoordinates(-1.5, 2.0, 0.0))
  {
    var a, b := Number(true, "1", true, "5", ""), Number(false, "2", false, "", "");
    Minus15();
    ValueWhole("2", 2);
    assert "vt" + (" " + ("-1.5" + (" " + ("2" + ("" + ""))))) == "vt -1.5 2";
    ParseTextureCoordinatesOfTwo(" ", a, b, " ", "", "");
  }
}
