/** `parse_vector` (obj/polygon/vector.rs): a vertex normal, `vn x y z`. */
module Vectors {
  import opened Nom
  import opened Whitespace
  import opened Integer
  import opened Floats
  import opened Fields

  /** A normal's three components. */
  datatype Vector = Vector(x: real, y: real, z: real)

  /**
   * `parse_vector`: the keyword `vn` and its whitespace, then exactly three
   * numbers, each with the whitespace after it.
   */
  function ParseVector(s: string): (r: Result<Vector>)
    ensures !("vn" <= s) ==> r == Err(Error)
    ensures r.Ok? ==> IsSuffix(r.rest, s) && (r.rest == "" || !IsMultispace(r.rest[0]))
  {
    match Keyword("vn", s)
    case Err(f) => Err(f)
    case Ok(s1, _) =>
      match Triple(s1)
      case Err(f) => Err(f)
      case Ok(s2, xyz) =>
        SuffixTransitive(s2, s1, s);
        Ok(s2, Vector(xyz.0, xyz.1, xyz.2))
  }

  /** `parse_vector` in steps: the keyword, then the three numbers. */
  lemma ParseVectorSteps(s: string, s1: string, s2: string, v: Vector)
    requires Keyword("vn", s) == Ok(s1, "vn")
    requires Triple(s1) == Ok(s2, (v.x, v.y, v.z))
    ensures ParseVector(s) == Ok(s2, v)
  {}

  /**
   * A `vn` record read back: three numbers, the whitespace runs `sep1` and
   * `sep2` between them and `w` after them, give the vector of their values. Whatever follows is left, even
   * another number, since there is no fourth field.
   */
  lemma ParseVectorOf(w0: string, a: Number, b: Number, c: Number, sep1: string, sep2: string, w: string, x: string)
    requires a.Valid() && b.Valid() && c.Valid()
    requires AllMultispace(w0) && sep1 != "" && AllMultispace(sep1) && sep2 != "" && AllMultispace(sep2)
    requires AllMultispace(w) && (w != "" || Ends(x))
    requires x == "" || !IsMultispace(x[0])
    ensures ParseVector("vn" + (w0 + (a.Text() + (sep1 + (b.Text() + (sep2 + (c.Text() + (w + x))))))))
         == Ok(x, Vector(a.Value(), b.Value(), c.Value()))
  {
    var s1 := a.Text() + (sep1 + (b.Text() + (sep2 + (c.Text() + (w + x)))));
    KeywordBeforeNumber("vn", w0, a, sep1 + (b.Text() + (sep2 + (c.Text() + (w + x)))));
    TripleOf(a, b, c, sep1, sep2, w, x);
    ParseVectorSteps("vn" + (w0 + s1), s1, x, Vector(a.Value(), b.Value(), c.Value()));
  }

  /** A `vn` record with only two numbers, followed by no number, is refused. */
  lemma ParseVectorMissingOne(w0: string, a: Number, b: Number, sep: string, w: string, x: string)
    requires a.Valid() && b.Valid()
    requires AllMultispace(w0) && sep != "" && AllMultispace(sep) && AllMultispace(w)
    requires w != "" || Ends(x)
    requires x == "" || !IsMultispace(x[0])
    requires Float(x).Err?
    ensures ParseVector("vn" + (w0 + (a.Text() + (sep + (b.Text() + (w + x)))))) == Err(Error)
  {
    KeywordBeforeNumber("vn", w0, a, sep + (b.Text() + (w + x)));
    TripleMissingOne(a, b, sep, w, x);
  }

  /** A `vn` record with only one number, followed by no number, is refused. */
  lemma ParseVectorMissingTwo(w0: string, a: Number, w: string, x: string)
    requires a.Valid() && AllMultispace(w0) && AllMultispace(w)
    requires w != "" || Ends(x)
    requires x == "" || !IsMultispace(x[0])
    requires Float(x).Err?
    ensures ParseVector("vn" + (w0 + (a.Text() + (w + x)))) == Err(Error)
  {
    KeywordBeforeNumber("vn", w0, a, w + x);
    TripleMissingTwo(a, w, x);
  }

  // ------------------------------------------------------------------ examples

  /** `test_parse_vector`, first case: a trailing space is consumed. */
  lemma ParseVectorExampleSpace()
    ensures ParseVector("vn 0.123 -0.234 2.345 ") == Ok("", Vector(0.123, -0.234, 2.345))
  {
    var a, b := Number(false, "0", true, "123", ""), Number(true, "0", true, "234", "");
    var c := Number(false, "2", true, "345", "");
    Number0123();
    NumberMinus0234();
    Number2345();
    assert "vn" + (" " + ("0.123" + (" " + ("-0.234" + (" " + ("2.345" + (" " + ""))))))) == "vn 0.123 -0.234 2.345 ";
    ParseVectorOf(" ", a, b, c, " ", " ", " ", "");
  }

  lemma SecondExampleText()
    ensures Number(false, "0", true, "707", "").Text() == "0.707"
    ensures Number(false, "0", true, "000", "").Text() == "0.000"
  {}

  lemma Value0707()
    ensures Number(false, "0", true, "707", "").Value() == 0.707
  {
    DigitsOf("0", 0);
    DigitsOf("707", 707);
    PointValue(Number(false, "0", true, "707", ""), 0, 707);
    assert Pow10(3) == 1000;
  }

  lemma Value0000()
    ensures Number(false, "0", true, "000", "").Value() == 0.0
  {
    DigitsOf("0", 0);
    ZerosValue("000");
    PointValue(Number(false, "0", true, "000", ""), 0, 0);
  }

  /** `test_parse_vector`, second case: a trailing CRLF is consumed. */
  lemma ParseVectorExampleLineBreak()
    ensures ParseVector("vn 0.707 0.000 0.707\r\n") == Ok("", Vector(0.707, 0.0, 0.707))
  {
    var a, b := Number(false, "0", true, "707", ""), Number(false, "0", true, "000", "");
    SecondExampleText();
    Value0707();
    Value0000();
    assert "vn" + (" " + ("0.707" + (" " + ("0.000" + (" " + ("0.707" + ("\r\n" + ""))))))) == "vn 0.707 0.000 0.707\r\n";
    ParseVectorOf(" ", a, b, a, " ", " ", "\r\n", "");
  }
}
