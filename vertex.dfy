/** `parse_vertex` (obj/polygon/vertex.rs): a geometric vertex, `v x y z [w]`. */
module Vertices {
  import opened Nom
  import opened Whitespace
  import opened Floats
  import opened Fields

  /** A vertex position with its weight `w`. */
  datatype Vertex = Vertex(x: real, y: real, z: real, w: real)

  /**
   * `parse_vertex`: the keyword `v` and its whitespace, three numbers each
   * with the whitespace after it, then an optional fourth, the weight, which
   * is 1.0 when it is missing.
   */
  function ParseVertex(s: string): (r: Result<Vertex>)
    ensures !("v" <= s) ==> r == Err(Error)
    ensures r.Ok? ==> IsSuffix(r.rest, s) && (r.rest == "" || !IsMultispace(r.rest[0]))
  {
    match Keyword("v", s)
    case Err(f) => Err(f)
    case Ok(s1, _) =>
      match Triple(s1)
      case Err(f) => Err(f)
      case Ok(s2, xyz) =>
        match OptFloatField(s2)
        case Err(f) => Err(f)
        case Ok(s3, w) =>
          SuffixTransitive(s3, s2, s1);
          SuffixTransitive(s3, s1, s);
          Ok(s3, Vertex(xyz.0, xyz.1, xyz.2, w.UnwrapOr(1.0)))
  }

  /** `parse_vertex` in steps: the keyword, the three numbers, the weight. */
  lemma ParseVertexSteps(s: string, s1: string, s2: string, s3: string, v: Vertex, w: Option<real>)
    requires Keyword("v", s) == Ok(s1, "v")
    requires Triple(s1) == Ok(s2, (v.x, v.y, v.z))
    requires OptFloatField(s2) == Ok(s3, w) && v.w == w.UnwrapOr(1.0)
    ensures ParseVertex(s) == Ok(s3, v)
  {}

  /**
   * A `v` record of three numbers read back: the whitespace runs `sep1` and
   * `sep2` between them and `w` after them, followed by something that is not a number, gives the vertex
   * of their values with weight 1.0. Only the record's own text is consumed.
   */
  lemma ParseVertexOf(w0: string, a: Number, b: Number, c: Number, sep1: string, sep2: string, w: string, x: string)
    requires a.Valid() && b.Valid() && c.Valid()
    requires AllMultispace(w0) && sep1 != "" && AllMultispace(sep1) && sep2 != "" && AllMultispace(sep2)
    requires AllMultispace(w) && (w != "" || Ends(x))
    requires x == "" || !IsMultispace(x[0])
    requires Float(x).Err?
    ensures ParseVertex("v" + (w0 + (a.Text() + (sep1 + (b.Text() + (sep2 + (c.Text() + (w + x))))))))
         == Ok(x, Vertex(a.Value(), b.Value(), c.Value(), 1.0))
  {
    var s1 := a.Text() + (sep1 + (b.Text() + (sep2 + (c.Text() + (w + x)))));
    KeywordBeforeNumber("v", w0, a, sep1 + (b.Text() + (sep2 + (c.Text() + (w + x)))));
    TripleOf(a, b, c, sep1, sep2, w, x);
    NoField(x);
    ParseVertexSteps("v" + (w0 + s1), s1, x, x, Vertex(a.Value(), b.Value(), c.Value(), 1.0), None);
  }

  /** A `v` record of four numbers read back: the fourth is the weight. */
  lemma ParseWeightedVertexOf(w0: string, a: Number, b: Number, c: Number, d: Number,
                              sep1: string, sep2: string, sep3: string, w: string, x: string)
    requires a.Valid() && b.Valid() && c.Valid() && d.Valid()
    requires AllMultispace(w0) && sep1 != "" && AllMultispace(sep1) && sep2 != "" && AllMultispace(sep2)
    requires sep3 != "" && AllMultispace(sep3) && AllMultispace(w) && (w != "" || Ends(x))
    requires x == "" || !IsMultispace(x[0])
    ensures ParseVertex("v" + (w0 + (a.Text() + (sep1 + (b.Text() + (sep2 + (c.Text() + (sep3 + (d.Text() + (w + x))))))))))
         == Ok(x, Vertex(a.Value(), b.Value(), c.Value(), d.Value()))
  {
    var s2 := d.Text() + (w + x);
    var s1 := a.Text() + (sep1 + (b.Text() + (sep2 + (c.Text() + (sep3 + s2)))));
    KeywordBeforeNumber("v", w0, a, sep1 + (b.Text() + (sep2 + (c.Text() + (sep3 + s2)))));
    FourNumbers(a, b, c, d, sep1, sep2, sep3, w, x);
    ParseVertexSteps("v" + (w0 + s1), s1, s2, x, Vertex(a.Value(), b.Value(), c.Value(), d.Value()), Some(d.Value()));
  }

  /** Four numbers: three read by `Triple`, the fourth by `opt(tws(parse_float))`. */
  lemma FourNumbers(a: Number, b: Number, c: Number, d: Number, sep1: string, sep2: string, sep3: string, w: string, x: string)
    requires a.Valid() && b.Valid() && c.Valid() && d.Valid()
    requires sep1 != "" && AllMultispace(sep1) && sep2 != "" && AllMultispace(sep2)
    requires sep3 != "" && AllMultispace(sep3) && AllMultispace(w)
    requires w != "" || Ends(x)
    requires x == "" || !IsMultispace(x[0])
    ensures Triple(a.Text() + (sep1 + (b.Text() + (sep2 + (c.Text() + (sep3 + (d.Text() + (w + x))))))))
         == Ok(d.Text() + (w + x), (a.Value(), b.Value(), c.Value()))
    ensures OptFloatField(d.Text() + (w + x)) == Ok(x, Some(d.Value()))
  {
    var s2 := d.Text() + (w + x);
    TextStart(d);
    assert s2[0] == d.Text()[0];
    TripleOf(a, b, c, sep1, sep2, sep3, s2);
    OptFieldLast(d, w, x);
  }

  /** A `v` record with only two numbers, followed by no number, is refused. */
  lemma ParseVertexMissingOne(w0: string, a: Number, b: Number, sep: string, w: string, x: string)
    requires a.Valid() && b.Valid()
    requires AllMultispace(w0) && sep != "" && AllMultispace(sep) && AllMultispace(w)
    requires w != "" || Ends(x)
    requires x == "" || !IsMultispace(x[0])
    requires Float(x).Err?
    ensures ParseVertex("v" + (w0 + (a.Text() + (sep + (b.Text() + (w + x)))))) == Err(Error)
  {
    KeywordBeforeNumber("v", w0, a, sep + (b.Text() + (w + x)));
    TripleMissingOne(a, b, sep, w, x);
  }

  /** A `v` record with only one number, followed by no number, is refused. */
  lemma ParseVertexMissingTwo(w0: string, a: Number, w: string, x: string)
    requires a.Valid() && AllMultispace(w0) && AllMultispace(w)
    requires w != "" || Ends(x)
    requires x == "" || !IsMultispace(x[0])
    requires Float(x).Err?
    ensures ParseVertex("v" + (w0 + (a.Text() + (w + x)))) == Err(Error)
  {
    KeywordBeforeNumber("v", w0, a, w + x);
    TripleMissingTwo(a, w, x);
  }

  /** A `v` keyword followed by no number at all is refused. */
  lemma ParseVertexEmpty(w: string, x: string)
    requires AllMultispace(w)
    requires x == "" || !IsMultispace(x[0])
    requires Float(x).Err?
    ensures ParseVertex("v" + (w + x)) == Err(Error)
  {
    assert ("v" + (w + x))[1..] == w + x;
    SkipSpaceOver(w, x);
  }

  /**
   * `tag("v")` does not need a word boundary: on a `vn` or `vt` line it
   * matches, and the record then fails at the second letter.
   */
  lemma ParseVertexRefusesOtherRecords(s: string)
    requires |s| > 1 && s[0] == 'v' && (s[1] == 'n' || s[1] == 't')
    ensures ParseVertex(s) == Err(Error)
  {
    var s1 := s[1..];
    assert s1[0] == s[1];
    assert Keyword("v", s) == Ok(s1, "v") by {
      assert s == "v" + s1;
      KeywordThenText("v", s1);
    }
    LetterIsNoNumber(s1);
    ParseVertexStops(s, s1);
  }

  /** `parse_vertex` stops where no number follows its keyword. */
  lemma ParseVertexStops(s: string, s1: string)
    requires Keyword("v", s) == Ok(s1, "v") && Float(s1).Err?
    ensures ParseVertex(s) == Err(Error)
  {}

  // ------------------------------------------------------------------ examples

  lemma Value10()
    ensures Number(false, "1", true, "0", "").Value() == 1.0
  {
    DigitsOf("1", 1);
    DigitsOf("0", 0);
    PointValue(Number(false, "1", true, "0", ""), 1, 0);
  }

  /** The text of `test_parse_vertex`'s line, piece by piece. */
  lemma ExampleLine()
    ensures "v" + (" " + ("0.123" + (" " + ("-0.234" + (" " + ("2.345" + (" " + ("1.0" + ("\r\n" + "")))))))))
         == "v 0.123 -0.234 2.345 1.0\r\n"
  {}

  /** `test_parse_vertex`: four numbers and a line break. */
  lemma ParseVertexExample()
    ensures ParseVertex("v 0.123 -0.234 2.345 1.0\r\n") == Ok("", Vertex(0.123, -0.234, 2.345, 1.0))
  {
    ExampleLine();
    var a, b := Number(false, "0", true, "123", ""), Number(true, "0", true, "234", "");
    var c, d := Number(false, "2", true, "345", ""), Number(false, "1", true, "0", "");
    Number0123();
    NumberMinus0234();
    Number2345();
    assert Number(false, "1", true, "0", "").Text() == "1.0";
    Value10();
    ParseWeightedVertexOf(" ", a, b, c, d, " ", " ", " ", "\r\n", "");
  }
}
