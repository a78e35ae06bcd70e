/**
 * `parse_polygon_vertex_indices`, `parse_polygon_indices` and
 * `PolygonIndices::to_polygon` (obj/polygon.rs): the `f` record of a face.
 */
module Polygons {
  import opened Nom
  import opened Whitespace
  import opened Integer
  import opened Floats
  import opened Fields
  import opened Vertices
  import opened Textures
  import opened Vectors

  /** One corner of a face: its vertex, texture and normal indices. */
  datatype PolygonVertexIndices = PolygonVertexIndices(vertex: nat, textureCoordinates: Option<nat>, normal: Option<nat>)

  /** The corners of an `f` record, in order. */
  datatype PolygonIndices = PolygonIndices(points: seq<PolygonVertexIndices>)

  /** A corner with its vertex, texture coordinates and normal looked up. */
  datatype PolygonVertex = PolygonVertex(vertex: Vertex, textureCoordinates: TextureCoordinates, normal: Vector)

  datatype Polygon = Polygon(points: seq<PolygonVertex>)

  /** `Result<Polygon, &'static str>` */
  datatype Outcome<T> = Success(value: T) | Failure(message: string)

  /** Every index fits in a `usize`. */
  predicate InRange(p: PolygonVertexIndices) {
    && p.vertex < USIZE_LIMIT
    && (p.textureCoordinates.Some? ==> p.textureCoordinates.value < USIZE_LIMIT)
    && (p.normal.Some? ==> p.normal.value < USIZE_LIMIT)
  }

  /** `parse_integer` leaves a proper suffix of its input. */
  lemma IntegerSuffix(s: string)
    requires ParseInteger(s).Ok?
    ensures IsSuffix(ParseInteger(s).rest, s) && |ParseInteger(s).rest| < |s|
  {
    SuffixOfDrop(s, Span(IsDigit, s));
  }

  /** `preceded(tag("/"), parse_integer)` */
  function SlashInteger(s: string): (r: Result<nat>)
    ensures r == Err(Error) <==> !(|s| > 1 && s[0] == '/' && IsDigit(s[1]))
    ensures r.Ok? ==> r.out < USIZE_LIMIT && IsSuffix(r.rest, s) && |r.rest| < |s|
  {
    match Tag("/", s)
    case Err(f) => Err(f)
    case Ok(s1, _) =>
      assert s1 == s[1..];
      var r := ParseInteger(s1);
      if r.Err? then r
      else
        IntegerSuffix(s1);
        SuffixOfDrop(s, 1);
        SuffixTransitive(r.rest, s1, s);
        r
  }

  /** `opt(preceded(tag("/"), parse_integer))`: an optional "/n". */
  function OptSlashInteger(s: string): (r: Result<Option<nat>>)
    ensures r != Err(Error)
    ensures r.Ok? ==> IsSuffix(r.rest, s) && (r.out.Some? ==> r.out.value < USIZE_LIMIT)
  {
    Opt(SlashInteger(s), s)
  }

  /**
   * The first alternative, `tuple((parse_integer, value(None, tag("/")),
   * preceded(tag("/"), map(parse_integer, Some))))`: "v//n".
   */
  function NormalOnly(s: string): (r: Result<PolygonVertexIndices>)
    ensures !(|s| > 0 && IsDigit(s[0])) ==> r == Err(Error)
    ensures ParseInteger(s) == Err(Panic) ==> r == Err(Panic)
    ensures r.Ok? ==> InRange(r.out) && IsSuffix(r.rest, s) && |r.rest| < |s|
  {
    match ParseInteger(s)
    case Err(f) => Err(f)
    case Ok(s1, v) =>
      match Tag("/", s1)
      case Err(f) => Err(f)
      case Ok(s2, _) =>
        match SlashInteger(s2)
        case Err(f) => Err(f)
        case Ok(s3, n) =>
          IntegerSuffix(s);
          SuffixOfDrop(s1, 1);
          SuffixTransitive(s3, s2, s1);
          SuffixTransitive(s3, s1, s);
          Ok(s3, PolygonVertexIndices(v, None, Some(n)))
  }

  /**
   * The second alternative, `tuple((parse_integer, opt(preceded(tag("/"),
   * parse_integer)), opt(preceded(tag("/"), parse_integer))))`: "v",
   * "v/t" and "v/t/n".
   */
  function AllIndices(s: string): (r: Result<PolygonVertexIndices>)
    ensures r == Err(Error) <==> !(|s| > 0 && IsDigit(s[0]))
    ensures ParseInteger(s) == Err(Panic) ==> r == Err(Panic)
    ensures r.Ok? ==> InRange(r.out) && IsSuffix(r.rest, s) && |r.rest| < |s|
  {
    match ParseInteger(s)
    case Err(f) => Err(f)
    case Ok(s1, v) =>
      match OptSlashInteger(s1)
      case Err(f) => Err(f)
      case Ok(s2, t) =>
        match OptSlashInteger(s2)
        case Err(f) => Err(f)
        case Ok(s3, n) =>
          IntegerSuffix(s);
          SuffixTransitive(s3, s2, s1);
          SuffixTransitive(s3, s1, s);
          Ok(s3, PolygonVertexIndices(v, t, n))
  }

  /**
   * `parse_polygon_vertex_indices`: the "v//n" form first, then the others.
   * It is refused with an error exactly when the input does not start with a
   * digit, so a leading `/` is refused; a vertex index of 0 is not.
   */
  function ParsePolygonVertexIndices(s: string): (r: Result<PolygonVertexIndices>)
    ensures r == Err(Error) <==> !(|s| > 0 && IsDigit(s[0]))
    ensures ParseInteger(s) == Err(Panic) ==> r == Err(Panic)
    ensures r.Ok? ==> InRange(r.out) && IsSuffix(r.rest, s) && |r.rest| < |s|
  {
    Alt(NormalOnly(s), AllIndices(s))
  }

  // ------------------------------------------------------------ corner text

  /** What may follow a corner without being read into it. */
  predicate EndsCorner(x: string) {
    x == "" || (!IsDigitOrUnderscore(x[0]) && x[0] != '/')
  }

  /** A corner written out: "v", "v/t", "v//n" or "v/t/n". */
  function IndicesText(p: PolygonVertexIndices): string {
    NatToDecimal(p.vertex) +
      match (p.textureCoordinates, p.normal)
      case (None, None) => ""
      case (Some(t), None) => "/" + NatToDecimal(t)
      case (None, Some(n)) => "/" + ("/" + NatToDecimal(n))
      case (Some(t), Some(n)) => "/" + (NatToDecimal(t) + ("/" + NatToDecimal(n)))
  }

  /** `preceded(tag("/"), parse_integer)` reads a slash and a number. */
  lemma SlashIntegerOf(k: nat, x: string)
    requires k < USIZE_LIMIT
    requires x == "" || !IsDigitOrUnderscore(x[0])
    ensures SlashInteger("/" + (NatToDecimal(k) + x)) == Ok(x, k)
  {
    assert ("/" + (NatToDecimal(k) + x))[1..] == NatToDecimal(k) + x;
    ParseIntegerRoundTrip(k, x);
  }

  /** A number is written starting with a digit. */
  lemma DecimalStart(k: nat, x: string)
    ensures |NatToDecimal(k) + x| > 0 && IsDigit((NatToDecimal(k) + x)[0])
  {
    assert (NatToDecimal(k) + x)[0] == NatToDecimal(k)[0];
  }

  /** The first alternative fails when no slash follows the vertex index. */
  lemma NoSlash(s: string, s1: string, v: nat)
    requires ParseInteger(s) == Ok(s1, v) && !(|s1| > 0 && s1[0] == '/')
    ensures NormalOnly(s) == Err(Error)
  {}

  /** The first alternative fails when the slash is followed by no second slash and number. */
  lemma NoSecondSlash(s: string, s1: string, v: nat)
    requires ParseInteger(s) == Ok(s1, v) && |s1| > 0 && s1[0] == '/'
    requires SlashInteger(s1[1..]) == Err(Error)
    ensures NormalOnly(s) == Err(Error)
  {}

  /** The parser in steps: the first alternative fails, the second reads the corner. */
  lemma SecondAlternative(s: string, s1: string, s2: string, s3: string, p: PolygonVertexIndices)
    requires NormalOnly(s) == Err(Error)
    requires ParseInteger(s) == Ok(s1, p.vertex)
    requires OptSlashInteger(s1) == Ok(s2, p.textureCoordinates)
    requires OptSlashInteger(s2) == Ok(s3, p.normal)
    ensures ParsePolygonVertexIndices(s) == Ok(s3, p)
  {}

  /** The parser in steps: the first alternative reads "v//n". */
  lemma FirstAlternative(s: string, s1: string, s2: string, v: nat, n: nat)
    requires ParseInteger(s) == Ok(s1, v) && |s1| > 0 && s1[0] == '/'
    requires SlashInteger(s1[1..]) == Ok(s2, n)
    ensures ParsePolygonVertexIndices(s) == Ok(s2, PolygonVertexIndices(v, None, Some(n)))
  {}

  /** "v": a vertex index alone. */
  lemma VertexOnlyOf(v: nat, x: string)
    requires v < USIZE_LIMIT && EndsCorner(x)
    ensures ParsePolygonVertexIndices(NatToDecimal(v) + x) == Ok(x, PolygonVertexIndices(v, None, None))
  {
    var s := NatToDecimal(v) + x;
    ParseIntegerRoundTrip(v, x);
    NoSlash(s, x, v);
    SecondAlternative(s, x, x, x, PolygonVertexIndices(v, None, None));
  }

  /** "v/t": a vertex and a texture index. */
  lemma WithTextureOf(v: nat, t: nat, x: string)
    requires v < USIZE_LIMIT && t < USIZE_LIMIT && EndsCorner(x)
    ensures ParsePolygonVertexIndices(NatToDecimal(v) + ("/" + (NatToDecimal(t) + x)))
         == Ok(x, PolygonVertexIndices(v, Some(t), None))
  {
    var s1 := "/" + (NatToDecimal(t) + x);
    var s := NatToDecimal(v) + s1;
    ParseIntegerRoundTrip(v, s1);
    DecimalStart(t, x);
    assert s1[1..] == NatToDecimal(t) + x;
    NoSecondSlash(s, s1, v);
    SlashIntegerOf(t, x);
    SecondAlternative(s, s1, x, x, PolygonVertexIndices(v, Some(t), None));
  }

  /** "v//n": a vertex and a normal index, read by the first alternative. */
  lemma WithNormalOf(v: nat, n: nat, x: string)
    requires v < USIZE_LIMIT && n < USIZE_LIMIT && EndsCorner(x)
    ensures ParsePolygonVertexIndices(NatToDecimal(v) + ("/" + ("/" + (NatToDecimal(n) + x))))
         == Ok(x, PolygonVertexIndices(v, None, Some(n)))
  {
    var s2 := "/" + (NatToDecimal(n) + x);
    var s1 := "/" + s2;
    ParseIntegerRoundTrip(v, s1);
    assert s1[1..] == s2;
    SlashIntegerOf(n, x);
    FirstAlternative(NatToDecimal(v) + s1, s1, x, v, n);
  }

  /** "v/t/n": all three indices, read by the second alternative. */
  lemma WithBothOf(v: nat, t: nat, n: nat, x: string)
    requires v < USIZE_LIMIT && t < USIZE_LIMIT && n < USIZE_LIMIT
    requires x == "" || !IsDigitOrUnderscore(x[0])
    ensures ParsePolygonVertexIndices(NatToDecimal(v) + ("/" + (NatToDecimal(t) + ("/" + (NatToDecimal(n) + x)))))
         == Ok(x, PolygonVertexIndices(v, Some(t), Some(n)))
  {
    var s2 := "/" + (NatToDecimal(n) + x);
    var s1 := "/" + (NatToDecimal(t) + s2);
    var s := NatToDecimal(v) + s1;
    ParseIntegerRoundTrip(v, s1);
    DecimalStart(t, s2);
    assert s1[1..] == NatToDecimal(t) + s2;
    NoSecondSlash(s, s1, v);
    SlashIntegerOf(t, s2);
    SlashIntegerOf(n, x);
    SecondAlternative(s, s1, s2, x, PolygonVertexIndices(v, Some(t), Some(n)));
  }

  /**
   * Every corner is read back from its text, whatever follows that cannot
   * continue it.
   */
  lemma ParsePolygonVertexIndicesOf(p: PolygonVertexIndices, x: string)
    requires InRange(p) && EndsCorner(x)
    ensures ParsePolygonVertexIndices(IndicesText(p) + x) == Ok(x, p)
  {
    var d := NatToDecimal(p.vertex);
    match (p.textureCoordinates, p.normal)
    case (None, None) =>
      assert IndicesText(p) + x == d + x;
      VertexOnlyOf(p.vertex, x);
    case (Some(t), None) =>
      Associative(d, "/" + NatToDecimal(t), x);
      Associative("/", NatToDecimal(t), x);
      WithTextureOf(p.vertex, t, x);
    case (None, Some(n)) =>
      Associative(d, "/" + ("/" + NatToDecimal(n)), x);
      Associative("/", "/" + NatToDecimal(n), x);
      Associative("/", NatToDecimal(n), x);
      WithNormalOf(p.vertex, n, x);
    case (Some(t), Some(n)) =>
      var tail := "/" + NatToDecimal(n);
      Associative(d, "/" + (NatToDecimal(t) + tail), x);
      Associative("/", NatToDecimal(t) + tail, x);
      Associative(NatToDecimal(t), tail, x);
      Associative("/", NatToDecimal(n), x);
      WithBothOf(p.vertex, t, n, x);
  }

  /**
   * `opt` backtracks: "v/" followed by no number leaves the slash, and the
   * corner has neither texture nor normal index.
   */
  lemma TrailingSlash(v: nat, x: string)
    requires v < USIZE_LIMIT && EndsCorner(x)
    ensures ParsePolygonVertexIndices(NatToDecimal(v) + ("/" + x)) == Ok("/" + x, PolygonVertexIndices(v, None, None))
  {
    var s1 := "/" + x;
    var s := NatToDecimal(v) + s1;
    ParseIntegerRoundTrip(v, s1);
    assert s1[1..] == x;
    NoSecondSlash(s, s1, v);
    SecondAlternative(s, s1, s1, s1, PolygonVertexIndices(v, None, None));
  }

  // --------------------------------------------------------------- the face

  /** `tws(parse_polygon_vertex_indices)`: one corner and the whitespace after it. */
  function IndexGroup(s: string): (r: Result<PolygonVertexIndices>)
    ensures r == Err(Error) <==> !(|s| > 0 && IsDigit(s[0]))
    ensures r.Ok? ==> InRange(r.out) && IsSuffix(r.rest, s) && |r.rest| < |s|
    ensures r.Ok? ==> r.rest == "" || !IsMultispace(r.rest[0])
  {
    var r := Tws(ParsePolygonVertexIndices(s));
    if r.Err? then r
    else
      SuffixTransitive(r.rest, ParsePolygonVertexIndices(s).rest, s);
      r
  }

  lemma IndexGroupSound()
    ensures Sound(IndexGroup)
  {
    forall s | IndexGroup(s).Ok? ensures IsSuffix(IndexGroup(s).rest, s) {}
  }

  lemma IndexGroupProgresses()
    ensures Progresses(IndexGroup)
  {
    forall s | IndexGroup(s).Ok? ensures |IndexGroup(s).rest| < |s| {}
  }

  /**
   * `parse_polygon_indices`: the keyword `f` and its whitespace, then one or
   * more corners, each with the whitespace after it. As that whitespace
   * includes line breaks, the corners may run on over several lines.
   */
  function ParsePolygonIndices(s: string): (r: Result<PolygonIndices>)
    ensures r == Err(Error) <==> !("f" <= s) || !(|SkipSpace(s[1..])| > 0 && IsDigit(SkipSpace(s[1..])[0]))
    ensures r.Ok? ==> |r.out.points| > 0 && IsSuffix(r.rest, s)
  {
    match Keyword("f", s)
    case Err(f) => Err(f)
    case Ok(s1, _) =>
      match Many1(IndexGroup, s1)
      case Err(f) =>
        IndexGroupProgresses();
        Many1Error(IndexGroup, s1);
        Err(f)
      case Ok(s2, points) =>
        IndexGroupSound();
        SuffixTransitive(s2, s1, s);
        Ok(s2, PolygonIndices(points))
  }

  /**
   * An `f` keyword followed by no corner is refused: `many1` needs one. This
   * covers a bare `f`, and an `f` followed by a `/` or by a line that does
   * not start with an index.
   */
  lemma ParsePolygonIndicesEmpty(w: string, x: string)
    requires AllMultispace(w)
    requires x == "" || !IsMultispace(x[0])
    requires !(|x| > 0 && IsDigit(x[0]))
    ensures ParsePolygonIndices("f" + (w + x)) == Err(Error)
  {
    assert ("f" + (w + x))[1..] == w + x;
    SkipSpaceOver(w, x);
  }

  /** Corners written out, each followed by its whitespace run. */
  function CornersText(ps: seq<PolygonVertexIndices>, seps: seq<string>): string
    requires |seps| == |ps|
    decreases |ps|
  {
    if |ps| == 0 then "" else IndicesText(ps[0]) + (seps[0] + CornersText(ps[1..], seps[1..]))
  }

  /**
   * Separators of a face: whitespace runs, none empty but the last, since
   * two corners written together would read as one.
   */
  predicate Separators(seps: seq<string>) {
    && (forall i :: 0 <= i < |seps| ==> AllMultispace(seps[i]))
    && (forall i :: 0 <= i < |seps| - 1 ==> seps[i] != "")
  }

  /** What may follow a face's last corner without being read into the face. */
  predicate EndsFace(x: string) {
    EndsCorner(x) && (x == "" || !IsMultispace(x[0]))
  }

  /** A face's text starts with a digit. */
  lemma CornersStart(ps: seq<PolygonVertexIndices>, seps: seq<string>, x: string)
    requires |seps| == |ps| && |ps| > 0
    ensures |CornersText(ps, seps) + x| > 0 && IsDigit((CornersText(ps, seps) + x)[0])
  {
    var d := NatToDecimal(ps[0].vertex);
    assert (CornersText(ps, seps) + x)[0] == d[0];
  }

  /** `tws` in steps: the corner, then the whitespace after it. */
  lemma IndexGroupSteps(s: string, y: string, p: PolygonVertexIndices)
    requires ParsePolygonVertexIndices(s) == Ok(y, p)
    ensures IndexGroup(s) == Ok(SkipSpace(y), p)
  {}

  /** A corner followed by whitespace, or by the end of the face, is read up to its end. */
  lemma CornerThen(p: PolygonVertexIndices, sep: string, rest: string)
    requires InRange(p) && AllMultispace(sep) && (sep != "" || EndsCorner(rest))
    ensures ParsePolygonVertexIndices(IndicesText(p) + (sep + rest)) == Ok(sep + rest, p)
  {
    if sep != "" {
      assert (sep + rest)[0] == sep[0];
    } else {
      assert sep + rest == rest;
    }
    ParsePolygonVertexIndicesOf(p, sep + rest);
  }

  /** What follows a corner's separator starts the next corner or ends the face. */
  lemma AfterSeparator(ps: seq<PolygonVertexIndices>, seps: seq<string>, x: string)
    requires |seps| == |ps| && |ps| > 0 && Separators(seps) && EndsFace(x)
    ensures AllMultispace(seps[0])
    ensures seps[0] != "" || EndsCorner(CornersText(ps[1..], seps[1..]) + x)
    ensures var rest := CornersText(ps[1..], seps[1..]) + x; rest == "" || !IsMultispace(rest[0])
  {
    if |ps| > 1 {
      CornersStart(ps[1..], seps[1..], x);
    } else {
      assert CornersText(ps[1..], seps[1..]) + x == x;
    }
  }

  /** One corner of a face is read with the separator after it. */
  lemma FirstCorner(ps: seq<PolygonVertexIndices>, seps: seq<string>, x: string)
    requires |seps| == |ps| && |ps| > 0 && InRange(ps[0]) && Separators(seps) && EndsFace(x)
    ensures IndexGroup(CornersText(ps, seps) + x) == Ok(CornersText(ps[1..], seps[1..]) + x, ps[0])
  {
    var tail := CornersText(ps[1..], seps[1..]);
    var rest := tail + x;
    Associative(IndicesText(ps[0]), seps[0] + tail, x);
    Associative(seps[0], tail, x);
    AfterSeparator(ps, seps, x);
    CornerThen(ps[0], seps[0], rest);
    SkipSpaceOver(seps[0], rest);
    IndexGroupSteps(CornersText(ps, seps) + x, seps[0] + rest, ps[0]);
  }

  /** The corners and separators after a face's first corner are a face too, and a shorter one. */
  lemma FaceTail(ps: seq<PolygonVertexIndices>, seps: seq<string>)
    requires |seps| == |ps| > 0 && (forall i :: 0 <= i < |ps| ==> InRange(ps[i])) && Separators(seps)
    ensures Separators(seps[1..]) && (forall i :: 0 <= i < |ps| - 1 ==> InRange(ps[1..][i]))
    ensures |CornersText(ps[1..], seps[1..])| < |CornersText(ps, seps)|
  {
    assert forall i :: 0 <= i < |seps| - 1 ==> seps[1..][i] == seps[i + 1];
    assert forall i :: 0 <= i < |ps| - 1 ==> ps[1..][i] == ps[i + 1];
    CornersStart(ps, seps, "");
    assert CornersText(ps, seps) + "" == CornersText(ps, seps);
  }

  /** `many0` reads every corner of a face and stops where the face ends. */
  lemma {:induction false} CornersOf(ps: seq<PolygonVertexIndices>, seps: seq<string>, x: string)
    requires |seps| == |ps| && (forall i :: 0 <= i < |ps| ==> InRange(ps[i]))
    requires Separators(seps) && EndsFace(x)
    ensures Many0(IndexGroup, CornersText(ps, seps) + x) == Ok(x, ps)
    decreases |ps|
  {
    if |ps| == 0 {
      assert CornersText(ps, seps) + x == x;
    } else {
      var rest := CornersText(ps[1..], seps[1..]) + x;
      FirstCorner(ps, seps, x);
      FaceTail(ps, seps);
      CornersOf(ps[1..], seps[1..], x);
      Many0Then(IndexGroup, CornersText(ps, seps) + x, rest, ps[0], x, ps[1..]);
      HeadTail(ps);
    }
  }

  /**
   * An `f` record read back: one or more corners, each followed by its
   * whitespace, give exactly those corners, and only the record is consumed.
   */
  lemma ParsePolygonIndicesOf(w0: string, ps: seq<PolygonVertexIndices>, seps: seq<string>, x: string)
    requires AllMultispace(w0)
    requires |seps| == |ps| > 0 && (forall i :: 0 <= i < |ps| ==> InRange(ps[i]))
    requires Separators(seps) && EndsFace(x)
    ensures ParsePolygonIndices("f" + (w0 + (CornersText(ps, seps) + x))) == Ok(x, PolygonIndices(ps))
  {
    var s1 := CornersText(ps, seps) + x;
    CornersStart(ps, seps, x);
    assert ("f" + (w0 + s1))[|"f"|..] == w0 + s1;
    SkipSpaceOver(w0, s1);
    CornersOf(ps, seps, x);
    Many1IsMany0(IndexGroup, s1);
  }

  /** `PolygonIndices::to_polygon` is not implemented: it fails for every face. */
  function ToPolygon(p: PolygonIndices): (r: Outcome<Polygon>)
    ensures r.Failure? && r.message == "Not implemented"
  {
    Failure("Not implemented")
  }

  // ------------------------------------------------------------------ examples

  lemma SmallDecimals()
    ensures NatToDecimal(0) == "0" && NatToDecimal(1) == "1" && NatToDecimal(2) == "2"
    ensures NatToDecimal(3) == "3" && NatToDecimal(4) == "4" && NatToDecimal(5) == "5"
    ensures NatToDecimal(9) == "9" && NatToDecimal(10) == "10"
  {}

  /** `test_parse_polygon_vertex_indices`, "v/t/n": the line break is left. */
  lemma ParsePolygonVertexIndicesExampleBoth()
    ensures ParsePolygonVertexIndices("1/1/5\r\n") == Ok("\r\n", PolygonVertexIndices(1, Some(1), Some(5)))
  {
    SmallDecimals();
    assert "1" + ("/" + ("1" + ("/" + ("5" + "\r\n")))) == "1/1/5\r\n";
    WithBothOf(1, 1, 5, "\r\n");
  }

  /** `test_parse_polygon_vertex_indices`, "v//n": read by the first alternative. */
  lemma ParsePolygonVertexIndicesExampleNormal()
    ensures ParsePolygonVertexIndices("10//5\r\n") == Ok("\r\n", PolygonVertexIndices(10, None, Some(5)))
  {
    SmallDecimals();
    assert "10" + ("/" + ("/" + ("5" + "\r\n"))) == "10//5\r\n";
    WithNormalOf(10, 5, "\r\n");
  }

  /** `test_parse_polygon_vertex_indices`, "v/t": the tab is left. */
  lemma ParsePolygonVertexIndicesExampleTexture()
    ensures ParsePolygonVertexIndices("1/5\t") == Ok("\t", PolygonVertexIndices(1, Some(5), None))
  {
    SmallDecimals();
    assert "1" + ("/" + ("5" + "\t")) == "1/5\t";
    WithTextureOf(1, 5, "\t");
  }

  /** `test_parse_polygon_vertex_indices`, "v/": the slash is left unread. */
  lemma ParsePolygonVertexIndicesExampleSlash()
    ensures ParsePolygonVertexIndices("1/") == Ok("/", PolygonVertexIndices(1, None, None))
  {
    SmallDecimals();
    assert "1" + ("/" + "") == "1/";
    TrailingSlash(1, "");
  }

  /** `test_parse_polygon_vertex_indices`: a corner cannot start with a slash. */
  lemma ParsePolygonVertexIndicesExampleLeadingSlash()
    ensures ParsePolygonVertexIndices("/1") == Err(Error)
  {}

  /** Index 0 is accepted: nothing rejects it, though OBJ indices start at 1. */
  lemma ParsePolygonVertexIndicesZero()
    ensures ParsePolygonVertexIndices("0 ") == Ok(" ", PolygonVertexIndices(0, None, None))
  {
    assert NatToDecimal(0) + " " == "0 ";
    VertexOnlyOf(0, " ");
  }

  lemma FaceCorners()
    ensures IndicesText(PolygonVertexIndices(1, Some(2), Some(3))) == "1/2/3"
    ensures IndicesText(PolygonVertexIndices(4, Some(5), Some(9))) == "4/5/9"
  {
    SmallDecimals();
  }

  lemma FaceText()
    ensures CornersText([PolygonVertexIndices(1, Some(2), Some(3)), PolygonVertexIndices(4, Some(5), Some(9))],
                        [" ", "\r\n"]) == "1/2/3 4/5/9\r\n"
  {
    var ps := [PolygonVertexIndices(1, Some(2), Some(3)), PolygonVertexIndices(4, Some(5), Some(9))];
    var seps := [" ", "\r\n"];
    FaceCorners();
    assert CornersText(ps[1..][1..], seps[1..][1..]) == "";
    assert CornersText(ps[1..], seps[1..]) == "4/5/9\r\n";
  }

  /** `test_parse_polygon_indices`: two corners and the line break after them. */
  lemma ParsePolygonIndicesExample()
    ensures ParsePolygonIndices("f 1/2/3 4/5/9\r\n")
         == Ok("", PolygonIndices([PolygonVertexIndices(1, Some(2), Some(3)), PolygonVertexIndices(4, Some(5), Some(9))]))
  {
    var ps := [PolygonVertexIndices(1, Some(2), Some(3)), PolygonVertexIndices(4, Some(5), Some(9))];
    var seps := [" ", "\r\n"];
    FaceText();
    assert "f" + (" " + ("1/2/3 4/5/9\r\n" + "")) == "f 1/2/3 4/5/9\r\n";
    ParsePolygonIndicesOf(" ", ps, seps, "");
  }
}
