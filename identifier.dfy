/** `parse_identifier` (common/identifier.rs): a keyword and the rest of its line. */
module Identifier {
  import opened Nom
  import opened Whitespace

  /** The text `is_not("\r\n")` reads from `v`, and where it stops. */
  function LineLength(v: string): (k: nat)
    ensures k <= |v| && NoLineBreak(v[..k])
    ensures k < |v| ==> IsLineBreak(v[k])
  {
    var k := Span(NoneOf("\r\n"), v);
    assert forall i :: 0 <= i < k ==> v[..k][i] == v[i];
    k
  }

  /**
   * `parse_identifier(tag, input)`: `preceded(tws(tag(tag)), tws(is_not("\r\n")))`.
   * After the keyword and any whitespace (none is required), the identifier
   * is everything up to the end of the line, including spaces and tabs
   * inside it or at its end; the line break and any whitespace after it are
   * skipped. It fails exactly when the keyword is missing or nothing but
   * whitespace follows it.
   */
  function ParseIdentifier(t: string, s: string): (r: Result<string>)
    ensures r.Err? ==> r.failure == Error
    ensures r.Ok? <==> t <= s && SkipSpace(s[|t|..]) != ""
    ensures r.Ok? ==> var v := SkipSpace(s[|t|..]); var k := LineLength(v);
      r.out == v[..k] && r.rest == SkipSpace(v[k..])
  {
    match Tws(Tag(t, s))
    case Err(f) => Err(f)
    case Ok(v, _) => Tws(IsNot("\r\n", v))
  }

  /**
   * The identifier is never empty, never starts with whitespace and holds no
   * line break; what is left is a suffix of the input with no leading
   * whitespace.
   */
  lemma IdentifierShape(t: string, s: string)
    requires ParseIdentifier(t, s).Ok?
    ensures var r := ParseIdentifier(t, s);
      |r.out| > 0 && !IsMultispace(r.out[0]) && NoLineBreak(r.out)
    ensures var r := ParseIdentifier(t, s);
      IsSuffix(r.rest, s) && (r.rest == "" || !IsMultispace(r.rest[0]))
  {
    var r := ParseIdentifier(t, s);
    var v := SkipSpace(s[|t|..]);
    var k := LineLength(v);
    assert r.out[0] == v[0];
    SuffixOfDrop(s, |t|);
    SuffixTransitive(v, s[|t|..], s);
    SuffixOfDrop(v, k);
    SuffixTransitive(v[k..], v, s);
    SuffixTransitive(r.rest, v[k..], s);
  }

  /** The rest of a line, then a line break and blank lines: `tws(is_not("\r\n"))` reads the line. */
  lemma LineOf(name: string, b: string, x: string)
    requires |name| > 0 && NoLineBreak(name)
    requires AllMultispace(b) && ((b != "" && IsLineBreak(b[0])) || (b == "" && x == ""))
    requires x == "" || !IsMultispace(x[0])
    ensures Tws(IsNot("\r\n", name + (b + x))) == Ok(x, name)
  {
    NameOf(name, b + x);
    SkipSpaceOver(b, x);
  }

  /** `is_not("\r\n")` reads a name up to the line break after it, or to the end. */
  lemma NameOf(name: string, y: string)
    requires |name| > 0 && NoLineBreak(name)
    requires y == "" || IsLineBreak(y[0])
    ensures IsNot("\r\n", name + y) == Ok(y, name)
  {
    var v := name + y;
    assert forall i :: 0 <= i < |name| ==> NoneOf("\r\n")(name[i]);
    SpanAppend(NoneOf("\r\n"), name, y);
    SpanIs(NoneOf("\r\n"), y, 0);
    assert v[..|name|] == name && v[|name|..] == y;
  }

  /**
   * A keyword line read back: the keyword, whitespace, a name that does not
   * start with whitespace, then a line break and blank lines (or the end of
   * the input).
   */
  lemma ParseIdentifierOf(t: string, w: string, name: string, b: string, x: string)
    requires AllMultispace(w)
    requires |name| > 0 && !IsMultispace(name[0]) && NoLineBreak(name)
    requires AllMultispace(b) && ((b != "" && IsLineBreak(b[0])) || (b == "" && x == ""))
    requires x == "" || !IsMultispace(x[0])
    ensures ParseIdentifier(t, t + (w + (name + (b + x)))) == Ok(x, name)
  {
    var v := name + (b + x);
    var s := t + (w + v);
    assert s[|t|..] == w + v;
    SkipSpaceOver(w, v);
    assert Tws(Tag(t, s)) == Ok(v, t);
    LineOf(name, b, x);
  }

  /** Without its keyword, the line is refused. */
  lemma KeywordMissing(t: string, s: string, i: nat)
    requires i < |t| && (i >= |s| || s[i] != t[i])
    ensures ParseIdentifier(t, s) == Err(Error)
  {}
}
