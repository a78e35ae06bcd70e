/** `parse_material_identifier` (obj/material/identifier.rs): the `usemtl` line of an OBJ file. */
module MaterialIdentifier {
  import opened Nom
  import opened Whitespace
  import opened Identifier

  /**
   * `parse_material_identifier`: `parse_identifier("usemtl", input)`. The
   * material's name is the rest of the `usemtl` line after the whitespace
   * that follows the keyword: never empty, never starting with whitespace,
   * never holding a line break.
   */
  function ParseMaterialIdentifier(s: string): (r: Result<string>)
    ensures r.Err? ==> r.failure == Error
    ensures r.Ok? <==> "usemtl" <= s && SkipSpace(s[|"usemtl"|..]) != ""
    ensures r.Ok? ==> |r.out| > 0 && !IsMultispace(r.out[0]) && NoLineBreak(r.out)
    ensures r.Ok? ==> IsSuffix(r.rest, s) && (r.rest == "" || !IsMultispace(r.rest[0]))
  {
    var r := ParseIdentifier("usemtl", s);
    if r.Err? then r
    else
      IdentifierShape("usemtl", s);
      r
  }

  /**
   * The name is the rest of the line after the keyword and the whitespace
   * that follows it; what is left starts after that line's break and any
   * blank lines.
   */
  lemma ParseMaterialIdentifierLine(s: string)
    requires ParseMaterialIdentifier(s).Ok?
    ensures var r := ParseMaterialIdentifier(s); var v := SkipSpace(s[|"usemtl"|..]); var k := LineLength(v);
      r.out == v[..k] && r.rest == SkipSpace(v[k..])
  {}

  /**
   * A `usemtl` line read back: the keyword, whitespace, a name that does not
   * start with whitespace, then a line break and blank lines (or the end of
   * the input) give that name, and what follows is left.
   */
  lemma ParseMaterialIdentifierOf(w: string, name: string, b: string, x: string)
    requires AllMultispace(w)
    requires |name| > 0 && !IsMultispace(name[0]) && NoLineBreak(name)
    requires AllMultispace(b) && ((b != "" && IsLineBreak(b[0])) || (b == "" && x == ""))
    requires x == "" || !IsMultispace(x[0])
    ensures ParseMaterialIdentifier("usemtl" + (w + (name + (b + x)))) == Ok(x, name)
  {
    ParseIdentifierOf("usemtl", w, name, b, x);
  }

  /** `test_parse_material_identifier`, first case: the next line is left. */
  lemma ParseMaterialIdentifierExample()
    ensures ParseMaterialIdentifier("usemtl material0\r\nb") == Ok("b", "material0")
  {
    assert "usemtl" + (" " + ("material0" + ("\r\n" + "b"))) == "usemtl material0\r\nb";
    ParseIdentifierOf("usemtl", " ", "material0", "\r\n", "b");
  }

  /** `test_parse_material_identifier`, second case: another keyword is refused. */
  lemma ParseMaterialIdentifierWrongKeyword()
    ensures ParseMaterialIdentifier("use_material material0\r\nb").Err?
  {
    KeywordMissing("usemtl", "use_material material0\r\nb", 3);
  }
}
