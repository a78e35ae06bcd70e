/**
 * `parse_map_filenames` and `parse_texture_map_identifier`
 * (obj/material/map.rs): the `maplib` line, which names `.ppm` texture
 * maps, and the `usemap` line, which picks one.
 */
module Map {
  import opened Nom
  import opened Whitespace
  import opened Identifier
  import opened Filename

  /**
   * `parse_map_filenames`: `parse_filenames("maplib", recognize_map_filename,
   * input)` where `recognize_map_filename` is `recognize_filename(".ppm", input)`.
   * It succeeds exactly when the line starts with `maplib` and its text with
   * a `.ppm` file name; every name it outputs ends in `.ppm`, in any case.
   */
  function ParseMapFilenames(s: string): (r: Result<seq<string>>)
    ensures r.Err? ==> r.failure == Error
    ensures r.Ok? <==> ParseIdentifier("maplib", s).Ok? &&
                       RecognizeFilename(".ppm", ParseIdentifier("maplib", s).out).Ok?
    ensures r.Ok? ==> |r.out| > 0 && AllFilenames(".ppm", r.out)
    ensures r.Ok? ==> forall i :: 0 <= i < |r.out| ==> EndsWithNoCase(r.out[i], ".ppm")
    ensures r.Ok? ==> r.rest == ParseIdentifier("maplib", s).rest
  {
    ParseFilenamesMatch("maplib", ".ppm", s);
    var r := ParseFilenames("maplib", Recognizer(".ppm"), s);
    if r.Err? then r
    else
      AllEndWithExtension(".ppm", r.out);
      r
  }

  /** Every name of a list of file names ends in the extension. */
  lemma AllEndWithExtension(ext: string, fs: seq<string>)
    requires AllFilenames(ext, fs)
    ensures forall i :: 0 <= i < |fs| ==> EndsWithNoCase(fs[i], ext)
  {
    forall i | 0 <= i < |fs| ensures EndsWithNoCase(fs[i], ext)
    {
      FilenameEndsWithExtension(ext, fs[i]);
    }
  }

  /**
   * `parse_texture_map_identifier`: `parse_identifier("usemap", input)`.
   * The map's name is the rest of the `usemap` line: never empty, never
   * starting with whitespace, never holding a line break.
   */
  function ParseTextureMapIdentifier(s: string): (r: Result<string>)
    ensures r.Err? ==> r.failure == Error
    ensures r.Ok? <==> "usemap" <= s && SkipSpace(s[|"usemap"|..]) != ""
    ensures r.Ok? ==> |r.out| > 0 && !IsMultispace(r.out[0]) && NoLineBreak(r.out)
    ensures r.Ok? ==> IsSuffix(r.rest, s) && (r.rest == "" || !IsMultispace(r.rest[0]))
  {
    var r := ParseIdentifier("usemap", s);
    if r.Err? then r
    else
      IdentifierShape("usemap", s);
      r
  }

  /**
   * The name is the rest of the line after the keyword and the whitespace
   * that follows it; what is left starts after that line's break and any
   * blank lines.
   */
  lemma ParseTextureMapIdentifierLine(s: string)
    requires ParseTextureMapIdentifier(s).Ok?
    ensures var r := ParseTextureMapIdentifier(s); var v := SkipSpace(s[|"usemap"|..]); var k := LineLength(v);
      r.out == v[..k] && r.rest == SkipSpace(v[k..])
  {}

  /**
   * A `usemap` line read back: the keyword, whitespace, a name that does not
   * start with whitespace, then a line break and blank lines (or the end of
   * the input) give that name, and what follows is left.
   */
  lemma ParseTextureMapIdentifierOf(w: string, name: string, b: string, x: string)
    requires AllMultispace(w)
    requires |name| > 0 && !IsMultispace(name[0]) && NoLineBreak(name)
    requires AllMultispace(b) && ((b != "" && IsLineBreak(b[0])) || (b == "" && x == ""))
    requires x == "" || !IsMultispace(x[0])
    ensures ParseTextureMapIdentifier("usemap" + (w + (name + (b + x)))) == Ok(x, name)
  {
    ParseIdentifierOf("usemap", w, name, b, x);
  }

  /** A `maplib` line listing `.ppm` names, each followed by its own run of spaces and tabs, is read back as that list. */
  lemma ParseMapFilenamesOf(w: string, fs: seq<string>, seps: seq<string>, b: string, x: string)
    requires AllMultispace(w)
    requires |fs| > 0 && forall i :: 0 <= i < |fs| ==> IsLineFilename(".ppm", fs[i])
    requires |seps| == |fs| && Gaps(seps)
    requires AllMultispace(b) && ((b != "" && IsLineBreak(b[0])) || (b == "" && x == ""))
    requires x == "" || !IsMultispace(x[0])
    ensures ParseMapFilenames("maplib" + (w + (JoinWith(fs, seps) + (b + x)))) == Ok(x, fs)
  {
    ParseFilenamesOf("maplib", ".ppm", w, fs, seps, b, x);
  }

  /** `test_parse_texture_map_identifier`, first case: the next line is left. */
  lemma ParseTextureMapIdentifierExample()
    ensures ParseTextureMapIdentifier("usemap material0\r\nb") == Ok("b", "material0")
  {
    assert "usemap" + (" " + ("material0" + ("\r\n" + "b"))) == "usemap material0\r\nb";
    ParseIdentifierOf("usemap", " ", "material0", "\r\n", "b");
  }

  /** `test_parse_texture_map_identifier`, second case: the name ends the input. */
  lemma ParseTextureMapIdentifierOff()
    ensures ParseTextureMapIdentifier("usemap off") == Ok("", "off")
  {
    assert "usemap" + (" " + ("off" + ("" + ""))) == "usemap off";
    ParseIdentifierOf("usemap", " ", "off", "", "");
  }

  /** `test_parse_texture_map_identifier`, third case: a `usemtl` line is refused. */
  lemma ParseTextureMapIdentifierWrongKeyword()
    ensures ParseTextureMapIdentifier("usemtl material0\r\nb").Err?
  {
    KeywordMissing("usemap", "usemtl material0\r\nb", 4);
  }
}
