/** `parse_eol_comment` (common/comment.rs). */
module Comment {
  import opened Nom
  import opened Whitespace

  /**
   * `parse_eol_comment`: `value((), pair(char('#'), terminated(is_not("\n\r"),
   * multispace0)))`. A `#`, then at least one character up to the end of
   * the line, then all the whitespace after it, line breaks included.
   */
  function ParseEolComment(s: string): (r: Result<()>)
    ensures r.Err? ==> r.failure == Error
    ensures r.Ok? <==> |s| > 1 && s[0] == '#' && !IsLineBreak(s[1])
    ensures r.Ok? ==> var k := 1 + Span(NoneOf("\n\r"), s[1..]);
      k <= |s| && r.rest == SkipSpace(s[k..])
  {
    match Char('#', s)
    case Err(f) => Err(f)
    case Ok(s1, _) =>
      match Tws(IsNot("\n\r", s1))
      case Err(f) => Err(f)
      case Ok(s2, _) => Ok(s2, ())
  }

  /**
   * A comment line: `#` and the comment's text, then the line break and
   * blank lines after it. What follows is left for the next parser.
   */
  lemma ParseEolCommentOf(c: string, w: string, x: string)
    requires |c| > 1 && c[0] == '#' && NoLineBreak(c)
    requires AllMultispace(w) && ((w != "" && IsLineBreak(w[0])) || (w == "" && x == ""))
    requires x == "" || !IsMultispace(x[0])
    ensures ParseEolComment(c + (w + x)) == Ok(x, ())
  {
    var s := c + (w + x);
    var text := c[1..];
    assert s[1..] == text + (w + x);
    assert forall i :: 0 <= i < |text| ==> NoneOf("\n\r")(text[i]);
    SpanAppend(NoneOf("\n\r"), text, w + x);
    SpanIs(NoneOf("\n\r"), w + x, 0);
    assert s[|c|..] == w + x;
    SkipSpaceOver(w, x);
  }

  /** A `#` directly followed by a line break, or by nothing, is not a comment. */
  lemma EmptyCommentFails(w: string)
    requires w == "" || IsLineBreak(w[0])
    ensures ParseEolComment("#" + w) == Err(Error)
  {
    assert ("#" + w)[0] == '#';
    if w != "" {
      assert ("#" + w)[1] == w[0];
    }
  }

  /** `test_parse_eol_comment`, first case: one line break. */
  lemma ParseEolCommentExampleOneBreak()
    ensures ParseEolComment("# This is a comment\r\nAnd now it's over") == Ok("And now it's over", ())
  {
    assert "# This is a comment" + ("\r\n" + "And now it's over") == "# This is a comment\r\nAnd now it's over";
    ParseEolCommentOf("# This is a comment", "\r\n", "And now it's over");
  }

  /** `test_parse_eol_comment`, second case: a blank line after the comment. */
  lemma ParseEolCommentExampleBlankLine()
    ensures ParseEolComment("# This is a comment\r\n\r\nAnd now it's over") == Ok("And now it's over", ())
  {
    assert "# This is a comment" + ("\r\n\r\n" + "And now it's over") == "# This is a comment\r\n\r\nAnd now it's over";
    ParseEolCommentOf("# This is a comment", "\r\n\r\n", "And now it's over");
  }

  /** `test_parse_eol_comment`, third case: another comment follows. */
  lemma ParseEolCommentExampleNextComment()
    ensures ParseEolComment("#This is a comment\r\n\r\n#This is another") == Ok("#This is another", ())
  {
    assert "#This is a comment" + ("\r\n\r\n" + "#This is another") == "#This is a comment\r\n\r\n#This is another";
    ParseEolCommentOf("#This is a comment", "\r\n\r\n", "#This is another");
  }
}
