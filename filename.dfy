/**
 * `recognize_filename`, `parse_file_name` and `parse_filenames`
 * (common/filename.rs): file names with a given extension on a keyword line.
 */
module Filename {
  import opened Nom
  import opened Whitespace
  import opened Identifier

  predicate IsDotOrSlash(c: char) {
    c == '.' || c == '/'
  }

  /** `many_till(take_while(|_| true), tag_no_case(extension))` */
  function UpToExtension(ext: string, m: string): Result<(seq<string>, string)> {
    ManyTill(s => TakeWhile(AnyChar, s), s => TagNoCase(ext, s), m)
  }

  /**
   * Reading everything is the only step `many_till` can take before trying
   * the extension again, and after it nothing is left: so the loop succeeds
   * exactly when the extension is right at the start.
   */
  lemma UpToExtensionMatch(ext: string, m: string)
    ensures UpToExtension(ext, m).Ok? <==> |ext| <= |m| && EqualsNoCase(m[..|ext|], ext)
    ensures UpToExtension(ext, m).Err? ==> UpToExtension(ext, m).failure == Error
    ensures UpToExtension(ext, m).Ok? ==> UpToExtension(ext, m).rest == m[|ext|..]
  {
    if !(|ext| <= |m| && EqualsNoCase(m[..|ext|], ext)) && |m| > 0 {
      var f: Parser<string> := s => TakeWhile(AnyChar, s);
      var g: Parser<string> := s => TagNoCase(ext, s);
      assert f(m) == Ok(m[|m|..], m[..|m|]);
      assert g("") == Err(Error);
      assert ManyTill(f, g, m[|m|..]) == Err(Error);
    }
  }

  /** Where the stem of `m` starts (after the leading dots and slashes) and where it ends (at the first dot). */
  function StemStart(m: string): (a: nat)
    ensures a <= |m|
  {
    Span(IsDotOrSlash, m)
  }

  function StemEnd(m: string): (e: nat)
    ensures StemStart(m) <= e <= |m|
  {
    StemStart(m) + Span(NotDot, m[StemStart(m)..])
  }

  /**
   * `tuple((take_while(|c| c == '.' || c == '/'), take_while1(|c| c != '.'),
   * recognize(many_till(...))))`: leading dots and slashes, a stem with no
   * dot, then the extension.
   */
  function FilenameShape(ext: string, m: string): (r: Result<()>)
    ensures r.Err? ==> r.failure == Error
    ensures r.Ok? <==> StemStart(m) < StemEnd(m) && |ext| <= |m| - StemEnd(m) &&
                       EqualsNoCase(m[StemEnd(m)..][..|ext|], ext)
    ensures r.Ok? ==> r.rest == m[StemEnd(m) + |ext|..]
  {
    var m1 := TakeWhile(IsDotOrSlash, m).rest;
    match TakeWhile1(NotDot, m1)
    case Err(f) => Err(f)
    case Ok(m2, _) =>
      assert m2 == m[StemEnd(m)..];
      UpToExtensionMatch(ext, m2);
      match UpToExtension(ext, m2)
      case Err(f) => Err(f)
      case Ok(m3, _) => Ok(m3, ())
  }

  /** A file name: dots and slashes, a non-empty stem with no dot, and the extension in any case. */
  predicate IsFilename(ext: string, m: string) {
    StemStart(m) < StemEnd(m) && EqualsNoCase(m[StemEnd(m)..], ext)
  }

  /** `m` ends in `ext`, ignoring case. */
  predicate EndsWithNoCase(m: string, ext: string) {
    |m| >= |ext| && EqualsNoCase(m[|m| - |ext|..], ext)
  }

  /** A file name ends in its extension. */
  lemma FilenameEndsWithExtension(ext: string, m: string)
    requires IsFilename(ext, m)
    ensures EndsWithNoCase(m, ext)
  {}

  /** `all_consuming(recognize(tuple(...)))` accepts exactly the file names. */
  lemma FilenameShapeMatch(ext: string, m: string)
    ensures FilenameShape(ext, m).Ok? ==> IsSuffix(FilenameShape(ext, m).rest, m)
    ensures AllConsuming(Recognize(m, FilenameShape(ext, m))).Ok? <==> IsFilename(ext, m)
    ensures AllConsuming(Recognize(m, FilenameShape(ext, m))).Err? ==>
              AllConsuming(Recognize(m, FilenameShape(ext, m))).failure == Error
  {
    var e := StemEnd(m);
    var r := FilenameShape(ext, m);
    if |ext| == |m| - e {
      assert m[e..][..|ext|] == m[e..];
    }
    if r.Ok? {
      SuffixOfDrop(m, e + |ext|);
      assert r.rest == "" <==> |ext| == |m| - e;
    }
  }

  /** Length of the token `is_not(" \t")` reads. */
  function TokenLength(s: string): nat {
    Span(NoneOf(" \t"), s)
  }

  /**
   * `recognize_filename(extension, input)`: the token up to the next space
   * or tab, which must be a whole file name with that extension; the
   * whitespace after the token is skipped.
   */
  function RecognizeFilename(ext: string, s: string): (r: Result<string>)
    ensures r.Err? ==> r.failure == Error
    ensures r.Ok? <==> TokenLength(s) > 0 && IsFilename(ext, s[..TokenLength(s)])
    ensures r.Ok? ==> r.out == s[..TokenLength(s)] && r.rest == SkipSpace(s[TokenLength(s)..])
  {
    match Tws(IsNot(" \t", s))
    case Err(f) => Err(f)
    case Ok(rest, matched) =>
      FilenameShapeMatch(ext, matched);
      match AllConsuming(Recognize(matched, FilenameShape(ext, matched)))
      case Err(f) => Err(f)
      case Ok(_, _) => Ok(rest, matched)
  }

  /**
   * `parse_file_name(tag, recognize_filename, input)`: the keyword line's
   * text must start with a file name, which is the output; the rest of the
   * line is dropped.
   */
  function ParseFileName(t: string, recognize: Parser<string>, s: string): (r: Result<string>)
    ensures r.Ok? ==> ParseIdentifier(t, s).Ok? && r.rest == ParseIdentifier(t, s).rest
    ensures r.Ok? ==> recognize(ParseIdentifier(t, s).out).Ok? && r.out == recognize(ParseIdentifier(t, s).out).out
  {
    match ParseIdentifier(t, s)
    case Err(f) => Err(f)
    case Ok(rest, line) =>
      match recognize(line)
      case Err(f) => Err(f)
      case Ok(_, file) => Ok(rest, file)
  }

  /**
   * `parse_filenames(tag, recognize_filename, input)`: `many1` of the
   * recogniser over the keyword line's text; the output is the run of file
   * names it reads, and whatever follows that run on the line is dropped.
   */
  function ParseFilenames(t: string, recognize: Parser<string>, s: string): (r: Result<seq<string>>)
    ensures r.Ok? ==> ParseIdentifier(t, s).Ok? && r.rest == ParseIdentifier(t, s).rest
    ensures r.Ok? ==> var first := recognize(ParseIdentifier(t, s).out);
      first.Ok? && |r.out| > 0 && r.out[0] == first.out
  {
    match ParseIdentifier(t, s)
    case Err(f) => Err(f)
    case Ok(rest, line) =>
      match Many1(recognize, line)
      case Err(f) => Err(f)
      case Ok(_, files) => Ok(rest, files)
  }

  // ---------------------------------------------------------------- properties

  /** `recognize_filename` with a fixed extension, as the OBJ parsers pass it. */
  function Recognizer(ext: string): Parser<string> {
    s => RecognizeFilename(ext, s)
  }

  /** Leading dots and slashes end where the first other character is. */
  lemma StemStartOf(p: string, r: string)
    requires forall i :: 0 <= i < |p| ==> IsDotOrSlash(p[i])
    requires |r| > 0 && !IsDotOrSlash(r[0])
    ensures StemStart(p + r) == |p| && (p + r)[|p|..] == r
  {
    SpanIs(IsDotOrSlash, r, 0);
    SpanAppend(IsDotOrSlash, p, r);
  }

  /** A stem with no dot ends where the dotted ending starts. */
  lemma StemLengthOf(stem: string, e: string)
    requires '.' !in stem
    requires e == "" || e[0] == '.'
    ensures Span(NotDot, stem + e) == |stem| && (stem + e)[|stem|..] == e
  {
    SpanIs(NotDot, e, 0);
    assert forall i :: 0 <= i < |stem| ==> NotDot(stem[i]);
    SpanAppend(NotDot, stem, e);
  }

  /** Dots and slashes, a stem, and a dotted ending form a file name exactly when the ending is the extension. */
  lemma FilenameOf(ext: string, p: string, stem: string, e: string)
    requires forall i :: 0 <= i < |p| ==> IsDotOrSlash(p[i])
    requires |stem| > 0 && !IsDotOrSlash(stem[0]) && '.' !in stem
    requires e == "" || e[0] == '.'
    ensures IsFilename(ext, p + (stem + e)) <==> EqualsNoCase(e, ext)
  {
    var m := p + (stem + e);
    StemStartOf(p, stem + e);
    StemLengthOf(stem, e);
    assert StemEnd(m) == |p| + |stem|;
    assert m[|p| + |stem|..] == (stem + e)[|stem|..];
  }

  /** A token ends at the first space or tab. */
  lemma TokenOf(f: string, w: string, x: string)
    requires ' ' !in f && '\t' !in f
    requires w == "" || w[0] == ' ' || w[0] == '\t'
    requires w == "" ==> x == ""
    ensures var s := f + (w + x);
      TokenLength(s) == |f| && s[..|f|] == f && s[|f|..] == w + x
  {
    var s := f + (w + x);
    assert s[..|f|] == f && s[|f|..] == w + x;
    SpanIs(NoneOf(" \t"), w + x, 0);
    assert forall i :: 0 <= i < |f| ==> NoneOf(" \t")(f[i]);
    SpanAppend(NoneOf(" \t"), f, w + x);
  }

  /**
   * A token followed by whitespace is read as a file name exactly when it is
   * one; the whitespace after it is skipped.
   */
  lemma RecognizeFilenameOf(ext: string, f: string, w: string, x: string)
    requires ' ' !in f && '\t' !in f
    requires AllMultispace(w) && ((w != "" && (w[0] == ' ' || w[0] == '\t')) || (w == "" && x == ""))
    requires x == "" || !IsMultispace(x[0])
    ensures RecognizeFilename(ext, f + (w + x)) ==
              if |f| > 0 && IsFilename(ext, f) then Ok(x, f) else Err(Error)
  {
    TokenOf(f, w, x);
    SkipSpaceOver(w, x);
  }

  /** A run of spaces and tabs: what `tws` skips after a token inside a line. */
  predicate Blank(w: string) {
    forall i :: 0 <= i < |w| ==> w[i] == ' ' || w[i] == '\t'
  }

  /** Text that is empty or starts with something other than whitespace: the next token, if any, starts right here. */
  predicate AtToken(s: string) {
    s == "" || !IsMultispace(s[0])
  }

  /** File names, each followed by its own run of spaces and tabs. */
  function JoinWith(fs: seq<string>, seps: seq<string>): string
    requires |seps| == |fs|
  {
    if |fs| == 0 then "" else fs[0] + (seps[0] + JoinWith(fs[1..], seps[1..]))
  }

  /** The gaps after the names of a line: runs of spaces and tabs, each non-empty but the last. */
  predicate Gaps(seps: seq<string>) {
    && (forall i :: 0 <= i < |seps| ==> Blank(seps[i]))
    && (forall i :: 0 <= i < |seps| - 1 ==> seps[i] != "")
  }

  /** A file name that can stand on a keyword line: no whitespace, no line break. */
  predicate IsLineFilename(ext: string, f: string) {
    |f| > 0 && IsFilename(ext, f) && forall i :: 0 <= i < |f| ==> !IsMultispace(f[i])
  }

  /** Every name of the list is a line file name. */
  predicate LineFilenames(ext: string, fs: seq<string>) {
    |fs| == 0 || (IsLineFilename(ext, fs[0]) && LineFilenames(ext, fs[1..]))
  }

  lemma {:induction false} LineFilenamesOf(ext: string, fs: seq<string>)
    requires forall i :: 0 <= i < |fs| ==> IsLineFilename(ext, fs[i])
    ensures LineFilenames(ext, fs)
    decreases |fs|
  {
    if |fs| > 0 {
      assert IsLineFilename(ext, fs[0]);
      forall i | 0 <= i < |fs| - 1 ensures IsLineFilename(ext, fs[1..][i]) {
        assert fs[1..][i] == fs[i + 1];
      }
      LineFilenamesOf(ext, fs[1..]);
    }
  }

  /** A line file name holds no space or tab. */
  lemma LineFilenameToken(ext: string, f: string)
    requires IsLineFilename(ext, f)
    ensures |f| > 0 && IsFilename(ext, f) && ' ' !in f && '\t' !in f
  {
    assert forall i :: 0 <= i < |f| ==> !IsMultispace(f[i]);
  }

  /** No space, tab or line break. */
  predicate Unbroken(s: string) {
    forall i :: 0 <= i < |s| ==> !IsMultispace(s[i])
  }

  lemma UnbrokenParts(p: string, stem: string, e: string)
    requires forall i :: 0 <= i < |p| ==> IsDotOrSlash(p[i])
    requires Unbroken(stem) && Unbroken(e)
    ensures Unbroken(p + (stem + e))
    ensures ' ' !in p + (stem + e) && '\t' !in p + (stem + e)
  {
    var f := p + (stem + e);
    forall i | 0 <= i < |f| ensures !IsMultispace(f[i]) {
      if i < |p| {
        assert f[i] == p[i];
      } else if i < |p| + |stem| {
        assert f[i] == stem[i - |p|];
      } else {
        assert f[i] == e[i - |p| - |stem|];
      }
    }
  }

  /** Dots and slashes, a stem and the extension, with no whitespace, make a line file name. */
  lemma LineFilenameOf(ext: string, f: string, p: string, stem: string, e: string)
    requires f == p + (stem + e)
    requires forall i :: 0 <= i < |p| ==> IsDotOrSlash(p[i])
    requires |stem| > 0 && !IsDotOrSlash(stem[0]) && '.' !in stem && Unbroken(stem)
    requires |e| > 0 && e[0] == '.' && EqualsNoCase(e, ext) && Unbroken(e)
    ensures IsLineFilename(ext, f)
  {
    UnbrokenParts(p, stem, e);
    FilenameOf(ext, p, stem, e);
  }

  /**
   * A token made of dots and slashes, a stem and a dotted ending is read as
   * a file name exactly when the ending is the extension.
   */
  lemma RecognizePartsOf(ext: string, f: string, p: string, stem: string, e: string, w: string, x: string)
    requires f == p + (stem + e)
    requires forall i :: 0 <= i < |p| ==> IsDotOrSlash(p[i])
    requires |stem| > 0 && !IsDotOrSlash(stem[0]) && '.' !in stem && Unbroken(stem)
    requires (e == "" || e[0] == '.') && Unbroken(e)
    requires AllMultispace(w) && ((w != "" && (w[0] == ' ' || w[0] == '\t')) || (w == "" && x == ""))
    requires x == "" || !IsMultispace(x[0])
    ensures RecognizeFilename(ext, f + (w + x)) == if EqualsNoCase(e, ext) then Ok(x, f) else Err(Error)
  {
    UnbrokenParts(p, stem, e);
    FilenameOf(ext, p, stem, e);
    RecognizeFilenameOf(ext, f, w, x);
  }

  /** The recogniser reads a file name and the run of spaces and tabs after it. */
  lemma RecognizeNext(ext: string, f: string, sep: string, rest: string)
    requires IsLineFilename(ext, f) && Blank(sep)
    requires sep != "" || rest == ""
    requires rest == "" || !IsMultispace(rest[0])
    ensures RecognizeFilename(ext, f + (sep + rest)) == Ok(rest, f)
  {
    LineFilenameToken(ext, f);
    RecognizeFilenameOf(ext, f, sep, rest);
  }

  /** Nothing is recognised in empty text. */
  lemma NothingToRecognize(ext: string)
    ensures RecognizeFilename(ext, "") == Err(Error)
  {
    assert TokenLength("") == 0;
  }

  /**
   * `many0(recognize_filename)` reads back every file name of a list whose
   * gaps are runs of spaces and tabs, and stops, without failing, at the end
   * of the text or at the first token after the list that it refuses.
   */
  lemma {:induction false} ManyFilenamesOf(ext: string, fs: seq<string>, seps: seq<string>, rest: string)
    requires |seps| == |fs| && LineFilenames(ext, fs) && Gaps(seps)
    requires |fs| > 0 && rest != "" ==> seps[|fs| - 1] != ""
    requires AtToken(rest)
    requires RecognizeFilename(ext, rest) == Err(Error)
    ensures Many0(Recognizer(ext), JoinWith(fs, seps) + rest) == Ok(rest, fs)
    decreases |fs|
  {
    if |fs| == 0 {
      ManyFilenamesRefused(ext, rest);
      assert JoinWith(fs, seps) + rest == rest;
    } else {
      GapsTail(seps, rest);
      ManyFilenamesOf(ext, fs[1..], seps[1..], rest);
      ManyFilenamesStep(ext, fs, seps, rest);
    }
  }

  predicate AllFilenames(ext: string, fs: seq<string>) {
    forall i :: 0 <= i < |fs| ==> IsFilename(ext, fs[i])
  }

  lemma AllFilenamesCons(ext: string, f: string, fs: seq<string>)
    requires IsFilename(ext, f) && AllFilenames(ext, fs)
    ensures AllFilenames(ext, [f] + fs)
  {
    forall i | 0 <= i < |[f] + fs| ensures IsFilename(ext, ([f] + fs)[i]) {
      if i > 0 {
        assert ([f] + fs)[i] == fs[i - 1];
      }
    }
  }

  /** Every file name `many0(recognize_filename)` outputs is a file name with the extension. */
  lemma {:induction false} ManyFilenamesValid(ext: string, s: string)
    ensures Many0(Recognizer(ext), s).Ok?
    ensures AllFilenames(ext, Many0(Recognizer(ext), s).out)
    decreases |s|
  {
    var p := Recognizer(ext);
    var r := p(s);
    RecognizerProgress(ext, s);
    if r.Ok? {
      ManyFilenamesValid(ext, r.rest);
      var m := Many0(p, r.rest);
      assert Many0(p, s) == Ok(m.rest, [r.out] + m.out);
      AllFilenamesCons(ext, r.out, m.out);
    } else {
      assert Many0(p, s) == Ok(s, []);
    }
  }

  /**
   * `parse_filenames` with `recognize_filename` succeeds exactly when the
   * keyword is there and its line starts with a file name; every name it
   * outputs is a file name with the extension.
   */
  lemma ParseFilenamesMatch(t: string, ext: string, s: string)
    ensures var line := ParseIdentifier(t, s);
      ParseFilenames(t, Recognizer(ext), s).Ok? <==> line.Ok? && RecognizeFilename(ext, line.out).Ok?
    ensures var r := ParseFilenames(t, Recognizer(ext), s);
      r.Ok? ==> AllFilenames(ext, r.out)
    ensures ParseFilenames(t, Recognizer(ext), s).Err? ==> ParseFilenames(t, Recognizer(ext), s).failure == Error
  {
    var line := ParseIdentifier(t, s);
    if line.Ok? {
      ManyOneFilenames(ext, line.out);
    }
  }

  /** `many1(recognize_filename)` succeeds exactly when the first token is a file name. */
  lemma ManyOneFilenames(ext: string, line: string)
    ensures Many1(Recognizer(ext), line).Ok? <==> RecognizeFilename(ext, line).Ok?
    ensures Many1(Recognizer(ext), line).Err? ==> Many1(Recognizer(ext), line).failure == Error
    ensures Many1(Recognizer(ext), line).Ok? ==> AllFilenames(ext, Many1(Recognizer(ext), line).out)
  {
    var p := Recognizer(ext);
    var r := p(line);
    assert r == RecognizeFilename(ext, line);
    if r.Ok? {
      ManyFilenamesValid(ext, r.rest);
      var m := Many0(p, r.rest);
      assert Many1(p, line) == Ok(m.rest, [r.out] + m.out);
      AllFilenamesCons(ext, r.out, m.out);
    }
  }

  /**
   * A keyword line listing file names, each followed by its own run of
   * spaces and tabs, is read back as that list.
   */
  lemma ParseFilenamesOf(t: string, ext: string, w: string, fs: seq<string>, seps: seq<string>, b: string, x: string)
    requires AllMultispace(w)
    requires |fs| > 0 && forall i :: 0 <= i < |fs| ==> IsLineFilename(ext, fs[i])
    requires |seps| == |fs| && Gaps(seps)
    requires AllMultispace(b) && ((b != "" && IsLineBreak(b[0])) || (b == "" && x == ""))
    requires x == "" || !IsMultispace(x[0])
    ensures ParseFilenames(t, Recognizer(ext), t + (w + (JoinWith(fs, seps) + (b + x)))) == Ok(x, fs)
  {
    var line := JoinWith(fs, seps);
    LineFilenamesOf(ext, fs);
    JoinWithShape(ext, fs, seps);
    ParseIdentifierOf(t, w, line, b, x);
    NothingToRecognize(ext);
    ManyFilenamesOf(ext, fs, seps, "");
    assert line + "" == line;
    RecognizerProgress(ext, line);
    Many1IsMany0(Recognizer(ext), line);
  }

  /** A token that is not a file name with the extension is refused, whatever follows it on the line. */
  lemma RecognizeRefused(ext: string, g: string, more: string)
    requires |g| > 0 && ' ' !in g && '\t' !in g && !IsFilename(ext, g)
    requires more == "" || more[0] == ' ' || more[0] == '\t'
    ensures RecognizeFilename(ext, g + more) == Err(Error)
  {
    assert more + "" == more;
    TokenOf(g, more, "");
  }

  /** `many0(recognize_filename)` reads one more file name, and its gap, in front of what it already reads. */
  lemma ManyFilenamesCons(ext: string, f: string, sep: string, tail: string, rest: string, fs: seq<string>)
    requires IsLineFilename(ext, f) && Blank(sep)
    requires sep != "" || tail == ""
    requires AtToken(tail)
    requires Many0(Recognizer(ext), tail) == Ok(rest, fs)
    ensures Many0(Recognizer(ext), f + (sep + tail)) == Ok(rest, [f] + fs)
  {
    RecognizeNext(ext, f, sep, tail);
    RecognizerProgress(ext, f + (sep + tail));
    Many0Then(Recognizer(ext), f + (sep + tail), tail, f, rest, fs);
  }

  /** One more name and gap at the head of a list, before the same text. */
  lemma ManyFilenamesStep(ext: string, fs: seq<string>, seps: seq<string>, rest: string)
    requires |seps| == |fs| > 0 && LineFilenames(ext, fs) && Gaps(seps)
    requires rest != "" ==> seps[|fs| - 1] != ""
    requires AtToken(rest)
    requires Many0(Recognizer(ext), JoinWith(fs[1..], seps[1..]) + rest) == Ok(rest, fs[1..])
    ensures Many0(Recognizer(ext), JoinWith(fs, seps) + rest) == Ok(rest, fs)
  {
    var tail := JoinWith(fs[1..], seps[1..]) + rest;
    JoinWithSplit(ext, fs, seps, rest);
    assert IsLineFilename(ext, fs[0]) && Blank(seps[0]);
    assert seps[0] != "" || tail == "";
    ManyFilenamesCons(ext, fs[0], seps[0], tail, rest, fs[1..]);
    assert JoinWith(fs, seps) + rest == fs[0] + (seps[0] + tail);
    HeadTail(fs);
  }

  /** A list with more text after it splits after its first name and gap. */
  lemma JoinWithSplit(ext: string, fs: seq<string>, seps: seq<string>, rest: string)
    requires |seps| == |fs| > 0 && LineFilenames(ext, fs) && Gaps(seps)
    requires rest != "" ==> seps[|fs| - 1] != ""
    requires AtToken(rest)
    ensures JoinWith(fs, seps) + rest == fs[0] + (seps[0] + (JoinWith(fs[1..], seps[1..]) + rest))
    ensures AtToken(JoinWith(fs[1..], seps[1..]) + rest)
    ensures seps[0] != "" || JoinWith(fs[1..], seps[1..]) + rest == ""
  {
    var j := JoinWith(fs[1..], seps[1..]);
    assert JoinWith(fs, seps) == fs[0] + (seps[0] + j);
    assert (fs[0] + (seps[0] + j)) + rest == fs[0] + (seps[0] + (j + rest));
    if |fs| > 1 {
      assert forall i :: 0 <= i < |seps| - 1 ==> Blank(seps[1..][i]);
      JoinWithShape(ext, fs[1..], seps[1..]);
      assert (j + rest)[0] == j[0];
    } else {
      assert j + rest == rest;
    }
  }

  /** The gaps after the first name of a list keep the shape of the list's gaps. */
  lemma GapsTail(seps: seq<string>, rest: string)
    requires |seps| > 0 && Gaps(seps) && (rest != "" ==> seps[|seps| - 1] != "")
    ensures Gaps(seps[1..])
    ensures |seps| > 1 && rest != "" ==> seps[1..][|seps| - 2] != ""
  {
    assert forall i :: 0 <= i < |seps| - 1 ==> seps[1..][i] == seps[i + 1];
  }

  /** `many0(recognize_filename)` reads nothing from text whose first token it refuses. */
  lemma ManyFilenamesRefused(ext: string, rest: string)
    requires RecognizeFilename(ext, rest) == Err(Error)
    ensures Many0(Recognizer(ext), rest) == Ok(rest, [])
  {
    RecognizerProgress(ext, rest);
  }

  /**
   * A keyword line whose file names, each followed by its own run of spaces
   * and tabs, are followed by a token that is not a file name with the
   * extension is read back as the names before that token: the token and the
   * rest of its line are dropped.
   */
  lemma ParseFilenamesStopsAt(t: string, ext: string, w: string, fs: seq<string>, seps: seq<string>,
                              g: string, more: string, b: string, x: string)
    requires AllMultispace(w)
    requires |fs| > 0 && forall i :: 0 <= i < |fs| ==> IsLineFilename(ext, fs[i])
    requires |seps| == |fs| && Gaps(seps) && seps[|fs| - 1] != ""
    requires |g| > 0 && !IsMultispace(g[0]) && ' ' !in g && '\t' !in g && !IsFilename(ext, g)
    requires NoLineBreak(g + more) && (more == "" || more[0] == ' ' || more[0] == '\t')
    requires AllMultispace(b) && ((b != "" && IsLineBreak(b[0])) || (b == "" && x == ""))
    requires x == "" || !IsMultispace(x[0])
    ensures ParseFilenames(t, Recognizer(ext), t + (w + ((JoinWith(fs, seps) + (g + more)) + (b + x)))) == Ok(x, fs)
  {
    var rest := g + more;
    var j := JoinWith(fs, seps);
    var line := j + rest;
    LineFilenamesOf(ext, fs);
    JoinWithShape(ext, fs, seps);
    forall i | 0 <= i < |line| ensures !IsLineBreak(line[i]) {
      if i < |j| {
        assert line[i] == j[i];
      } else {
        assert line[i] == rest[i - |j|];
      }
    }
    assert line[0] == j[0];
    ParseIdentifierOf(t, w, line, b, x);
    RecognizeRefused(ext, g, more);
    ManyFilenamesOf(ext, fs, seps, rest);
    RecognizerProgress(ext, line);
    Many1IsMany0(Recognizer(ext), line);
  }

  /** `recognize_filename` always consumes something when it succeeds. */
  lemma RecognizerProgress(ext: string, s: string)
    ensures Recognizer(ext)(s) == RecognizeFilename(ext, s)
    ensures RecognizeFilename(ext, s).Ok? ==> |RecognizeFilename(ext, s).rest| < |s|
  {
    if RecognizeFilename(ext, s).Ok? {
      var k := TokenLength(s);
      assert IsSuffix(RecognizeFilename(ext, s).rest, s[k..]);
    }
  }

  /** A list of line file names with blank gaps starts with its first name and holds no line break. */
  lemma {:induction false} JoinWithShape(ext: string, fs: seq<string>, seps: seq<string>)
    requires |seps| == |fs| && LineFilenames(ext, fs)
    requires forall i :: 0 <= i < |seps| ==> Blank(seps[i])
    ensures |fs| > 0 ==> |JoinWith(fs, seps)| > 0 && !IsMultispace(JoinWith(fs, seps)[0])
    ensures NoLineBreak(JoinWith(fs, seps))
    decreases |fs|
  {
    if |fs| > 0 {
      var f, sep, rest := fs[0], seps[0], JoinWith(fs[1..], seps[1..]);
      assert IsLineFilename(ext, f) && Blank(sep);
      assert forall i :: 0 <= i < |seps| - 1 ==> seps[1..][i] == seps[i + 1];
      JoinWithShape(ext, fs[1..], seps[1..]);
      var j := f + (sep + rest);
      assert JoinWith(fs, seps) == j;
      forall i | 0 <= i < |j| ensures !IsLineBreak(j[i]) {
        if i < |f| {
          assert j[i] == f[i];
        } else if i < |f| + |sep| {
          assert j[i] == sep[i - |f|];
        } else {
          assert j[i] == rest[i - |f| - |sep|];
        }
      }
      assert j[0] == f[0];
    }
  }

  /** A file name followed by more of the line is read as that file name. */
  lemma RecognizeLeading(ext: string, f: string, more: string)
    requires IsLineFilename(ext, f)
    requires more == "" || more[0] == ' ' || more[0] == '\t'
    ensures RecognizeFilename(ext, f + more).Ok? && RecognizeFilename(ext, f + more).out == f
  {
    LineFilenameToken(ext, f);
    assert more + "" == more;
    TokenOf(f, more, "");
  }

  /** A line file name followed by more of the line holds no line break. */
  lemma LeadingLine(ext: string, f: string, more: string)
    requires IsLineFilename(ext, f) && NoLineBreak(more)
    ensures |f + more| > 0 && (f + more)[0] == f[0] && NoLineBreak(f + more)
  {
    var line := f + more;
    forall i | 0 <= i < |line| ensures !IsLineBreak(line[i]) {
      if i < |f| {
        assert line[i] == f[i];
      } else {
        assert line[i] == more[i - |f|];
      }
    }
  }

  /** A keyword line naming one file is read back as that file, whatever follows it on the line. */
  lemma ParseFileNameOf(t: string, ext: string, w: string, f: string, more: string, b: string, x: string)
    requires AllMultispace(w)
    requires IsLineFilename(ext, f)
    requires NoLineBreak(more) && (more == "" || more[0] == ' ' || more[0] == '\t')
    requires AllMultispace(b) && ((b != "" && IsLineBreak(b[0])) || (b == "" && x == ""))
    requires x == "" || !IsMultispace(x[0])
    ensures ParseFileName(t, Recognizer(ext), t + (w + ((f + more) + (b + x)))) == Ok(x, f)
  {
    LeadingLine(ext, f, more);
    ParseIdentifierOf(t, w, f + more, b, x);
    RecognizeLeading(ext, f, more);
  }

  /** A keyword line naming one file. */
  lemma ParseOneFilenameOf(t: string, ext: string, w: string, f: string, b: string, x: string)
    requires AllMultispace(w) && IsLineFilename(ext, f)
    requires AllMultispace(b) && ((b != "" && IsLineBreak(b[0])) || (b == "" && x == ""))
    requires x == "" || !IsMultispace(x[0])
    ensures ParseFilenames(t, Recognizer(ext), t + (w + (f + (b + x)))) == Ok(x, [f])
  {
    assert JoinWith([f], [""]) == f + ("" + JoinWith([], []));
    assert f + ("" + "") == f;
    ParseFilenamesOf(t, ext, w, [f], [""], b, x);
  }

  /** A keyword line naming two files, one space apart. */
  lemma ParseTwoFilenamesOf(t: string, ext: string, w: string, f: string, g: string, b: string, x: string)
    requires AllMultispace(w) && IsLineFilename(ext, f) && IsLineFilename(ext, g)
    requires AllMultispace(b) && ((b != "" && IsLineBreak(b[0])) || (b == "" && x == ""))
    requires x == "" || !IsMultispace(x[0])
    ensures ParseFilenames(t, Recognizer(ext), t + (w + (f + (" " + (g + (b + x)))))) == Ok(x, [f, g])
  {
    var fs, seps := [f, g], [" ", ""];
    assert fs[1..] == [g] && seps[1..] == [""];
    assert JoinWith(fs[1..], seps[1..]) == g + ("" + JoinWith([], []));
    assert JoinWith(fs, seps) == f + (" " + (g + ("" + "")));
    assert (f + (" " + (g + ("" + "")))) + (b + x) == f + (" " + (g + (b + x)));
    ParseFilenamesOf(t, ext, w, fs, seps, b, x);
  }

  /** On a keyword line, `parse_filenames` succeeds exactly when the line's text starts with a file name. */
  lemma ParseFilenamesFirstOf(t: string, ext: string, w: string, line: string, b: string, x: string)
    requires AllMultispace(w)
    requires |line| > 0 && !IsMultispace(line[0]) && NoLineBreak(line)
    requires AllMultispace(b) && ((b != "" && IsLineBreak(b[0])) || (b == "" && x == ""))
    requires x == "" || !IsMultispace(x[0])
    ensures ParseFilenames(t, Recognizer(ext), t + (w + (line + (b + x)))).Ok? <==>
            RecognizeFilename(ext, line).Ok?
  {
    ParseIdentifierOf(t, w, line, b, x);
    ParseFilenamesMatch(t, ext, t + (w + (line + (b + x))));
  }

  /** A keyword line whose text is one token of dots and slashes, a stem and the extension. */
  lemma ParseOnePartsOf(t: string, ext: string, w: string, f: string, p: string, stem: string, e: string,
                        b: string, x: string)
    requires AllMultispace(w)
    requires f == p + (stem + e)
    requires forall i :: 0 <= i < |p| ==> IsDotOrSlash(p[i])
    requires |stem| > 0 && !IsDotOrSlash(stem[0]) && '.' !in stem && Unbroken(stem)
    requires |e| > 0 && e[0] == '.' && EqualsNoCase(e, ext) && Unbroken(e)
    requires AllMultispace(b) && ((b != "" && IsLineBreak(b[0])) || (b == "" && x == ""))
    requires x == "" || !IsMultispace(x[0])
    ensures ParseFilenames(t, Recognizer(ext), t + (w + (f + (b + x)))) == Ok(x, [f])
  {
    LineFilenameOf(ext, f, p, stem, e);
    ParseOneFilenameOf(t, ext, w, f, b, x);
  }

  /** The same line with an ending other than the extension is refused. */
  lemma ParseRefusedPartsOf(t: string, ext: string, w: string, f: string, p: string, stem: string, e: string,
                            b: string, x: string)
    requires AllMultispace(w)
    requires f == p + (stem + e)
    requires forall i :: 0 <= i < |p| ==> IsDotOrSlash(p[i])
    requires |stem| > 0 && !IsDotOrSlash(stem[0]) && '.' !in stem && Unbroken(stem)
    requires |e| > 0 && e[0] == '.' && !EqualsNoCase(e, ext) && Unbroken(e)
    requires AllMultispace(b) && ((b != "" && IsLineBreak(b[0])) || (b == "" && x == ""))
    requires x == "" || !IsMultispace(x[0])
    ensures ParseFilenames(t, Recognizer(ext), t + (w + (f + (b + x)))) == Err(Error)
  {
    UnbrokenParts(p, stem, e);
    assert f[0] == (if p != "" then p[0] else stem[0]);
    assert f + ("" + "") == f;
    RecognizePartsOf(ext, f, p, stem, e, "", "");
    ParseFilenamesFirstOf(t, ext, w, f, b, x);
    ParseFilenamesMatch(t, ext, t + (w + (f + (b + x))));
  }

  /** A keyword line naming two files, each given by its parts. */
  lemma ParseTwoPartsOf(t: string, ext: string, w: string,
                        f: string, p: string, stem: string, e: string,
                        g: string, p': string, stem': string, e': string,
                        b: string, x: string)
    requires AllMultispace(w)
    requires f == p + (stem + e) && g == p' + (stem' + e')
    requires forall i :: 0 <= i < |p| ==> IsDotOrSlash(p[i])
    requires forall i :: 0 <= i < |p'| ==> IsDotOrSlash(p'[i])
    requires |stem| > 0 && !IsDotOrSlash(stem[0]) && '.' !in stem && Unbroken(stem)
    requires |stem'| > 0 && !IsDotOrSlash(stem'[0]) && '.' !in stem' && Unbroken(stem')
    requires |e| > 0 && e[0] == '.' && EqualsNoCase(e, ext) && Unbroken(e)
    requires |e'| > 0 && e'[0] == '.' && EqualsNoCase(e', ext) && Unbroken(e')
    requires AllMultispace(b) && ((b != "" && IsLineBreak(b[0])) || (b == "" && x == ""))
    requires x == "" || !IsMultispace(x[0])
    ensures ParseFilenames(t, Recognizer(ext), t + (w + (f + (" " + (g + (b + x)))))) == Ok(x, [f, g])
  {
    LineFilenameOf(ext, f, p, stem, e);
    LineFilenameOf(ext, g, p', stem', e');
    ParseTwoFilenamesOf(t, ext, w, f, g, b, x);
  }
}
