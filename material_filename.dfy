/**
 * `recognize_material_filename` and `parse_material_filenames`
 * (obj/material/filename.rs): the `mtllib` line of an OBJ file, which names
 * one or more `.mtl` material libraries.
 */
module MaterialFilename {
  import opened Nom
  import opened Whitespace
  import opened Identifier
  import opened Filename

  /**
   * `recognize_material_filename`: `recognize_filename(".mtl", input)`. The
   * token up to the next space or tab must be a whole `.mtl` file name, in
   * any case.
   */
  function RecognizeMaterialFilename(s: string): (r: Result<string>)
    ensures r.Err? ==> r.failure == Error
    ensures r.Ok? <==> TokenLength(s) > 0 && IsFilename(".mtl", s[..TokenLength(s)])
    ensures r.Ok? ==> r.out == s[..TokenLength(s)] && r.rest == SkipSpace(s[TokenLength(s)..])
  {
    RecognizeFilename(".mtl", s)
  }

  /**
   * `parse_material_filenames`: `parse_filenames("mtllib",
   * recognize_material_filename, input)`. It succeeds exactly when the line
   * starts with `mtllib` and its text with a `.mtl` file name; every name
   * it outputs is one.
   */
  function ParseMaterialFilenames(s: string): (r: Result<seq<string>>)
    ensures r.Err? ==> r.failure == Error
    ensures r.Ok? <==> ParseIdentifier("mtllib", s).Ok? &&
                       RecognizeMaterialFilename(ParseIdentifier("mtllib", s).out).Ok?
    ensures r.Ok? ==> |r.out| > 0 && AllFilenames(".mtl", r.out)
    ensures r.Ok? ==> r.rest == ParseIdentifier("mtllib", s).rest
  {
    ParseFilenamesMatch("mtllib", ".mtl", s);
    ParseFilenames("mtllib", Recognizer(".mtl"), s)
  }

  // ------------------------------------------------- test_recognize_material_filename

  /** A relative path with a parent folder. */
  lemma RecognizeExampleParent()
    ensures RecognizeMaterialFilename("../a/ab.mtl") == Ok("", "../a/ab.mtl")
  {
    assert "../a/ab.mtl" + ("" + "") == "../a/ab.mtl";
    assert EqualsNoCase(".mtl", ".mtl");
    RecognizePartsOf(".mtl", "../a/ab.mtl", "../", "a/ab", ".mtl", "", "");
  }

  /** The space after the name is skipped. */
  lemma RecognizeExampleTrailingSpace()
    ensures RecognizeMaterialFilename("../a/ab.mtl ") == Ok("", "../a/ab.mtl")
  {
    assert "../a/ab.mtl" + (" " + "") == "../a/ab.mtl ";
    assert EqualsNoCase(".mtl", ".mtl");
    RecognizePartsOf(".mtl", "../a/ab.mtl", "../", "a/ab", ".mtl", " ", "");
  }

  /** Only the first of two names is read, and the extension's case does not matter (the input is
   * "subfolder/material.MTL ./folder/filename.MtL", written in its parts). */
  lemma RecognizeExampleTwoNames()
    ensures RecognizeMaterialFilename("subfolder/material.MTL" + (" " + "./folder/filename.MtL")) == Ok("./folder/filename.MtL", "subfolder/material.MTL")
  {
    assert EqualsNoCase(".MTL", ".mtl");
    RecognizePartsOf(".mtl", "subfolder/material.MTL", "", "subfolder/material", ".MTL", " ", "./folder/filename.MtL");
  }

  /** A bare name in mixed case. */
  lemma RecognizeExampleBare()
    ensures RecognizeMaterialFilename("filename.MtL") == Ok("", "filename.MtL")
  {
    assert "filename.MtL" + ("" + "") == "filename.MtL";
    assert EqualsNoCase(".MtL", ".mtl");
    RecognizePartsOf(".mtl", "filename.MtL", "", "filename", ".MtL", "", "");
  }

  /** "./folder/filename.MtL" in its parts: leading "./", the stem, and the extension in mixed case. */
  lemma SubfolderParts()
    ensures "./folder/filename.MtL" == "./" + ("folder/filename" + ".MtL")
    ensures forall i :: 0 <= i < |"./"| ==> IsDotOrSlash("./"[i])
    ensures '.' !in "folder/filename" && !IsDotOrSlash("folder/filename"[0])
    ensures EqualsNoCase(".MtL", ".mtl")
  {}

  lemma SubfolderUnbroken()
    ensures Unbroken("folder/filename") && Unbroken(".MtL")
  {}

  /** A name in a folder below the current one. */
  lemma RecognizeExampleSubfolder()
    ensures RecognizeMaterialFilename("./folder/filename.MtL") == Ok("", "./folder/filename.MtL")
  {
    assert "./folder/filename.MtL" + ("" + "") == "./folder/filename.MtL";
    SubfolderParts();
    SubfolderUnbroken();
    RecognizePartsOf(".mtl", "./folder/filename.MtL", "./", "folder/filename", ".MtL", "", "");
  }

  /** "./folder/.filename.mtl" in its parts: the stem stops at the folder's slash. */
  lemma HiddenFileParts()
    ensures "./folder/.filename.mtl" == "./" + ("folder/" + ".filename.mtl")
    ensures forall i :: 0 <= i < |"./"| ==> IsDotOrSlash("./"[i])
    ensures '.' !in "folder/" && !IsDotOrSlash("folder/"[0])
    ensures !EqualsNoCase(".filename.mtl", ".mtl")
  {}

  lemma HiddenFileUnbroken()
    ensures Unbroken("folder/") && Unbroken(".filename.mtl")
  {}

  /** A hidden file inside a folder is refused: its stem ends at the folder's slash. */
  lemma RecognizeExampleHiddenFile()
    ensures RecognizeMaterialFilename("./folder/.filename.mtl").Err?
  {
    assert "./folder/.filename.mtl" + ("" + "") == "./folder/.filename.mtl";
    HiddenFileParts();
    HiddenFileUnbroken();
    RecognizePartsOf(".mtl", "./folder/.filename.mtl", "./", "folder/", ".filename.mtl", "", "");
  }

  /** An extension alone has no stem before it. */
  lemma RecognizeExampleNoStem()
    ensures RecognizeMaterialFilename(".mtl").Err?
  {
    assert ".mtl" + ("" + "") == ".mtl";
    RecognizePartsOf(".mtl", ".mtl", ".", "mtl", "", "", "");
  }

  /** "mtl" after dots and slashes is a stem without an extension. */
  lemma RecognizeExampleNoExtension()
    ensures RecognizeMaterialFilename("././mtl").Err?
  {
    assert "././mtl" + ("" + "") == "././mtl";
    RecognizePartsOf(".mtl", "././mtl", "././", "mtl", "", "", "");
  }

  /** The dot of the extension is taken as one of the leading dots. */
  lemma RecognizeExampleDotsOnly()
    ensures RecognizeMaterialFilename("././.mtl").Err?
  {
    assert "././.mtl" + ("" + "") == "././.mtl";
    RecognizePartsOf(".mtl", "././.mtl", "././.", "mtl", "", "", "");
  }

  /** The same after a slash. */
  lemma RecognizeExampleRoot()
    ensures RecognizeMaterialFilename("/.mtl").Err?
  {
    assert "/.mtl" + ("" + "") == "/.mtl";
    RecognizePartsOf(".mtl", "/.mtl", "/.", "mtl", "", "", "");
  }

  // -------------------------------------------------- test_parse_material_filenames

  /** One library, and nothing after it. */
  lemma ParseExampleOne()
    ensures ParseMaterialFilenames("mtllib Super_Mario.mtl") == Ok("", ["Super_Mario.mtl"])
  {
    assert "mtllib" + (" " + ("Super_Mario.mtl" + ("" + ""))) == "mtllib Super_Mario.mtl";
    assert EqualsNoCase(".mtl", ".mtl");
    ParseOnePartsOf("mtllib", ".mtl", " ", "Super_Mario.mtl", "", "Super_Mario", ".mtl", "", "");
  }

  /**
   * A leading dot is allowed; the next line is left (the input is
   * "mtllib .Super_Mario.mtl\r\ng", written in its parts).
   */
  lemma ParseExampleHidden()
    ensures ParseMaterialFilenames("mtllib" + (" " + (".Super_Mario.mtl" + ("\r\n" + "g")))) == Ok("g", [".Super_Mario.mtl"])
  {
    assert EqualsNoCase(".mtl", ".mtl");
    ParseOnePartsOf("mtllib", ".mtl", " ", ".Super_Mario.mtl", ".", "Super_Mario", ".mtl", "\r\n", "g");
  }

  /**
   * The next line is left even when it looks like an extension (the input is
   * "mtllib subfolder/material.MTL\r\n.mtl", written in its parts).
   */
  lemma ParseExampleNextLineExtension()
    ensures ParseMaterialFilenames("mtllib" + (" " + ("subfolder/material.MTL" + ("\r\n" + ".mtl"))))
         == Ok(".mtl", ["subfolder/material.MTL"])
  {
    assert EqualsNoCase(".MTL", ".mtl");
    ParseOnePartsOf("mtllib", ".mtl", " ", "subfolder/material.MTL", "", "subfolder/material", ".MTL", "\r\n", ".mtl");
  }

  /**
   * Two libraries on one line (the input is
   * "mtllib subfolder/material.mtl material.mtl\nnext line", written in its parts).
   */
  lemma ParseExampleTwo()
    ensures ParseMaterialFilenames("mtllib" + (" " + ("subfolder/material.mtl" + (" " + ("material.mtl" + ("\n" + "next line"))))))
         == Ok("next line", ["subfolder/material.mtl", "material.mtl"])
  {
    assert EqualsNoCase(".mtl", ".mtl");
    ParseTwoPartsOf("mtllib", ".mtl", " ", "subfolder/material.mtl", "", "subfolder/material", ".mtl",
                    "material.mtl", "", "material", ".mtl", "\n", "next line");
  }

  /** The first name of the mixed-case example is a `.mtl` file name that can stand on a line. */
  lemma MixedCaseFirstName()
    ensures IsLineFilename(".mtl", "subfolder/material.MTL")
  {
    assert EqualsNoCase(".MTL", ".mtl");
    LineFilenameOf(".mtl", "subfolder/material.MTL", "", "subfolder/material", ".MTL");
  }

  /** So is its second name. */
  lemma MixedCaseSecondName()
    ensures IsLineFilename(".mtl", "./folder/filename.MtL")
  {
    SubfolderParts();
    SubfolderUnbroken();
    LineFilenameOf(".mtl", "./folder/filename.MtL", "./", "folder/filename", ".MtL");
  }

  /**
   * Two libraries in mixed case (the input is
   * "mtllib subfolder/material.MTL ./folder/filename.MtL\r\nnext line", written in its parts).
   */
  lemma ParseExampleTwoMixedCase()
    ensures ParseMaterialFilenames("mtllib" + (" " + ("subfolder/material.MTL" + (" " + ("./folder/filename.MtL" + ("\r\n" + "next line"))))))
         == Ok("next line", ["subfolder/material.MTL", "./folder/filename.MtL"])
  {
    LineBreakThenText();
    MixedCaseFirstName();
    MixedCaseSecondName();
    ParseTwoOf("subfolder/material.MTL", "./folder/filename.MtL", "\r\n", "next line");
  }

  /** "\r\n" ends a line and "next line" starts the next one. */
  lemma LineBreakThenText()
    ensures AllMultispace("\r\n") && IsLineBreak("\r\n"[0]) && !IsMultispace("next line"[0])
  {}

  /** An `mtllib` line with two library names, one space apart, is read back as those names. */
  lemma ParseTwoOf(f: string, g: string, b: string, x: string)
    requires IsLineFilename(".mtl", f) && IsLineFilename(".mtl", g)
    requires AllMultispace(b) && ((b != "" && IsLineBreak(b[0])) || (b == "" && x == ""))
    requires x == "" || !IsMultispace(x[0])
    ensures ParseMaterialFilenames("mtllib" + (" " + (f + (" " + (g + (b + x)))))) == Ok(x, [f, g])
  {
    ParseTwoFilenamesOf("mtllib", ".mtl", " ", f, g, b, x);
  }

  /** An `mtllib` line listing library names, each followed by its own run of spaces and tabs, is read back as that list. */
  lemma ParseListOf(w: string, fs: seq<string>, seps: seq<string>, b: string, x: string)
    requires AllMultispace(w)
    requires |fs| > 0 && forall i :: 0 <= i < |fs| ==> IsLineFilename(".mtl", fs[i])
    requires |seps| == |fs| && Gaps(seps)
    requires AllMultispace(b) && ((b != "" && IsLineBreak(b[0])) || (b == "" && x == ""))
    requires x == "" || !IsMultispace(x[0])
    ensures ParseMaterialFilenames("mtllib" + (w + (JoinWith(fs, seps) + (b + x)))) == Ok(x, fs)
  {
    ParseFilenamesOf("mtllib", ".mtl", w, fs, seps, b, x);
  }

  /** "other.mtl" is a `.mtl` file name that can stand on a line. */
  lemma OtherName()
    ensures IsLineFilename(".mtl", "other.mtl")
  {
    assert EqualsNoCase(".mtl", ".mtl");
    LineFilenameOf(".mtl", "other.mtl", "", "other", ".mtl");
  }

  /** "material.mtl", a tab and a space, then "other.mtl" and a trailing space. */
  lemma TabbedLine()
    ensures JoinWith(["material.mtl", "other.mtl"], ["\t ", " "]) == "material.mtl" + ("\t " + ("other.mtl" + (" " + "")))
  {
    var fs, seps := ["material.mtl", "other.mtl"], ["\t ", " "];
    assert fs[1..] == ["other.mtl"] && seps[1..] == [" "];
    assert JoinWith(fs[1..], seps[1..]) == "other.mtl" + (" " + JoinWith([], []));
  }

  /** A tab and a space, then a space: both gaps are blank. */
  lemma TabbedGaps()
    ensures Gaps(["\t ", " "])
  {
    assert Blank("\t ") && Blank(" ");
  }

  /** Both names of the tabbed line can stand on a line. */
  lemma TabbedNames()
    ensures forall i :: 0 <= i < 2 ==> IsLineFilename(".mtl", ["material.mtl", "other.mtl"][i])
  {
    MaterialName();
    OtherName();
  }

  /**
   * Names may be separated by any run of spaces and tabs, and blanks may end
   * the line (the input is "mtllib\tmaterial.mtl\t other.mtl \r\nnext line",
   * written in its parts).
   */
  lemma ParseExampleTabs()
    ensures ParseMaterialFilenames("mtllib" + ("\t" + (("material.mtl" + ("\t " + ("other.mtl" + (" " + "")))) + ("\r\n" + "next line"))))
         == Ok("next line", ["material.mtl", "other.mtl"])
  {
    LineBreakThenText();
    TabbedLine();
    TabbedGaps();
    TabbedNames();
    ParseListOf("\t", ["material.mtl", "other.mtl"], ["\t ", " "], "\r\n", "next line");
  }

  /**
   * Another extension is refused (the input is "mtllib Super_Mario.mtr\r\ng",
   * written in its parts).
   */
  lemma ParseExampleWrongExtension()
    ensures ParseMaterialFilenames("mtllib" + (" " + ("Super_Mario.mtr" + ("\r\n" + "g")))).Err?
  {
    assert Lower(".mtr"[3]) != Lower(".mtl"[3]);
    ParseRefusedPartsOf("mtllib", ".mtl", " ", "Super_Mario.mtr", "", "Super_Mario", ".mtr", "\r\n", "g");
  }

  /** Text glued to the extension is refused. */
  lemma ParseExampleLongerExtension()
    ensures ParseMaterialFilenames("mtllib Super_Mario.mtlg").Err?
  {
    assert "mtllib" + (" " + ("Super_Mario.mtlg" + ("" + ""))) == "mtllib Super_Mario.mtlg";
    ParseRefusedPartsOf("mtllib", ".mtl", " ", "Super_Mario.mtlg", "", "Super_Mario", ".mtlg", "", "");
  }

  /**
   * An `mtllib` line whose library name is followed, after a run of spaces
   * and tabs, by a token that is not one is read back as that name.
   */
  lemma ParseStopsAtOf(f: string, sep: string, g: string, more: string, b: string, x: string)
    requires IsLineFilename(".mtl", f) && Blank(sep) && sep != ""
    requires |g| > 0 && !IsMultispace(g[0]) && ' ' !in g && '\t' !in g && !IsFilename(".mtl", g)
    requires NoLineBreak(g + more) && (more == "" || more[0] == ' ' || more[0] == '\t')
    requires AllMultispace(b) && ((b != "" && IsLineBreak(b[0])) || (b == "" && x == ""))
    requires x == "" || !IsMultispace(x[0])
    ensures ParseMaterialFilenames("mtllib" + (" " + ((f + (sep + (g + more))) + (b + x)))) == Ok(x, [f])
  {
    assert JoinWith([f], [sep]) == f + (sep + JoinWith([], []));
    assert (f + (sep + "")) + (g + more) == f + (sep + (g + more));
    ParseFilenamesStopsAt("mtllib", ".mtl", " ", [f], [sep], g, more, b, x);
  }

  /** "material.mtl" is a `.mtl` file name that can stand on a line. */
  lemma MaterialName()
    ensures IsLineFilename(".mtl", "material.mtl")
  {
    assert EqualsNoCase(".mtl", ".mtl");
    LineFilenameOf(".mtl", "material.mtl", "", "material", ".mtl");
  }

  /** "notes.txt" is a token, but not a `.mtl` file name. */
  lemma NotesName()
    ensures |"notes.txt"| > 0 && !IsMultispace("notes.txt"[0]) && ' ' !in "notes.txt" && '\t' !in "notes.txt"
    ensures !IsFilename(".mtl", "notes.txt")
  {
    assert Lower(".txt"[1]) != Lower(".mtl"[1]);
    FilenameOf(".mtl", "", "notes", ".txt");
  }

  /** "notes.txt other.mtl" holds no line break; "\n" ends the line and "next line" starts the next. */
  lemma NotesLine()
    ensures NoLineBreak("notes.txt" + " other.mtl")
    ensures AllMultispace("\n") && IsLineBreak("\n"[0]) && !IsMultispace("next line"[0])
  {}

  /**
   * Reading stops at the first token that is not a `.mtl` file name, and the
   * rest of its line is dropped (the input is
   * "mtllib material.mtl notes.txt other.mtl\nnext line", written in its parts).
   */
  lemma ParseExampleStopsAtOtherExtension()
    ensures ParseMaterialFilenames("mtllib" + (" " + (("material.mtl" + (" " + ("notes.txt" + " other.mtl"))) + ("\n" + "next line"))))
         == Ok("next line", ["material.mtl"])
  {
    MaterialName();
    NotesName();
    NotesLine();
    ParseStopsAtOf("material.mtl", " ", "notes.txt", " other.mtl", "\n", "next line");
  }

  /** A misspelt keyword is refused. */
  lemma ParseExampleWrongKeyword()
    ensures ParseMaterialFilenames("mtlib Super_Mario.mtl\r\ng").Err?
  {
    KeywordMissing("mtllib", "mtlib Super_Mario.mtl\r\ng", 3);
  }
}
