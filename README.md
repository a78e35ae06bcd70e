# OBJ/MTL record parsers and the closest-hit reducer of a Rust ray tracer

This project is a Dafny model of two parts of a small Rust ray tracer.

The first part is the set of text parsers for Wavefront OBJ and MTL files, built from `nom` combinators. Each one is a pure function from the input text to either an error or the unread rest of the input together with an output. The parsers read:

- decimal integers (`decimal`, `parse_integer`);
- number lexemes (`float`, `parse_float`);
- `#` comments (`parse_eol_comment`);
- keyword-and-name lines (`usemtl`, `usemap`);
- keyword-and-file-name lines (`mtllib`, `maplib`), whose extension is checked without regard to case;
- the `v`, `vn` and `vt` vertex records, whose optional fields have defaults;
- the corners of an `f` face record (`v`, `v/t`, `v//n`, `v/t/n`).

The second part is `find_closest_intersection`. It folds over the objects of a scene, or the children of a composite shape, and keeps the best hit so far.

Module by module:

- `Nom` models the `nom` 7 combinators the parsers use: `tag`, `tag_no_case`, `char`, `one_of`, `is_not`, `take_while`, `take_while1`, `multispace0`, `alt`, `opt`, `recognize`, `all_consuming`, `many0`, `many1` and `many_till`.
  - A recoverable `nom` error is `Err(Error)`.
  - An `unwrap` that fails inside a mapped conversion is `Err(Panic)`. Every combinator passes it on without backtracking.
- `Whitespace`, `Integer`, `Floats`, `Comment`, `Identifier`, `Filename`, `MaterialFilename`, `Map` and `MaterialIdentifier` model the shared parsers and their one-line instances.
- `Fields` holds `tws(parse_float)`, the number field that the vertex records share.
- `Vertices`, `Vectors`, `Textures` and `Polygons` model the records.
- `Intersection` models the reducer. It is an imperative method, proved against a specification function.

The source's integers are `usize`, a 64-bit type here. Values from 2^64 up make `parse_integer` panic. Numbers are exact rational values (`real`).

The parsers come with "…Of" lemmas. Each one states that the parser reads back what a writer function produces: a number's text, a corner's text, a face's text, a line of file names. The source's unit tests are proved as lemmas about the exact strings they use.

## Model

| member | source | states |
|---|---|---|
| Whitespace.SkipSpace | src/scene/object/parsers/common/whitespace.rs:11 | `multispace0` leaves a suffix. Only whitespace is skipped, and the rest does not start with space, tab, CR or LF. |
| Whitespace.Tws | src/scene/object/parsers/common/whitespace.rs:3-11 | `tws(p)` fails exactly when `p` fails, with the same failure. On success it keeps `p`'s output, skips only whitespace after `p`'s rest, and leaves no leading whitespace. |
| Whitespace.SkipSpaceOver | src/scene/object/parsers/common/whitespace.rs:11 | Over a run of whitespace `w` followed by non-whitespace `x`, exactly `w` is skipped. |
| Whitespace.SkipNoSpace | src/scene/object/parsers/common/whitespace.rs:11 | Where no whitespace starts, nothing is skipped. |
| Whitespace.TwsIdempotent | src/scene/object/parsers/common/whitespace.rs:11 | `tws(tws(p))` gives the same result as `tws(p)`. |
| Whitespace.TwsOver | src/scene/object/parsers/common/whitespace.rs:11 | After a success whose rest is `w + x`, `tws` leaves exactly `x` and keeps the output. |
| Integer.DigitGroup | src/scene/object/parsers/common/integer.rs:10 | `terminated(one_of(digits), many0(char('_')))` succeeds exactly on a leading digit, then skips the underscores after it. |
| Integer.UnderscoresMatch | src/scene/object/parsers/common/integer.rs:10 | `many0(char('_'))` never fails and leaves the input minus its leading underscores. |
| Integer.DigitGroupsMatch1 | src/scene/object/parsers/common/integer.rs:10 | `many1` of digit groups succeeds exactly on a leading digit, and it reads the whole run of digits and underscores. |
| Integer.Decimal | src/scene/object/parsers/common/integer.rs:9-11 | `decimal` succeeds exactly when the input starts with a digit. The matched text followed by the rest is the input, and it is the whole run of digits and underscores. |
| Integer.DecimalOf | src/scene/object/parsers/common/integer.rs:9-11 | Digits and underscores, starting with a digit and followed by neither, are matched whole. |
| Integer.DecimalMatchIsRun | src/scene/object/parsers/common/integer.rs:10 | The match is the run of digits and underscores; a match without `_` is exactly the run of digits. |
| Integer.ParseInteger | src/scene/object/parsers/common/integer.rs:24-30 | Error exactly when no digit starts the input. Panic exactly when the matched text holds `_` or is 2^64 or more. Otherwise the output is the value of the leading digits, below 2^64, and the rest starts after them, not with `_`. |
| Integer.NatToDecimalValue | src/scene/object/parsers/common/integer.rs:24-26 | The decimal text written for `n` is worth `n`. |
| Integer.ParseIntegerRoundTrip | src/scene/object/parsers/common/integer.rs:28-30 | `parse_integer` reads back the decimal text of every `usize`, up to whatever follows that is not a digit or `_`. |
| Integer.DecimalExamples | src/scene/object/parsers/common/integer.rs:13-22 | `test_decimal`: "0 ", "5 " and "75_000" are matched; "-1", ".1" and "_1" are refused. |
| Integer.ParseIntegerExampleZero | src/scene/object/parsers/common/integer.rs:34 | "0\r\n" gives 0 and leaves "\r\n". |
| Integer.ParseIntegerExampleFive | src/scene/object/parsers/common/integer.rs:35 | "5 " gives 5 and leaves " ". |
| Integer.ParseIntegerExampleLarge | src/scene/object/parsers/common/integer.rs:36 | "14000" gives 14000 and leaves "". |
| Floats.SignedDecimal | src/scene/object/parsers/common/float.rs:18 | `opt(one_of("+-"))` then `decimal` succeeds exactly on a digit, or on a sign followed by a digit. |
| Floats.Exponent | src/scene/object/parsers/common/float.rs:24-26 | An exponent is `e` or `E`, an optional sign and digits. The match followed by the rest is the input. |
| Floats.Fraction | src/scene/object/parsers/common/float.rs:23 | `preceded(char('.'), decimal)` succeeds exactly on a dot followed by a digit. |
| Floats.LeadingDot | src/scene/object/parsers/common/float.rs:14-19 | Case one succeeds exactly on a dot followed by a digit. |
| Floats.Scientific | src/scene/object/parsers/common/float.rs:20-27 | Case two succeeds only on a leading digit and always consumes something. |
| Floats.TrailingDot | src/scene/object/parsers/common/float.rs:28-29 | Case three succeeds exactly when the digits are followed by a dot. |
| Floats.Unsigned | src/scene/object/parsers/common/float.rs:13-32 | The four alternatives together succeed exactly on a digit, or on a dot followed by a digit. |
| Floats.Float | src/scene/object/parsers/common/float.rs:10-34 | `float` succeeds exactly when, after an optional `-`, a digit or a dot and a digit follow. Its output followed by the rest is the input, and it is never empty. |
| Floats.ParseFloat | src/scene/object/parsers/common/float.rs:44-50 | Error exactly when `float` fails. Panic exactly when the lexeme holds `_`. Otherwise the rest is `float`'s rest and the value is the lexeme's exact value. |
| Floats.ExponentOf | src/scene/object/parsers/common/float.rs:18 | An exponent followed by neither a digit nor `_` is read whole. |
| Floats.LeadingDotOf | src/scene/object/parsers/common/float.rs:14-19 | ".42" and ".42e1" are read up to the end of the number. |
| Floats.ScientificOf | src/scene/object/parsers/common/float.rs:20-27 | "42e1" and "42.42e1" are read up to the end of the number. |
| Floats.ScientificFailsOnDot | src/scene/object/parsers/common/float.rs:20-27 | Without an exponent, case two refuses "42." and "42.42", so case three is tried. |
| Floats.TrailingDotOf | src/scene/object/parsers/common/float.rs:28-29 | "42." and "42.42" are read up to the end of the number. |
| Floats.IntegerOnly | src/scene/object/parsers/common/float.rs:20-31 | A bare "42" is refused by cases two and three and read by case four. |
| Floats.UnsignedOf | src/scene/object/parsers/common/float.rs:13-32 | The alternatives read a number's unsigned text up to its end, whichever form it has. |
| Floats.FloatOf | src/scene/object/parsers/common/float.rs:10-34 | `float` reads every well-formed number's text and outputs exactly that text. |
| Floats.LexemeValueOf | src/scene/object/parsers/common/float.rs:44-46 | The value given to a lexeme is the value of the number it writes. |
| Floats.NoUnderscore | src/scene/object/parsers/common/float.rs:44-46 | A well-formed number's text holds no `_`, so the conversion does not panic on it. |
| Floats.ParseFloatOf | src/scene/object/parsers/common/float.rs:48-50 | `parse_float` reads back every number's text as its value, up to what follows it. |
| Floats.FloatExampleLeadingDot | src/scene/object/parsers/common/float.rs:38 | ".42" is read whole. |
| Floats.FloatExampleTrailingDot | src/scene/object/parsers/common/float.rs:39 | "1." is read whole. |
| Floats.FloatExampleNegative | src/scene/object/parsers/common/float.rs:40 | "-7.42e+13b" gives "-7.42e+13" and leaves "b". |
| Floats.FloatExampleExponent | src/scene/object/parsers/common/float.rs:41 | "3.42e-15 " gives "3.42e-15" and leaves " ". |
| Floats.ParseFloatExampleSpace | src/scene/object/parsers/common/float.rs:54 | "0.187 " gives 0.187 and leaves " ". |
| Floats.ParseFloatExampleNegative | src/scene/object/parsers/common/float.rs:55 | "-3.14159" gives -3.14159. |
| Floats.ParseFloatExampleBareMarker | src/scene/object/parsers/common/float.rs:56 | "0.187e" gives 0.187 and leaves "e", since an exponent needs digits. |
| Comment.ParseEolComment | src/scene/object/parsers/common/comment.rs:9-14 | Error exactly unless the input is `#` followed by a character that is not a line break. On success the comment runs to the end of its line, and all whitespace after it is skipped. |
| Comment.ParseEolCommentOf | src/scene/object/parsers/common/comment.rs:9-14 | A comment line and the line breaks and blank lines after it are consumed; what follows is left. |
| Comment.EmptyCommentFails | src/scene/object/parsers/common/comment.rs:12 | A `#` followed directly by a line break, or by nothing, is refused, since `is_not` needs a character. |
| Comment.ParseEolCommentExampleOneBreak | src/scene/object/parsers/common/comment.rs:18-21 | The first test case. |
| Comment.ParseEolCommentExampleBlankLine | src/scene/object/parsers/common/comment.rs:22-25 | The second test case: a blank line is skipped too. |
| Comment.ParseEolCommentExampleNextComment | src/scene/object/parsers/common/comment.rs:26-29 | The third test case: the next comment is left. |
| Identifier.LineLength | src/object/parsers/common/identifier.rs:9 | `is_not("\r\n")` stops at the first line break, and what it reads holds none. |
| Identifier.ParseIdentifier | src/object/parsers/common/identifier.rs:8-10 | It succeeds exactly when the keyword starts the input and something other than whitespace follows it. The output is the rest of that line; the rest of the input comes after the line break and blank lines. |
| Identifier.IdentifierShape | src/object/parsers/common/identifier.rs:9 | The name is non-empty, does not start with whitespace and holds no line break. The rest is a suffix without leading whitespace. |
| Identifier.ParseIdentifierOf | src/object/parsers/common/identifier.rs:8-10 | A keyword line is read back as its name, whatever whitespace is around it. |
| Identifier.KeywordMissing | src/object/parsers/common/identifier.rs:9 | Input that differs from the keyword at any position is refused. |
| Filename.UpToExtensionMatch | src/scene/object/parsers/common/filename.rs:19 | `many_till(take_while(\|_\| true), tag_no_case(ext))` succeeds exactly when the extension is at the very start. |
| Filename.FilenameShape | src/scene/object/parsers/common/filename.rs:16-20 | Leading dots and slashes, a non-empty stem up to the first dot, then the extension in any case. |
| Filename.FilenameShapeMatch | src/scene/object/parsers/common/filename.rs:16-20 | With `all_consuming`, the token is accepted exactly when it is such a file name. |
| Filename.FilenameEndsWithExtension | src/scene/object/parsers/common/filename.rs:16-20 | An accepted file name ends in the extension, ignoring case. |
| Filename.RecognizeFilename | src/scene/object/parsers/common/filename.rs:11-22 | It succeeds exactly when the token up to the next space or tab is a file name. The output is that token, and the whitespace after it is skipped. |
| Filename.ParseFileName | src/scene/object/parsers/common/filename.rs:24-35 | On success the keyword line was read, the output is what the recogniser gives on its text, and the rest follows the line. |
| Filename.ParseFilenames | src/scene/object/parsers/common/filename.rs:37-48 | On success the keyword line was read, the first name is the recogniser's output on its text, and the rest follows the line. |
| Filename.FilenameOf | src/scene/object/parsers/common/filename.rs:16-20 | Dots and slashes, a stem and a dotted ending form a file name exactly when the ending is the extension. |
| Filename.RecognizeFilenameOf | src/scene/object/parsers/common/filename.rs:11-22 | A token followed by whitespace is read exactly when it is a file name. |
| Filename.RecognizePartsOf | src/scene/object/parsers/common/filename.rs:11-22 | A token given by its parts is read exactly when its ending is the extension; otherwise it is an error. |
| Filename.ManyFilenamesOf | src/scene/object/parsers/common/filename.rs:46 | The loop reads back every name of a list whose gaps are any runs of spaces and tabs. It stops, without failing, at the end of the text or at the first token after the list that the recogniser refuses, and leaves that token. |
| Filename.ManyFilenamesValid | src/scene/object/parsers/common/filename.rs:46 | Every name the loop outputs is a file name with the extension. |
| Filename.ParseFilenamesMatch | src/scene/object/parsers/common/filename.rs:37-48 | `parse_filenames` succeeds exactly when the keyword line's text starts with a file name. Every name it outputs is a file name, and it fails only with an error. |
| Filename.ManyOneFilenames | src/scene/object/parsers/common/filename.rs:46 | `many1` of the recogniser succeeds exactly when the first token is a file name. |
| Filename.ParseFilenamesOf | src/scene/object/parsers/common/filename.rs:37-48 | A keyword line listing file names, each followed by its own run of spaces and tabs (the last run may be empty), is read back as exactly that list. |
| Filename.RecognizeRefused | src/scene/object/parsers/common/filename.rs:11-22 | A token that is not a file name with the extension is refused, whatever follows it on the line. |
| Filename.ParseFilenamesStopsAt | src/scene/object/parsers/common/filename.rs:37-48 | A keyword line whose names, each followed by a non-empty run of spaces and tabs, are followed by a token that is not a file name gives the names before it. That token and the rest of its line are dropped, and the rest of the input follows the line. |
| Filename.ParseFileNameOf | src/scene/object/parsers/common/filename.rs:24-35 | A keyword line starting with a file name gives that name. The rest of the line, after a space or a tab, is dropped. |
| Filename.ParseTwoFilenamesOf | src/scene/object/parsers/common/filename.rs:37-48 | A line with two names gives both, in order. |
| Filename.ParseFilenamesFirstOf | src/scene/object/parsers/common/filename.rs:37-48 | On a keyword line, success is decided by the first token alone. |
| Filename.ParseRefusedPartsOf | src/scene/object/parsers/common/filename.rs:37-48 | A line whose single name has another extension is refused. |
| MaterialFilename.RecognizeMaterialFilename | src/object/parsers/obj/material/filename.rs:4-6 | The `.mtl` instance of `recognize_filename`, with the same exact success condition. |
| MaterialFilename.ParseMaterialFilenames | src/object/parsers/obj/material/filename.rs:40-42 | It succeeds exactly when the line starts with `mtllib` and its text with an `.mtl` file name. Every output name is one, and the rest follows the line. |
| MaterialFilename.RecognizeExampleParent | src/object/parsers/obj/material/filename.rs:11-14 | "../a/ab.mtl" is read whole. |
| MaterialFilename.RecognizeExampleTrailingSpace | src/object/parsers/obj/material/filename.rs:15-18 | The space after the name is skipped. |
| MaterialFilename.RecognizeExampleTwoNames | src/object/parsers/obj/material/filename.rs:19-22 | Only the first of two names is read; the extension is matched in any case. |
| MaterialFilename.RecognizeExampleBare | src/object/parsers/obj/material/filename.rs:23-26 | "filename.MtL" is read. |
| MaterialFilename.RecognizeExampleSubfolder | src/object/parsers/obj/material/filename.rs:27-30 | "./folder/filename.MtL" is read. |
| MaterialFilename.RecognizeExampleHiddenFile | src/object/parsers/obj/material/filename.rs:33 | "./folder/.filename.mtl" is refused. |
| MaterialFilename.RecognizeExampleNoStem | src/object/parsers/obj/material/filename.rs:34 | ".mtl" is refused. |
| MaterialFilename.RecognizeExampleNoExtension | src/object/parsers/obj/material/filename.rs:35 | "././mtl" is refused. |
| MaterialFilename.RecognizeExampleDotsOnly | src/object/parsers/obj/material/filename.rs:36 | "././.mtl" is refused. |
| MaterialFilename.RecognizeExampleRoot | src/object/parsers/obj/material/filename.rs:37 | "/.mtl" is refused. |
| MaterialFilename.ParseExampleOne | src/object/parsers/obj/material/filename.rs:46-49 | "mtllib Super_Mario.mtl" gives one name. |
| MaterialFilename.ParseExampleHidden | src/object/parsers/obj/material/filename.rs:50-53 | A name with a leading dot is read, and the next line "g" is left. |
| MaterialFilename.ParseExampleNextLineExtension | src/object/parsers/obj/material/filename.rs:54-57 | The next line ".mtl" is left. |
| MaterialFilename.ParseExampleTwo | src/object/parsers/obj/material/filename.rs:58-61 | Two names on one line, then "next line" is left. |
| MaterialFilename.ParseExampleTwoMixedCase | src/object/parsers/obj/material/filename.rs:62-70 | Two mixed-case names, then "next line" is left. |
| MaterialFilename.ParseTwoOf | src/object/parsers/obj/material/filename.rs:40-42 | An `mtllib` line with two names one space apart gives both. |
| MaterialFilename.ParseListOf | src/object/parsers/obj/material/filename.rs:40-42 | An `mtllib` line listing `.mtl` names, each followed by its own run of spaces and tabs, gives exactly that list. |
| MaterialFilename.ParseExampleTabs | src/object/parsers/obj/material/filename.rs:40-42 | "mtllib\tmaterial.mtl\t other.mtl \r\nnext line" gives both names and leaves "next line". |
| MaterialFilename.ParseExampleWrongExtension | src/object/parsers/obj/material/filename.rs:71 | ".mtr" is refused. |
| MaterialFilename.ParseExampleLongerExtension | src/object/parsers/obj/material/filename.rs:72 | ".mtlg" is refused. |
| MaterialFilename.ParseStopsAtOf | src/object/parsers/obj/material/filename.rs:40-42 | An `mtllib` line whose first name is followed, after any run of spaces and tabs, by a token that is not a `.mtl` name gives that one name. |
| MaterialFilename.ParseExampleStopsAtOtherExtension | src/object/parsers/obj/material/filename.rs:40-42 | "mtllib material.mtl notes.txt other.mtl\nnext line" gives only "material.mtl" and leaves "next line". |
| MaterialFilename.ParseExampleWrongKeyword | src/object/parsers/obj/material/filename.rs:73 | "mtlib" is refused. |
| Map.ParseMapFilenames | src/object/parsers/obj/material/map.rs:7-13 | It succeeds exactly when the line starts with `maplib` and its text with a `.ppm` file name. Every output name ends in `.ppm` in any case, and the rest follows the line. |
| Map.AllEndWithExtension | src/object/parsers/obj/material/map.rs:7-9 | Every accepted file name ends in its extension. |
| Map.ParseMapFilenamesOf | src/object/parsers/obj/material/map.rs:11-13 | A `maplib` line listing `.ppm` names, each followed by its own run of spaces and tabs, gives exactly that list. |
| Map.ParseTextureMapIdentifier | src/object/parsers/obj/material/map.rs:15-17 | It succeeds exactly when `usemap` starts the input and something other than whitespace follows. The name is non-empty, does not start with whitespace and holds no line break. |
| Map.ParseTextureMapIdentifierLine | src/object/parsers/obj/material/map.rs:15-17 | On success the name is the rest of the line after `usemap` and the whitespace after it. The rest of the input starts after that line's break and any blank lines. |
| Map.ParseTextureMapIdentifierOf | src/object/parsers/obj/material/map.rs:15-17 | A `usemap` line is read back as its name, whatever whitespace is around it, and what follows is left. |
| Map.ParseTextureMapIdentifierExample | src/object/parsers/obj/material/map.rs:21-24 | "usemap material0\r\nb" gives "material0" and leaves "b". |
| Map.ParseTextureMapIdentifierOff | src/object/parsers/obj/material/map.rs:25 | "usemap off" gives "off". |
| Map.ParseTextureMapIdentifierWrongKeyword | src/object/parsers/obj/material/map.rs:26 | A `usemtl` line is refused. |
| MaterialIdentifier.ParseMaterialIdentifier | src/scene/object/parsers/obj/material/identifier.rs:4-6 | It succeeds exactly when `usemtl` starts the input and something other than whitespace follows. The name is non-empty, does not start with whitespace and holds no line break. |
| MaterialIdentifier.ParseMaterialIdentifierLine | src/scene/object/parsers/obj/material/identifier.rs:4-6 | On success the name is the rest of the line after `usemtl` and the whitespace after it. The rest of the input starts after that line's break and any blank lines. |
| MaterialIdentifier.ParseMaterialIdentifierOf | src/scene/object/parsers/obj/material/identifier.rs:4-6 | A `usemtl` line is read back as its name, whatever whitespace is around it, and what follows is left. |
| MaterialIdentifier.ParseMaterialIdentifierExample | src/scene/object/parsers/obj/material/identifier.rs:10-13 | "usemtl material0\r\nb" gives "material0" and leaves "b". |
| MaterialIdentifier.ParseMaterialIdentifierWrongKeyword | src/scene/object/parsers/obj/material/identifier.rs:14 | "use_material" is refused. |
| Fields.Keyword | src/object/parsers/obj/polygon/vertex.rs:13 | `tws(tag(t))` succeeds exactly when `t` starts the input, fails only with an error, and skips the whitespace after the keyword. |
| Fields.KeywordThenText | src/object/parsers/obj/polygon/vertex.rs:13 | A keyword followed by something other than whitespace leaves exactly that. |
| Fields.FloatField | src/object/parsers/obj/polygon/vertex.rs:15 | `tws(parse_float)` fails with an error where no number starts. On success it consumes something and leaves no leading whitespace. |
| Fields.OptFloatField | src/object/parsers/obj/polygon/vertex.rs:18 | `opt(tws(parse_float))` gives None and reads nothing where no number starts; after a number it leaves no leading whitespace. |
| Fields.Triple | src/object/parsers/obj/polygon/vector.rs:13 | Three number fields fail with an error where no number starts, and otherwise leave no leading whitespace. |
| Fields.FloatFieldOf | src/object/parsers/obj/polygon/vertex.rs:15 | A number and the whitespace after it are read as the number's value. |
| Fields.TripleOf | src/object/parsers/obj/polygon/vector.rs:13 | Three numbers, each gap its own non-empty run of whitespace, are read back as their values. |
| Fields.TripleMissingOne | src/object/parsers/obj/polygon/vector.rs:13 | Two numbers and then no number are refused. |
| Fields.TripleMissingTwo | src/object/parsers/obj/polygon/vector.rs:13 | One number and then no number are refused. |
| Vertices.ParseVertex | src/object/parsers/obj/polygon/vertex.rs:12-23 | It is refused unless the input starts with `v`. On success the rest is a suffix without leading whitespace. |
| Vertices.ParseVertexOf | src/object/parsers/obj/polygon/vertex.rs:12-23 | A `v` record of three numbers, each gap its own whitespace run, gives their values with weight 1.0. |
| Vertices.ParseWeightedVertexOf | src/object/parsers/obj/polygon/vertex.rs:12-23 | A `v` record of four numbers, each gap its own whitespace run, gives their values, the fourth as the weight. |
| Vertices.ParseVertexMissingOne | src/object/parsers/obj/polygon/vertex.rs:14-17 | Two numbers are not enough. |
| Vertices.ParseVertexMissingTwo | src/object/parsers/obj/polygon/vertex.rs:14-17 | One number is not enough. |
| Vertices.ParseVertexEmpty | src/object/parsers/obj/polygon/vertex.rs:14-17 | The keyword alone is refused. |
| Vertices.ParseVertexRefusesOtherRecords | src/object/parsers/obj/polygon/vertex.rs:13-17 | `tag("v")` matches the start of a `vn` or `vt` line, but the record is then refused. |
| Vertices.ParseVertexExample | src/object/parsers/obj/polygon/vertex.rs:25-38 | `test_parse_vertex`. |
| Vectors.ParseVector | src/object/parsers/obj/polygon/vector.rs:11-15 | It is refused unless the input starts with `vn`. On success the rest is a suffix without leading whitespace. |
| Vectors.ParseVectorOf | src/object/parsers/obj/polygon/vector.rs:11-15 | A `vn` record of three numbers, each gap its own whitespace run, gives their values; anything after them is left, even another number. |
| Vectors.ParseVectorMissingOne | src/object/parsers/obj/polygon/vector.rs:13 | Two numbers are not enough. |
| Vectors.ParseVectorMissingTwo | src/object/parsers/obj/polygon/vector.rs:13 | One number is not enough. |
| Vectors.ParseVectorExampleSpace | src/object/parsers/obj/polygon/vector.rs:19-29 | The first test case: a trailing space is consumed. |
| Vectors.ParseVectorExampleLineBreak | src/object/parsers/obj/polygon/vector.rs:31-41 | The second test case: a trailing CRLF is consumed. |
| Textures.ParseTextureCoordinates | src/scene/object/parsers/obj/polygon/texture_coordinates.rs:11-26 | It is refused unless the input starts with `vt`. On success the rest is a suffix. |
| Textures.ParseTextureCoordinatesOfOne | src/scene/object/parsers/obj/polygon/texture_coordinates.rs:11-26 | One number gives `u`, with `v` and `w` set to 0.0, whatever its value. |
| Textures.ParseTextureCoordinatesOfTwo | src/scene/object/parsers/obj/polygon/texture_coordinates.rs:11-26 | Two numbers give `u` and `v`, with `w` set to 0.0. |
| Textures.ParseTextureCoordinatesOfThree | src/scene/object/parsers/obj/polygon/texture_coordinates.rs:11-26 | Three numbers, each gap its own whitespace run, give `u`, `v` and `w`. |
| Textures.ParseTextureCoordinatesEmpty | src/scene/object/parsers/obj/polygon/texture_coordinates.rs:13-17 | `u` is required. |
| Textures.ParseTextureCoordinatesExampleTwo | src/scene/object/parsers/obj/polygon/texture_coordinates.rs:30-40 | "vt 0.500 0" gives (0.5, 0, 0). |
| Textures.ParseTextureCoordinatesExampleThree | src/scene/object/parsers/obj/polygon/texture_coordinates.rs:41-51 | "vt 0.500 1 1\r\n" gives (0.5, 1, 1). |
| Textures.ParseTextureCoordinatesOutOfRange | src/scene/object/parsers/obj/polygon/texture_coordinates.rs:20-25 | "vt -1.5 2" gives (-1.5, 2, 0): the range check rejects nothing. |
| Polygons.SlashInteger | src/scene/object/parsers/obj/polygon.rs:36-37 | `preceded(tag("/"), parse_integer)` fails with an error exactly unless a slash and a digit start the input. |
| Polygons.NormalOnly | src/scene/object/parsers/obj/polygon.rs:29-33 | The "v//n" alternative fails with an error where no digit starts the input and passes a panic on. On success every index fits in a `usize`. |
| Polygons.AllIndices | src/scene/object/parsers/obj/polygon.rs:34-38 | The other alternative fails with an error exactly where no digit starts the input. |
| Polygons.ParsePolygonVertexIndices | src/scene/object/parsers/obj/polygon.rs:27-50 | It fails with an error exactly when the input does not start with a digit: a leading `/` is refused and index 0 is not. On success it consumes something and every index fits in a `usize`. |
| Polygons.VertexOnlyOf | src/scene/object/parsers/obj/polygon.rs:34-38 | "v" is read as a vertex index alone. |
| Polygons.WithTextureOf | src/scene/object/parsers/obj/polygon.rs:34-38 | "v/t" is read by the second alternative, after the first fails. |
| Polygons.WithNormalOf | src/scene/object/parsers/obj/polygon.rs:29-33 | "v//n" is read by the first alternative. |
| Polygons.WithBothOf | src/scene/object/parsers/obj/polygon.rs:34-38 | "v/t/n" is read by the second alternative. |
| Polygons.ParsePolygonVertexIndicesOf | src/scene/object/parsers/obj/polygon.rs:27-50 | Every corner is read back from its text, whatever follows that cannot continue it. |
| Polygons.TrailingSlash | src/scene/object/parsers/obj/polygon.rs:35-37 | "v/" without a number after it gives the vertex alone and leaves the slash, because `opt` backtracks. |
| Polygons.ParsePolygonVertexIndicesExampleBoth | src/scene/object/parsers/obj/polygon.rs:54-64 | "1/1/5\r\n" gives (1, 1, 5) and leaves "\r\n". |
| Polygons.ParsePolygonVertexIndicesExampleNormal | src/scene/object/parsers/obj/polygon.rs:65-75 | "10//5\r\n" gives (10, None, 5). |
| Polygons.ParsePolygonVertexIndicesExampleTexture | src/scene/object/parsers/obj/polygon.rs:76-86 | "1/5\t" gives (1, 5, None) and leaves "\t". |
| Polygons.ParsePolygonVertexIndicesExampleSlash | src/scene/object/parsers/obj/polygon.rs:87-97 | "1/" gives (1, None, None) and leaves "/". |
| Polygons.ParsePolygonVertexIndicesExampleLeadingSlash | src/scene/object/parsers/obj/polygon.rs:98 | "/1" is refused. |
| Polygons.ParsePolygonVertexIndicesZero | src/scene/object/parsers/obj/polygon.rs:40 | Index 0 is accepted. |
| Polygons.IndexGroup | src/scene/object/parsers/obj/polygon.rs:113 | `tws(parse_polygon_vertex_indices)` fails with an error exactly where no digit starts the input. On success it consumes something and leaves no leading whitespace. |
| Polygons.ParsePolygonIndices | src/scene/object/parsers/obj/polygon.rs:112-115 | It fails with an error exactly when `f` does not start the input or no digit follows it and its whitespace. On success there is at least one corner. |
| Polygons.FirstCorner | src/scene/object/parsers/obj/polygon.rs:113 | A face's first corner is read with the whitespace after it, line breaks included. |
| Polygons.CornersOf | src/scene/object/parsers/obj/polygon.rs:113 | The corner loop reads every corner of a face and stops where the face ends. |
| Polygons.ParsePolygonIndicesOf | src/scene/object/parsers/obj/polygon.rs:112-115 | An `f` record is read back as exactly its corners. The separators may hold line breaks, so a face continues onto the next line. |
| Polygons.ParsePolygonIndicesEmpty | src/scene/object/parsers/obj/polygon.rs:112-115 | An `f` keyword with no corner after it is refused. |
| Polygons.ParsePolygonIndicesExample | src/scene/object/parsers/obj/polygon.rs:117-139 | "f 1/2/3 4/5/9\r\n" gives both corners and leaves "". |
| Polygons.ToPolygon | src/scene/object/parsers/obj/polygon.rs:106-110 | Always fails with "Not implemented". |
| Intersection.Fold | src/scene/object/intersection.rs:13-28 | The best after the loop is None exactly when there are no objects or the last one is missed. Otherwise it is one object's hit, at that hit's distance. |
| Intersection.RunStart | src/scene/object/intersection.rs:15 | Where the final run of hits starts: every later object is hit, and the object just before it is missed. |
| Intersection.FoldIsClosestOfLastRun | src/scene/object/intersection.rs:15-27 | When the last object is hit, the result is the closest hit of the final run of hits, and the earliest of equally close ones. Hits before the last miss play no part. |
| Intersection.ClosestFromUnique | src/scene/object/intersection.rs:18-27 | The closest-and-earliest condition determines the hit: two hits that meet it are equal. |
| Intersection.FindClosestIntersection | src/scene/object/intersection.rs:6-30 | The loop gives None exactly when there are no objects or the last one is missed. Otherwise it gives the hit that `FoldIsClosestOfLastRun` characterises. |
| Intersection.TwoOverlappingObjects | src/scene/object/intersection.rs:18-27 | Two objects hit at different distances give the closer hit, in either order. |
| Intersection.ClosestHit | src/scene/object/intersection.rs:13-28 | The corrected fold, in which a miss keeps the best, returns one object's hit at its distance. |
| Intersection.ClosestHitIsGlobalMinimum | src/scene/object/intersection.rs:13-28 | The corrected fold finds a hit exactly when some object is hit. That hit is the closest of all, and the earliest of equally close ones. |
| Intersection.MissAfterHitLosesIt | src/scene/object/intersection.rs:15 | Whenever some object is hit but the last is missed, the loop as written reports nothing while the corrected fold finds a hit. |
| Intersection.MissAfterHitExample | src/scene/object/intersection.rs:15 | A hit at distance 1 followed by a miss: None as written, that hit when corrected. |

## Left out

- Floating point: `f64` values are exact reals, and `str::parse::<f64>` gives the exact value of the lexeme. So rounding, overflow to infinity, NaN and signed zero are not modelled. The closest-hit comparison `d > distance` is over reals too, so its behaviour on NaN distances is not captured.
- Floats.ParseFloat: the value of a lexeme is its exact decimal value rather than the nearest `f64`, because rounding is not modelled.
- Nom.TagNoCase: folds case for ASCII letters only, whereas `nom` uses Unicode lower-casing. The extensions compared (`.mtl`, `.ppm`) are ASCII.
- `nom` errors carry an error kind and the input position; `Err(Error)` keeps neither.
- A failed `unwrap` in `string_to_usize` or `string_to_float` aborts the program. It is modelled as the failure `Err(Panic)`, which every combinator passes on and nothing catches.
- The repository has two copies of the common parsers (under `src/object/` and `src/scene/object/`). Only the `src/scene/object/parsers/common` versions are modelled; `identifier.rs` is the one copy shown.
- `recognize_map_filename` (src/object/parsers/obj/material/map.rs:7-9) has no member of its own. It is `Filename.Recognizer(".ppm")`.
- The range check in `parse_texture_coordinates` (src/scene/object/parsers/obj/polygon/texture_coordinates.rs:20-25) is a loop with empty bodies that changes nothing. It is not written as a loop.
- `Polygon` and `PolygonVertex` are declared, but nothing builds them, since `to_polygon` is not implemented. The commented-out `to_triangles` is not part of this model.
- Intersection.FindClosestIntersection: `intersect(ray)` and the squared distance from the ray's origin to the hit point are parameters. So the ray, the `Intersectable` objects, their materials and the vector arithmetic are not part of this model. The object reference kept in the running best is replaced by the object's position in the sequence.
- Intersection.FindClosestIntersection: the source iterates any `IntoIterator`; here the objects are a finite sequence.
- Sphere and triangle intersection, affine transforms, shading, the camera, image output and the OBJ file driver (`parse_file`, `to_object`) are not part of this model.

## Findings

| source | as written | input that shows it | evidently intended | confidence | as-written member | corrected member |
|---|---|---|---|---|---|---|
| src/scene/object/intersection.rs:15 | `best = object.intersect(ray).and_then(...)` replaces the best with None whenever an object is missed | Two objects: the first is hit at distance 1, the second is missed. The result is None. | A miss keeps the best so far, so the result is the closest hit of all objects | high (not executed) | Intersection.MissAfterHitExample | Intersection.ClosestHitIsGlobalMinimum |
