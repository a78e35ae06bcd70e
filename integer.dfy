/** `decimal` and `parse_integer` (common/integer.rs). */
module Integer {
  import opened Nom

  predicate IsDigit(c: char) {
    '0' <= c <= '9'
  }

  predicate IsUnderscore(c: char) {
    c == '_'
  }

  predicate IsDigitOrUnderscore(c: char) {
    IsDigit(c) || c == '_'
  }

  predicate AllDigits(d: string) {
    forall i :: 0 <= i < |d| ==> IsDigit(d[i])
  }

  /** `char('_')` */
  function Underscore(s: string): Result<char> {
    Char('_', s)
  }

  /** `many0(char('_'))` leaves `s` minus its leading underscores. */
  lemma {:induction false} UnderscoresMatch(s: string)
    ensures Many0(Underscore, s).Ok?
    ensures Many0(Underscore, s).rest == s[Span(IsUnderscore, s)..]
    decreases |s|
  {
    if |s| > 0 && s[0] == '_' {
      UnderscoresMatch(s[1..]);
      assert s[1..][Span(IsUnderscore, s[1..])..] == s[1 + Span(IsUnderscore, s[1..])..];
    }
  }

  /** `terminated(one_of("0123456789"), many0(char('_')))`: one digit and the underscores after it. */
  function DigitGroup(s: string): (r: Result<char>)
    ensures r.Ok? <==> |s| > 0 && IsDigit(s[0])
    ensures r.Ok? ==> r.rest == s[1 + Span(IsUnderscore, s[1..])..]
  {
    match OneOf("0123456789", s)
    case Err(f) => Err(f)
    case Ok(s1, d) =>
      UnderscoresMatch(s1);
      match Many0(Underscore, s1)
      case Err(f) => Err(f)
      case Ok(s2, _) =>
        assert s1[Span(IsUnderscore, s1)..] == s[1 + Span(IsUnderscore, s1)..];
        Ok(s2, d)
  }

  /** A run of digits and underscores that starts with a digit is one digit group followed by the rest of the run. */
  lemma DigitRunSplit(s: string)
    requires |s| > 0 && IsDigit(s[0])
    ensures var s1 := DigitGroup(s).rest;
      Span(IsDigitOrUnderscore, s)
      == |s| - |s1| + if |s1| > 0 && IsDigit(s1[0]) then Span(IsDigitOrUnderscore, s1) else 0
  {
    var u := Span(IsUnderscore, s[1..]);
    var s1 := s[1 + u..];
    assert forall i :: 0 <= i < 1 + u ==> IsDigitOrUnderscore(s[i]) by {
      forall i | 0 <= i < 1 + u ensures IsDigitOrUnderscore(s[i]) {
        if i > 0 { assert s[i] == s[1..][i - 1]; }
      }
    }
    SpanSkip(IsDigitOrUnderscore, s, 1 + u);
    if !(|s1| > 0 && IsDigit(s1[0])) {
      assert 1 + u == |s| || s[1 + u] == s[1..][u];
      SpanIs(IsDigitOrUnderscore, s1, 0);
    }
  }

  /** `many0` of digit groups consumes the whole run of digits and underscores, provided it starts with a digit. */
  lemma {:induction false} DigitGroupsMatch(s: string)
    ensures Many0(DigitGroup, s).Ok?
    ensures Many0(DigitGroup, s).rest
         == if |s| > 0 && IsDigit(s[0]) then s[Span(IsDigitOrUnderscore, s)..] else s
    decreases |s|
  {
    if |s| > 0 && IsDigit(s[0]) {
      var s1 := DigitGroup(s).rest;
      DigitGroupsMatch(s1);
      DigitRunSplit(s);
      if |s1| > 0 && IsDigit(s1[0]) {
        assert s1 == s[|s| - |s1|..];
        assert s1[Span(IsDigitOrUnderscore, s1)..] == s[Span(IsDigitOrUnderscore, s)..];
      }
    }
  }

  /** `many1` of digit groups: what `decimal` recognises. */
  lemma DigitGroupsMatch1(s: string)
    ensures Many1(DigitGroup, s).Ok? <==> |s| > 0 && IsDigit(s[0])
    ensures Many1(DigitGroup, s).Err? ==> Many1(DigitGroup, s).failure == Error
    ensures Many1(DigitGroup, s).Ok? ==> Many1(DigitGroup, s).rest == s[Span(IsDigitOrUnderscore, s)..]
  {
    if |s| > 0 && IsDigit(s[0]) {
      Many1IsMany0(DigitGroup, s);
      DigitGroupsMatch(s);
    }
  }

  /**
   * `decimal`: `recognize(many1(terminated(one_of(digits), many0(char('_')))))`.
   * It succeeds exactly on input that starts with a digit, and its match is
   * the longest run of digits and underscores there.
   */
  function Decimal(s: string): (r: Result<string>)
    ensures r.Ok? <==> |s| > 0 && IsDigit(s[0])
    ensures r.Err? ==> r.failure == Error
    ensures r.Ok? ==> r.out + r.rest == s && |r.out| == Span(IsDigitOrUnderscore, s)
    ensures r.Ok? ==> |r.rest| < |s|
  {
    DigitGroupsMatch1(s);
    Recognize(s, Many1(DigitGroup, s))
  }

  /** A run of digits and underscores that starts with a digit is matched whole. */
  lemma DecimalOf(d: string, x: string)
    requires |d| > 0 && IsDigit(d[0])
    requires forall i :: 0 <= i < |d| ==> IsDigitOrUnderscore(d[i])
    requires x == "" || !IsDigitOrUnderscore(x[0])
    ensures Decimal(d + x) == Ok(x, d)
  {
    var s := d + x;
    var r := Decimal(s);
    assert s[0] == d[0];
    assert forall i :: 0 <= i < |d| ==> s[i] == d[i];
    SpanIs(IsDigitOrUnderscore, s, |d|);
    assert forall i :: 0 <= i < |r.out| ==> s[i] == r.out[i];
    SpanIs(IsDigitOrUnderscore, s, |r.out|);
    assert r.out == s[..|d|] == d;
  }

  // ------------------------------------------------------------ parse_integer

  /** `usize` on a 64-bit target: `string_to_usize` panics from here up. */
  const USIZE_LIMIT: nat := 0x1_0000_0000_0000_0000

  function DigitValue(c: char): nat {
    if IsDigit(c) then c as int - '0' as int else 0
  }

  /** Base-10 value of a string of digits. */
  function DigitsValue(d: string): nat {
    if |d| == 0 then 0 else 10 * DigitsValue(d[..|d| - 1]) + DigitValue(d[|d| - 1])
  }

  /**
   * `string_to_usize`: `str::parse::<usize>` followed by `unwrap`. The text
   * comes from `decimal`; the parse rejects `_` and values that do not fit,
   * and `unwrap` turns that into a panic.
   */
  function StringToUsize(rest: string, text: string): Result<nat> {
    if '_' in text || DigitsValue(text) >= USIZE_LIMIT then Err(Panic) else Ok(rest, DigitsValue(text))
  }

  /** `parse_integer`: `map(decimal, string_to_usize)`. */
  function ParseInteger(s: string): (r: Result<nat>)
    ensures r == Err(Error) <==> !(|s| > 0 && IsDigit(s[0]))
    ensures r == Err(Panic) <==> |s| > 0 && IsDigit(s[0]) &&
                                 var m := s[..Span(IsDigitOrUnderscore, s)];
                                 '_' in m || DigitsValue(m) >= USIZE_LIMIT
    ensures r.Ok? ==> r.out < USIZE_LIMIT
    ensures r.Ok? ==> var n := Span(IsDigit, s);
      0 < n && r.rest == s[n..] && r.out == DigitsValue(s[..n]) && (r.rest == "" || r.rest[0] != '_')
  {
    match Decimal(s)
    case Err(f) => Err(f)
    case Ok(rest, text) =>
      DecimalMatchIsRun(s);
      StringToUsize(rest, text)
  }

  /** The text `decimal` matches is the run of digits and underscores; without `_` it is the run of digits. */
  lemma DecimalMatchIsRun(s: string)
    requires Decimal(s).Ok?
    ensures Decimal(s).out == s[..Span(IsDigitOrUnderscore, s)]
    ensures '_' !in Decimal(s).out ==> Span(IsDigit, s) == |Decimal(s).out|
  {
    var d := Decimal(s);
    var n := Span(IsDigitOrUnderscore, s);
    assert forall i :: 0 <= i < |d.out| ==> s[i] == d.out[i];
    SpanIs(IsDigitOrUnderscore, s, |d.out|);
    if '_' !in d.out {
      assert forall i :: 0 <= i < n ==> IsDigit(s[i]) by {
        forall i | 0 <= i < n ensures IsDigit(s[i]) {
          assert s[i] == d.out[i];
        }
      }
      SpanIs(IsDigit, s, n);
    }
  }

  function Pow10(k: nat): (p: nat)
    ensures p > 0
  {
    if k == 0 then 1 else 10 * Pow10(k - 1)
  }

  /** Digits written after others scale those others by a power of ten. */
  lemma {:induction false} DigitsValueAppend(a: string, b: string)
    ensures DigitsValue(a + b) == DigitsValue(a) * Pow10(|b|) + DigitsValue(b)
    decreases |b|
  {
    if |b| > 0 {
      var b' := b[..|b| - 1];
      var last := DigitValue(b[|b| - 1]);
      DigitsValueAppend(a, b');
      assert (a + b)[..|a + b| - 1] == a + b';
      assert (a + b)[|a + b| - 1] == b[|b| - 1];
      var va, vb, p := DigitsValue(a), DigitsValue(b'), Pow10(|b'|);
      calc {
        DigitsValue(a + b);
        10 * DigitsValue(a + b') + last;
        10 * (va * p + vb) + last;
        { assert 10 * (va * p) == va * (10 * p); }
        va * (10 * p) + (10 * vb + last);
        va * Pow10(|b|) + DigitsValue(b);
      }
    } else {
      assert a + b == a;
    }
  }

  // ---------------------------------------------------------------- round trip

  function DigitChar(k: nat): char
    requires k < 10
  {
    ('0' as int + k) as char
  }

  /** The decimal text of `n`, as `usize`'s `Display` writes it. */
  function NatToDecimal(n: nat): (d: string)
    ensures |d| > 0 && AllDigits(d)
  {
    if n < 10 then [DigitChar(n)] else NatToDecimal(n / 10) + [DigitChar(n % 10)]
  }

  lemma {:induction false} NatToDecimalValue(n: nat)
    ensures DigitsValue(NatToDecimal(n)) == n
  {
    var d := NatToDecimal(n);
    if n >= 10 {
      NatToDecimalValue(n / 10);
      assert d[..|d| - 1] == NatToDecimal(n / 10);
    }
  }

  /** `parse_integer` reads back what `NatToDecimal` writes, for every `usize`. */
  lemma ParseIntegerRoundTrip(n: nat, x: string)
    requires n < USIZE_LIMIT
    requires x == "" || !IsDigitOrUnderscore(x[0])
    ensures ParseInteger(NatToDecimal(n) + x) == Ok(x, n)
  {
    var d := NatToDecimal(n);
    var s := d + x;
    DecimalOf(d, x);
    NatToDecimalValue(n);
    assert forall i :: 0 <= i < |d| ==> s[i] == d[i];
    SpanIs(IsDigit, s, |d|);
    assert s[..|d|] == d && s[|d|..] == x;
  }

  // ------------------------------------------------------------------ examples

  /** `test_decimal`: a digit, a digit, a run with an underscore, and three inputs that do not start with a digit. */
  lemma DecimalExamples()
    ensures Decimal("0 ") == Ok(" ", "0")
    ensures Decimal("5 ") == Ok(" ", "5")
    ensures Decimal("75_000") == Ok("", "75_000")
    ensures Decimal("-1").Err? && Decimal(".1").Err? && Decimal("_1").Err?
  {
    DecimalOf("0", " ");
    assert "0" + " " == "0 ";
    DecimalOf("5", " ");
    assert "5" + " " == "5 ";
    DecimalOf("75_000", "");
    assert "75_000" + "" == "75_000";
  }

  /** `test_parse_integer`, first case: a line break after the number. */
  lemma ParseIntegerExampleZero()
    ensures ParseInteger("0\r\n") == Ok("\r\n", 0)
  {
    assert NatToDecimal(0) + "\r\n" == "0\r\n";
    ParseIntegerRoundTrip(0, "\r\n");
  }

  /** `test_parse_integer`, second case: a space after the number. */
  lemma ParseIntegerExampleFive()
    ensures ParseInteger("5 ") == Ok(" ", 5)
  {
    assert NatToDecimal(5) + " " == "5 ";
    ParseIntegerRoundTrip(5, " ");
  }

  /** `test_parse_integer`, third case: the number alone. */
  lemma ParseIntegerExampleLarge()
    ensures ParseInteger("14000") == Ok("", 14000)
  {
    assert NatToDecimal(14000) == "14000";
    assert NatToDecimal(14000) + "" == "14000";
    ParseIntegerRoundTrip(14000, "");
  }
}
