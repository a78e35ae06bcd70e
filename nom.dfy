/**
 * The `nom` 7 parser combinators that the OBJ/MTL parsers are built from,
 * working on `&str` input (a `string` here).
 *
 * A combinator that applies its inner parser once at the current input
 * (`alt`, `opt`, `terminated`, `recognize`, `all_consuming`) is written over
 * that parser's RESULT: the parsers are pure, so `alt((p, q))(s)` is
 * `Alt(p(s), q(s))`. The `many` loops apply their parser again and again, so
 * they take the parser itself.
 */
module Nom {

  /** Rust's `Option`. */
  datatype Option<+T> = None | Some(value: T) {
    function UnwrapOr(default: T): T {
      match this
      case Some(v) => v
      case None => default
    }
  }

  /**
   * Why a parser stopped. `Error` is nom's recoverable `Err::Error`, on which
   * `alt`, `opt` and the `many` loops backtrack. `Panic` is an `unwrap` that
   * failed inside a mapped conversion: it unwinds through every combinator.
   */
  datatype Failure = Error | Panic

  /** nom's `IResult`: the unconsumed rest of the input and the output. */
  datatype Result<+T> = Ok(rest: string, out: T) | Err(failure: Failure)

  /** A parser, applied to its whole input. */
  type Parser<T> = string -> Result<T>

  predicate IsSuffix(rest: string, s: string) {
    |rest| <= |s| && s[|s| - |rest|..] == rest
  }

  /** The prefix of `s` a parser consumed when it left `rest`. */
  function Consumed(s: string, rest: string): (c: string)
    requires IsSuffix(rest, s)
    ensures c + rest == s
  {
    s[..|s| - |rest|]
  }

  lemma SuffixTransitive(a: string, b: string, c: string)
    ensures IsSuffix(a, b) && IsSuffix(b, c) ==> IsSuffix(a, c)
  {
    if IsSuffix(a, b) && IsSuffix(b, c) {
      assert c[|c| - |a|..] == b[|b| - |a|..];
    }
  }

  lemma DropAppend(a: string, b: string, k: nat)
    requires k <= |a|
    ensures (a + b)[k..] == a[k..] + b
  {}

  lemma SuffixOfDrop(s: string, k: nat)
    requires k <= |s|
    ensures IsSuffix(s[k..], s)
  {}

  lemma SuffixOfAppend(a: string, b: string)
    ensures IsSuffix(b, a + b)
  {
    assert (a + b)[|a|..] == b;
  }

  /** Every result a parser returns leaves a suffix of its input. */
  ghost predicate Sound<T>(p: Parser<T>) {
    forall s :: p(s).Ok? ==> IsSuffix(p(s).rest, s)
  }

  // ---------------------------------------------------------------- characters

  /** Space, tab, carriage return or line feed: what `multispace0` skips. */
  predicate IsMultispace(c: char) {
    c == ' ' || c == '\t' || c == '\r' || c == '\n'
  }

  predicate AllMultispace(w: string) {
    forall i :: 0 <= i < |w| ==> IsMultispace(w[i])
  }

  /** Line feed or carriage return. */
  predicate IsLineBreak(c: char) {
    c == '\n' || c == '\r'
  }

  predicate NoLineBreak(c: string) {
    forall i :: 0 <= i < |c| ==> !IsLineBreak(c[i])
  }

  predicate NotDot(c: char) {
    c != '.'
  }

  /** The character class of `is_not(cs)`. */
  function NoneOf(cs: string): char -> bool {
    c => c !in cs
  }

  function AnyChar(c: char): bool {
    true
  }

  /** Number of leading characters of `s` that satisfy `p`. */
  function Span(p: char -> bool, s: string): (n: nat)
    ensures n <= |s|
    ensures forall i :: 0 <= i < n ==> p(s[i])
    ensures n < |s| ==> !p(s[n])
    decreases |s|
  {
    if |s| == 0 || !p(s[0]) then 0 else 1 + Span(p, s[1..])
  }

  lemma {:induction false} SpanSkip(p: char -> bool, s: string, k: nat)
    requires k <= |s|
    requires forall i :: 0 <= i < k ==> p(s[i])
    ensures Span(p, s) == k + Span(p, s[k..])
    decreases k
  {
    if k > 0 {
      SpanSkip(p, s[1..], k - 1);
      assert s[1..][k - 1..] == s[k..];
    }
  }

  /** A prefix whose characters all satisfy `p` adds its length to the span. */
  lemma SpanAppend(p: char -> bool, a: string, b: string)
    requires forall i :: 0 <= i < |a| ==> p(a[i])
    ensures Span(p, a + b) == |a| + Span(p, b)
  {
    var s := a + b;
    assert forall i :: 0 <= i < |a| ==> s[i] == a[i];
    SpanSkip(p, s, |a|);
    assert s[|a|..] == b;
  }

  /** A run of `k` characters satisfying `p` that is stopped is the whole span. */
  lemma SpanIs(p: char -> bool, s: string, k: nat)
    requires k <= |s|
    requires forall i :: 0 <= i < k ==> p(s[i])
    requires k == |s| || !p(s[k])
    ensures Span(p, s) == k
  {
    SpanSkip(p, s, k);
  }

  /** ASCII case folding, which is what `tag_no_case` does on these inputs. */
  function Lower(c: char): char {
    if 'A' <= c <= 'Z' then (c as int + 32) as char else c
  }

  predicate EqualsNoCase(a: string, b: string) {
    |a| == |b| && forall i :: 0 <= i < |a| ==> Lower(a[i]) == Lower(b[i])
  }

  // ---------------------------------------------------------------- primitives

  /** `tag(t)` */
  function Tag(t: string, s: string): (r: Result<string>)
    ensures r.Ok? ==> r.out + r.rest == s
  {
    if t <= s then Ok(s[|t|..], t) else Err(Error)
  }

  /** `tag_no_case(t)`: the output is the matched slice of the input. */
  function TagNoCase(t: string, s: string): (r: Result<string>)
    ensures r.Ok? ==> r.out + r.rest == s
  {
    if |t| <= |s| && EqualsNoCase(s[..|t|], t) then Ok(s[|t|..], s[..|t|]) else Err(Error)
  }

  /** `char(c)` */
  function Char(c: char, s: string): (r: Result<char>)
    ensures r.Ok? <==> |s| > 0 && s[0] == c
    ensures r.Ok? ==> r.rest == s[1..] && r.out == c
  {
    if |s| > 0 && s[0] == c then Ok(s[1..], c) else Err(Error)
  }

  /** `one_of(cs)` */
  function OneOf(cs: string, s: string): (r: Result<char>)
    ensures r.Ok? <==> |s| > 0 && s[0] in cs
    ensures r.Ok? ==> r.rest == s[1..] && r.out == s[0]
  {
    if |s| > 0 && s[0] in cs then Ok(s[1..], s[0]) else Err(Error)
  }

  /** `opt(one_of(cs))` never fails: it reads one character of `cs` if there is one. */
  lemma OptOneOf(cs: string, s: string)
    ensures Opt(OneOf(cs, s), s) == if |s| > 0 && s[0] in cs then Ok(s[1..], Some(s[0])) else Ok(s, None)
  {}

  /** `take_while(p)`: never fails. */
  function TakeWhile(p: char -> bool, s: string): (r: Result<string>)
    ensures r.Ok? && r.out + r.rest == s
  {
    var n := Span(p, s);
    Ok(s[n..], s[..n])
  }

  /** `take_while1(p)`: fails when no character satisfies `p`. */
  function TakeWhile1(p: char -> bool, s: string): (r: Result<string>)
    ensures r.Ok? <==> |s| > 0 && p(s[0])
    ensures r.Ok? ==> r.out + r.rest == s
  {
    var n := Span(p, s);
    if n == 0 then Err(Error) else Ok(s[n..], s[..n])
  }

  /** `is_not(cs)`: one or more characters not in `cs`. */
  function IsNot(cs: string, s: string): (r: Result<string>)
    ensures r.Ok? <==> |s| > 0 && s[0] !in cs
    ensures r.Ok? ==> r.out + r.rest == s
  {
    TakeWhile1(NoneOf(cs), s)
  }

  /** `multispace0` */
  function Multispace0(s: string): (r: Result<string>)
    ensures r.Ok? && r.out + r.rest == s
  {
    TakeWhile(IsMultispace, s)
  }

  // --------------------------------------------------------------- combinators

  /** `alt((p, q))` at one input, given `p`'s and `q`'s results there. */
  function Alt<T>(first: Result<T>, second: Result<T>): Result<T> {
    if first == Err(Error) then second else first
  }

  /** `opt(p)` at input `s`, given `p`'s result there. */
  function Opt<T>(r: Result<T>, s: string): Result<Option<T>> {
    match r
    case Ok(rest, o) => Ok(rest, Some(o))
    case Err(Error) => Ok(s, None)
    case Err(Panic) => Err(Panic)
  }

  /** `recognize(p)` at input `s`, given `p`'s result there. */
  function Recognize<T>(s: string, r: Result<T>): Result<string>
    requires r.Ok? ==> IsSuffix(r.rest, s)
  {
    match r
    case Ok(rest, _) => Ok(rest, Consumed(s, rest))
    case Err(f) => Err(f)
  }

  /** `all_consuming(p)`, given `p`'s result. */
  function AllConsuming<T>(r: Result<T>): Result<T> {
    if r.Ok? && r.rest != "" then Err(Error) else r
  }

  /**
   * `many0(p)`. nom stops with an error when `p` succeeds without consuming
   * anything; for a parser that only returns suffixes of its input, the test
   * `|s1| >= |s|` below is that test.
   */
  function Many0<T>(p: Parser<T>, s: string): (r: Result<seq<T>>)
    ensures Sound(p) && r.Ok? ==> IsSuffix(r.rest, s)
    decreases |s|
  {
    match p(s)
    case Err(Error) => Ok(s, [])
    case Err(Panic) => Err(Panic)
    case Ok(s1, o) =>
      if |s1| >= |s| then Err(Error)
      else
        match Many0(p, s1)
        case Err(f) => Err(f)
        case Ok(s2, os) =>
          SuffixTransitive(s2, s1, s);
          Ok(s2, [o] + os)
  }

  /** `many1(p)`: `p` once, then as `many0`. */
  function Many1<T>(p: Parser<T>, s: string): (r: Result<seq<T>>)
    ensures r.Ok? ==> p(s).Ok? && |r.out| > 0 && r.out[0] == p(s).out
    ensures Sound(p) && r.Ok? ==> IsSuffix(r.rest, s)
  {
    match p(s)
    case Err(f) => Err(f)
    case Ok(s1, o) =>
      match Many0(p, s1)
      case Err(f) => Err(f)
      case Ok(s2, os) =>
        SuffixTransitive(s2, s1, s);
        Ok(s2, [o] + os)
  }

  lemma HeadTail<T>(xs: seq<T>)
    requires |xs| > 0
    ensures [xs[0]] + xs[1..] == xs
  {}

  /** One turn of `many0(p)` that makes progress. */
  lemma Many0Step<T>(p: Parser<T>, s: string)
    requires p(s).Ok? && |p(s).rest| < |s| && Many0(p, p(s).rest).Ok?
    ensures Many0(p, s) == Ok(Many0(p, p(s).rest).rest, [p(s).out] + Many0(p, p(s).rest).out)
  {}

  /** One turn of `many0(p)` that makes progress, with its results named. */
  lemma Many0Then<T>(p: Parser<T>, s: string, s1: string, o: T, s2: string, os: seq<T>)
    requires p(s) == Ok(s1, o) && |s1| < |s| && Many0(p, s1) == Ok(s2, os)
    ensures Many0(p, s) == Ok(s2, [o] + os)
  {}

  /** `p` consumes something whenever it succeeds. */
  ghost predicate Progresses<T>(p: Parser<T>) {
    forall s :: p(s).Ok? ==> |p(s).rest| < |s|
  }

  /**
   * `many0(p)` fails with an error only when `p` succeeds without consuming
   * anything: for a `p` that always makes progress it never does.
   */
  lemma {:induction false} Many0NoError<T>(p: Parser<T>, s: string)
    requires Progresses(p)
    ensures Many0(p, s) != Err(Error)
    decreases |s|
  {
    match p(s)
    case Ok(s1, _) =>
      Many0NoError(p, s1);
    case Err(_) =>
  }

  /** For a `p` that always makes progress, `many1(p)` fails with an error exactly when `p` does. */
  lemma Many1Error<T>(p: Parser<T>, s: string)
    requires Progresses(p)
    ensures Many1(p, s) == Err(Error) <==> p(s) == Err(Error)
  {
    if p(s).Ok? {
      Many0NoError(p, p(s).rest);
    }
  }

  /** When `p` makes progress, `many1(p)` and `many0(p)` agree. */
  lemma Many1IsMany0<T>(p: Parser<T>, s: string)
    requires p(s).Ok? && |p(s).rest| < |s|
    ensures Many1(p, s) == Many0(p, s)
  {}

  /**
   * `many_till(f, g)`: before each use of `f`, try `g`; stop with `g`'s
   * success. Like `many0`, it fails when `f` makes no progress.
   */
  function ManyTill<T, U>(f: Parser<T>, g: Parser<U>, s: string): (r: Result<(seq<T>, U)>)
    ensures Sound(f) && Sound(g) && r.Ok? ==> IsSuffix(r.rest, s)
    decreases |s|
  {
    match g(s)
    case Ok(s1, u) => Ok(s1, ([], u))
    case Err(Panic) => Err(Panic)
    case Err(Error) =>
      match f(s)
      case Err(e) => Err(e)
      case Ok(s1, t) =>
        if |s1| >= |s| then Err(Error)
        else
          match ManyTill(f, g, s1)
          case Err(e) => Err(e)
          case Ok(s2, (ts, u)) =>
            SuffixTransitive(s2, s1, s);
            Ok(s2, ([t] + ts, u))
  }
}
