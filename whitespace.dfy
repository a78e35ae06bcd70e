/** `tws`: a parser followed by the whitespace after it (common/whitespace.rs). */
module Whitespace {
  import opened Nom

  /** What `multispace0` leaves of `s`. */
  function SkipSpace(s: string): (rest: string)
    ensures IsSuffix(rest, s) && AllMultispace(Consumed(s, rest))
    ensures rest == "" || !IsMultispace(rest[0])
  {
    Multispace0(s).rest
  }

  /**
   * `tws(inner)`, that is `terminated(inner, multispace0)`, given `inner`'s
   * result. It fails exactly when `inner` does, keeps `inner`'s output, and
   * swallows the whole run of whitespace after what `inner` consumed.
   */
  function Tws<T>(r: Result<T>): (t: Result<T>)
    ensures t.Err? <==> r.Err?
    ensures r.Err? ==> t == r
    ensures r.Ok? ==> t.out == r.out && IsSuffix(t.rest, r.rest)
    ensures r.Ok? ==> AllMultispace(Consumed(r.rest, t.rest))
    ensures r.Ok? ==> t.rest == "" || !IsMultispace(t.rest[0])
  {
    match r
    case Err(f) => Err(f)
    case Ok(rest, o) => Ok(SkipSpace(rest), o)
  }

  /** Skipping whitespace where there is none changes nothing. */
  lemma SkipNoSpace(s: string)
    requires s == "" || !IsMultispace(s[0])
    ensures SkipSpace(s) == s
  {
    SpanIs(IsMultispace, s, 0);
  }

  /** `multispace0` over a run of whitespace `w` stops exactly where `w` ends. */
  lemma SkipSpaceOver(w: string, x: string)
    requires AllMultispace(w)
    requires x == "" || !IsMultispace(x[0])
    ensures SkipSpace(w + x) == x
  {
    var s := w + x;
    assert forall i :: 0 <= i < |w| ==> s[i] == w[i];
    SpanIs(IsMultispace, s, |w|);
    assert s[|w|..] == x;
  }

  /** Wrapping twice is the same as wrapping once: `tws(tws(p)) == tws(p)`. */
  lemma TwsIdempotent<T>(r: Result<T>)
    ensures Tws(Tws(r)) == Tws(r)
  {
    if r.Ok? {
      SkipNoSpace(Tws(r).rest);
    }
  }

  /** Over a successful inner result, `tws` leaves `inner`'s rest minus its leading whitespace. */
  lemma TwsOver<T>(rest: string, o: T, w: string, x: string)
    requires rest == w + x && AllMultispace(w)
    requires x == "" || !IsMultispace(x[0])
    ensures Tws(Ok(rest, o)) == Ok(x, o)
  {
    SkipSpaceOver(w, x);
  }
}
