/**
 * `find_closest_intersection` (scene/object/intersection.rs): the reducer
 * the scene and composite shapes share to pick, among the objects a ray
 * meets, the hit nearest the ray's origin.
 *
 * An object's `intersect(ray)` is the parameter `intersect`, with the ray
 * fixed inside it; the squared distance from the ray's origin to a hit's
 * point is the parameter `distance`.
 */
module Intersection {
  import opened Nom

  /** The running best: a hit's distance, the position of its object and the hit. */
  datatype Best<H> = Best(distance: real, index: nat, hit: H)

  /**
   * One iteration of the loop. `and_then` on a missed intersection gives
   * None whatever the best was; a hit replaces the best only when it is
   * strictly closer.
   */
  function Update<H>(best: Option<Best<H>>, i: nat, result: Option<H>, distance: H -> real): Option<Best<H>> {
    match result
    case None => None
    case Some(hit) =>
      match best
      case None => Some(Best(distance(hit), i, hit))
      case Some(b) => if b.distance > distance(hit) then Some(Best(distance(hit), i, hit)) else best
  }

  /**
   * The loop's running best after all of `objects`. It is None exactly when
   * there are no objects or the last one is missed, and otherwise it is the
   * hit of one of the objects, at that object's distance.
   */
  function Fold<O, H>(objects: seq<O>, intersect: O -> Option<H>, distance: H -> real): (r: Option<Best<H>>)
    ensures r.None? <==> |objects| == 0 || intersect(objects[|objects| - 1]).None?
    ensures r.Some? ==> Found(objects, intersect, distance, r.value)
    decreases |objects|
  {
    if |objects| == 0 then None
    else
      var n := |objects| - 1;
      var r := Update(Fold(objects[..n], intersect, distance), n, intersect(objects[n]), distance);
      assert r.Some? && r.value.index < n ==> objects[..n][r.value.index] == objects[r.value.index];
      r
  }

  /** `b` is the hit of one of `objects`, at its distance. */
  ghost predicate Found<O, H>(objects: seq<O>, intersect: O -> Option<H>, distance: H -> real, b: Best<H>) {
    && b.index < |objects|
    && intersect(objects[b.index]) == Some(b.hit)
    && b.distance == distance(b.hit)
  }

  /**
   * Where the run of hits at the end of `objects` starts: every object from
   * there on is hit, and the one just before it, if any, is missed.
   */
  function RunStart<O, H>(objects: seq<O>, intersect: O -> Option<H>): (k: nat)
    ensures k <= |objects|
    ensures forall j :: k <= j < |objects| ==> intersect(objects[j]).Some?
    ensures k > 0 ==> intersect(objects[k - 1]).None?
    decreases |objects|
  {
    if |objects| == 0 then 0
    else if intersect(objects[|objects| - 1]).None? then |objects|
    else
      var k := RunStart(objects[..|objects| - 1], intersect);
      assert forall j :: k <= j < |objects| - 1 ==> objects[..|objects| - 1][j] == objects[j];
      k
  }

  /**
   * `b` is the closest hit among the objects from `k` on, all of which are
   * hit, and among hits equally close it is the earliest.
   */
  ghost predicate ClosestFrom<O, H>(objects: seq<O>, intersect: O -> Option<H>, distance: H -> real, k: nat, b: Best<H>) {
    && k <= b.index
    && Found(objects, intersect, distance, b)
    && (forall j :: k <= j < |objects| ==> intersect(objects[j]).Some? && b.distance <= distance(intersect(objects[j]).value))
    && (forall j :: k <= j < b.index ==> b.distance < distance(intersect(objects[j]).value))
  }

  /**
   * What the reducer computes: when the last object is hit, the closest hit
   * of the final run of hits, the earliest one on a tie. Hits before the last
   * miss play no part.
   */
  lemma {:induction false} FoldIsClosestOfLastRun<O, H>(objects: seq<O>, intersect: O -> Option<H>, distance: H -> real)
    requires |objects| > 0 && intersect(objects[|objects| - 1]).Some?
    ensures Fold(objects, intersect, distance).Some?
    ensures ClosestFrom(objects, intersect, distance, RunStart(objects, intersect), Fold(objects, intersect, distance).value)
    decreases |objects|
  {
    var n := |objects| - 1;
    var prefix := objects[..n];
    var hit := intersect(objects[n]).value;
    var k := RunStart(objects, intersect);
    var r := Fold(objects, intersect, distance).value;
    assert forall j :: 0 <= j < n ==> prefix[j] == objects[j];
    if n == 0 || intersect(prefix[n - 1]).None? {
      assert k == n;
      assert r == Best(distance(hit), n, hit);
    } else {
      FoldIsClosestOfLastRun(prefix, intersect, distance);
      assert k == RunStart(prefix, intersect);
    }
  }

  /** The closest hit of a run is determined: two candidates are the same. */
  lemma ClosestFromUnique<O, H>(objects: seq<O>, intersect: O -> Option<H>, distance: H -> real, k: nat, b1: Best<H>, b2: Best<H>)
    requires ClosestFrom(objects, intersect, distance, k, b1)
    requires ClosestFrom(objects, intersect, distance, k, b2)
    ensures b1 == b2
  {
  }

  /**
   * `find_closest_intersection`: a loop over the objects keeping the best
   * hit so far, then the hit without its distance and object.
   */
  method FindClosestIntersection<O, H>(objects: seq<O>, intersect: O -> Option<H>, distance: H -> real)
    returns (closest: Option<H>)
    ensures closest.None? <==> |objects| == 0 || intersect(objects[|objects| - 1]).None?
    ensures closest.Some? ==> exists b :: ClosestFrom(objects, intersect, distance, RunStart(objects, intersect), b)
                                           && closest == Some(b.hit)
  {
    var best: Option<Best<H>> := None;
    for i := 0 to |objects|
      invariant best == Fold(objects[..i], intersect, distance)
    {
      assert objects[..i + 1][..i] == objects[..i];
      match intersect(objects[i])
      case None =>
        best := None;
      case Some(hit) =>
        var d := distance(hit);
        match best
        case None =>
          best := Some(Best(d, i, hit));
        case Some(b) =>
          if b.distance > d {
            best := Some(Best(d, i, hit));
          }
    }
    assert objects[..|objects|] == objects;
    closest := None;
    if best.Some? {
      FoldIsClosestOfLastRun(objects, intersect, distance);
      closest := Some(best.value.hit);
    }
  }

  // --------------------------------------------------- a miss drops the best

  /**
   * The fold as evidently intended: a missed object leaves the best as it
   * was, so earlier hits are kept.
   */
  function Keep<H>(best: Option<Best<H>>, i: nat, result: Option<H>, distance: H -> real): Option<Best<H>> {
    match result
    case None => best
    case Some(hit) => Update(best, i, result, distance)
  }

  function ClosestHit<O, H>(objects: seq<O>, intersect: O -> Option<H>, distance: H -> real): (r: Option<Best<H>>)
    ensures r.Some? ==> Found(objects, intersect, distance, r.value)
    decreases |objects|
  {
    if |objects| == 0 then None
    else
      var n := |objects| - 1;
      var r := Keep(ClosestHit(objects[..n], intersect, distance), n, intersect(objects[n]), distance);
      assert r.Some? && r.value.index < n ==> objects[..n][r.value.index] == objects[r.value.index];
      r
  }

  /** `b` is the closest of all hits, the earliest on a tie. */
  ghost predicate ClosestOfAll<O, H>(objects: seq<O>, intersect: O -> Option<H>, distance: H -> real, b: Best<H>) {
    && Found(objects, intersect, distance, b)
    && (forall j :: 0 <= j < |objects| && intersect(objects[j]).Some? ==> b.distance <= distance(intersect(objects[j]).value))
    && (forall j :: 0 <= j < b.index && intersect(objects[j]).Some? ==> b.distance < distance(intersect(objects[j]).value))
  }

  /**
   * The corrected reducer finds a hit exactly when some object is hit, and
   * that hit is the closest of all, whatever misses come between.
   */
  lemma {:induction false} ClosestHitIsGlobalMinimum<O, H>(objects: seq<O>, intersect: O -> Option<H>, distance: H -> real)
    ensures ClosestHit(objects, intersect, distance).None? <==> forall j :: 0 <= j < |objects| ==> intersect(objects[j]).None?
    ensures ClosestHit(objects, intersect, distance).Some? ==> ClosestOfAll(objects, intersect, distance, ClosestHit(objects, intersect, distance).value)
    decreases |objects|
  {
    if |objects| > 0 {
      var n := |objects| - 1;
      var prefix := objects[..n];
      assert forall j :: 0 <= j < n ==> prefix[j] == objects[j];
      ClosestHitIsGlobalMinimum(prefix, intersect, distance);
    }
  }

  /**
   * The reducer as written loses every hit when the last object is missed,
   * even though the corrected one finds the closest of them.
   */
  lemma MissAfterHitLosesIt<O, H>(objects: seq<O>, intersect: O -> Option<H>, distance: H -> real, i: nat)
    requires i < |objects| && intersect(objects[i]).Some? && intersect(objects[|objects| - 1]).None?
    ensures Fold(objects, intersect, distance).None?
    ensures ClosestHit(objects, intersect, distance).Some?
  {
    ClosestHitIsGlobalMinimum(objects, intersect, distance);
  }

  /** A ray that meets object 0 at distance 1 and misses object 1 is reported as meeting nothing. */
  lemma MissAfterHitExample()
    ensures Fold([0, 1], (o: int) => if o == 0 then Some(o) else None, (h: int) => 1.0) == None
    ensures ClosestHit([0, 1], (o: int) => if o == 0 then Some(o) else None, (h: int) => 1.0) == Some(Best(1.0, 0, 0))
  {
    var objects := [0, 1];
    assert objects[..1] == [0];
    assert objects[..1][..0] == [];
  }

  /**
   * Two objects both on the ray at different distances: the closer one is
   * found, in whichever order the objects come.
   */
  lemma TwoOverlappingObjects<O, H>(a: O, b: O, intersect: O -> Option<H>, distance: H -> real)
    requires intersect(a).Some? && intersect(b).Some?
    requires distance(intersect(a).value) < distance(intersect(b).value)
    ensures Fold([a, b], intersect, distance) == Some(Best(distance(intersect(a).value), 0, intersect(a).value))
    ensures Fold([b, a], intersect, distance) == Some(Best(distance(intersect(a).value), 1, intersect(a).value))
  {
    assert [a, b][..1] == [a] && [a][..0] == [];
    assert [b, a][..1] == [b] && [b][..0] == [];
  }
}
