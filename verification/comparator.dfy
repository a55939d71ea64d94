/**
 * The draw-order comparator of the M2 scene node: FarthestToNearest decides
 * whether submesh tag `a` is drawn before tag `b` from the camera distances of
 * their nearest and farthest extreme points.
 */
module SceneOrder {
  import opened Common

  /** BufferTag: one renderable submesh of the current view, with its camera distances. */
  datatype BufferTag = BufferTag(subMesh: nat, farDist: real, nearDist: real, containsCam: bool)

  /** The "they overlap in distance" test as written: both disjuncts demand b.nearDist > a.nearDist. */
  predicate Overlap(a: BufferTag, b: BufferTag)
  {
    (b.nearDist < a.farDist && b.nearDist > a.nearDist) || (a.nearDist < b.farDist && b.nearDist > a.nearDist)
  }

  /**
   * FarthestToNearest::operator(). The source has a path that falls off the end
   * of the function without a return statement (overlap, and both tags contain
   * the camera); that path is None here.
   */
  function FarthestToNearest(a: BufferTag, b: BufferTag): (r: Option<bool>)
    ensures r.None? <==> Overlap(a, b) && a.containsCam && b.containsCam
  {
    if Overlap(a, b) then
      if !a.containsCam && !b.containsCam then Some(a.nearDist > b.nearDist)
      else if a.containsCam && !b.containsCam then Some(a.farDist > b.nearDist)
      else if !a.containsCam && b.containsCam then Some(a.nearDist < b.farDist)
      else None
    else
      Some(a.farDist > b.farDist)
  }

  /** The overlap test can only pass when b's near edge lies beyond a's near edge. */
  lemma OverlapNeedsNearerA(a: BufferTag, b: BufferTag)
    ensures Overlap(a, b) ==> a.nearDist < b.nearDist
  {
  }

  /** A tag is never drawn before itself: the comparator is irreflexive. */
  lemma Irreflexive(a: BufferTag)
    ensures FarthestToNearest(a, a) == Some(false)
  {
    OverlapNeedsNearerA(a, a);
  }

  /** When b's near edge is not beyond a's, only the far edges are compared. */
  lemma FarEdgeFallback(a: BufferTag, b: BufferTag)
    requires b.nearDist <= a.nearDist
    ensures FarthestToNearest(a, b) == Some(a.farDist > b.farDist)
  {
    OverlapNeedsNearerA(a, b);
  }

  /** The results of the overlap branch, camera case by camera case. */
  lemma OverlapBranches(a: BufferTag, b: BufferTag)
    requires Overlap(a, b)
    ensures !a.containsCam && !b.containsCam ==> FarthestToNearest(a, b) == Some(false)
    ensures a.containsCam && !b.containsCam ==> FarthestToNearest(a, b) == Some(a.farDist > b.nearDist)
    ensures !a.containsCam && b.containsCam ==> FarthestToNearest(a, b) == Some(a.nearDist < b.farDist)
    ensures a.containsCam && b.containsCam ==> FarthestToNearest(a, b) == None
  {
    OverlapNeedsNearerA(a, b);
  }

  /** Two tags that both contain the camera and overlap: the source returns no value. */
  lemma MissingReturnExample()
    ensures FarthestToNearest(BufferTag(0, 10.0, 1.0, true), BufferTag(1, 8.0, 2.0, true)).None?
  {
  }

  /**
   * Two overlapping intervals that the test misses: a = [5, 10], b = [2, 12].
   * As written the far edges decide (false); the near-edge comparison the
   * overlap branch is meant for would say a is farther (true).
   */
  lemma OverlapMissedExample()
    ensures var a, b := BufferTag(0, 10.0, 5.0, false), BufferTag(1, 12.0, 2.0, false);
      !Overlap(a, b) && OverlapIntended(a, b) &&
      FarthestToNearest(a, b) == Some(false) && FarthestToNearestIntended(a, b)
  {
  }

  /** The symmetric overlap test the comments describe: either near edge lies inside the other interval. */
  predicate OverlapIntended(a: BufferTag, b: BufferTag)
  {
    (b.nearDist < a.farDist && b.nearDist > a.nearDist) || (a.nearDist < b.farDist && a.nearDist > b.nearDist)
  }

  /**
   * The comparator with the symmetric overlap test, and with the far-edge
   * comparison ("in all other cases use only far edge") on the path that
   * returns nothing in the source.
   */
  function FarthestToNearestIntended(a: BufferTag, b: BufferTag): (r: bool)
    ensures !OverlapIntended(a, b) || (a.containsCam && b.containsCam) ==> (r <==> a.farDist > b.farDist)
  {
    if OverlapIntended(a, b) then
      if !a.containsCam && !b.containsCam then a.nearDist > b.nearDist
      else if a.containsCam && !b.containsCam then a.farDist > b.nearDist
      else if !a.containsCam && b.containsCam then a.nearDist < b.farDist
      else a.farDist > b.farDist
    else
      a.farDist > b.farDist
  }

  /** The intended overlap test does not depend on the order of its arguments. */
  lemma OverlapIntendedSymmetric(a: BufferTag, b: BufferTag)
    ensures OverlapIntended(a, b) <==> OverlapIntended(b, a)
  {
  }

  /**
   * On tags that do not contain the camera the intended comparator is a strict
   * order: irreflexive and asymmetric, and overlapping tags are ordered by their
   * near edges.
   */
  lemma IntendedIsAsymmetric(a: BufferTag, b: BufferTag)
    requires !a.containsCam && !b.containsCam
    ensures !FarthestToNearestIntended(a, a)
    ensures FarthestToNearestIntended(a, b) ==> !FarthestToNearestIntended(b, a)
    ensures OverlapIntended(a, b) ==> (FarthestToNearestIntended(a, b) <==> a.nearDist > b.nearDist)
  {
    OverlapIntendedSymmetric(a, b);
  }
}
