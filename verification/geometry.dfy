/**
 * Points in 3-space and the nearest-point query that the transfer uses in
 * place of a k-d tree. Only the contract of a 1-nearest query is modelled:
 * the index returned is that of a source point whose distance to the query
 * is no greater than that of any other source point.
 */
module Geometry {

  /** A vertex position (x, y, z). */
  datatype Vec3 = Vec3(x: real, y: real, z: real)

  function Sq(r: real): real { r * r }

  /** Squared Euclidean distance. The square root is monotone, so it selects the same nearest points. */
  function SqDist(a: Vec3, b: Vec3): real {
    Sq(a.x - b.x) + Sq(a.y - b.y) + Sq(a.z - b.z)
  }

  lemma PositiveSquare(m: real)
    requires m > 0.0
    ensures Sq(m) > 0.0
  {
    calc {
      Sq(m);
    ==
      m * m;
    >
      0.0 * m;
    ==
      0.0;
    }
  }

  lemma SquareSign(r: real)
    ensures Sq(r) >= 0.0
    ensures r != 0.0 ==> Sq(r) > 0.0
  {
    if r < 0.0 {
      PositiveSquare(-r);
      assert Sq(r) == Sq(-r);
    } else if r > 0.0 {
      PositiveSquare(r);
    }
  }

  /** A point is at distance zero from itself. */
  lemma SqDistSelf(a: Vec3)
    ensures SqDist(a, a) == 0.0
  {
  }

  /** Distances are non-negative, and strictly positive between different points. */
  lemma SqDistPositive(a: Vec3, b: Vec3)
    ensures SqDist(a, b) >= 0.0
    ensures a != b ==> SqDist(a, b) > 0.0
  {
    var dx, dy, dz := a.x - b.x, a.y - b.y, a.z - b.z;
    SquareSign(dx);
    SquareSign(dy);
    SquareSign(dz);
    assert SqDist(a, b) == Sq(dx) + Sq(dy) + Sq(dz);
    if a != b {
      assert dx != 0.0 || dy != 0.0 || dz != 0.0;
    }
  }

  /** `i` indexes a source point at least as close to `q` as every source point. */
  ghost predicate IsNearest(src: seq<Vec3>, q: Vec3, i: int) {
    && 0 <= i < |src|
    && forall k :: 0 <= k < |src| ==> SqDist(src[i], q) <= SqDist(src[k], q)
  }

  /** No two source points coincide. */
  ghost predicate Distinct(src: seq<Vec3>) {
    forall a, b :: 0 <= a < b < |src| ==> src[a] != src[b]
  }

  /**
   * The 1-nearest query: an argmin of the distance over the source points,
   * ties broken by the lowest index.
   */
  function Nearest(src: seq<Vec3>, q: Vec3): (i: nat)
    requires |src| > 0
    ensures IsNearest(src, q, i)
    ensures forall k :: 0 <= k < i ==> SqDist(src[i], q) < SqDist(src[k], q)
    decreases |src|
  {
    if |src| == 1 then 0
    else
      var init := src[..|src| - 1];
      var b := Nearest(init, q);
      assert forall k :: 0 <= k < |init| ==> init[k] == src[k];
      if SqDist(src[|src| - 1], q) < SqDist(src[b], q) then |src| - 1 else b
  }

  /** With pairwise distinct source points, a source point is its own unique nearest point. */
  lemma OwnPointIsUniqueNearest(src: seq<Vec3>, i: nat, j: int)
    requires Distinct(src)
    requires i < |src|
    requires IsNearest(src, src[i], j)
    ensures j == i
  {
    SqDistSelf(src[i]);
    SqDistPositive(src[j], src[i]);
    assert SqDist(src[j], src[i]) <= SqDist(src[i], src[i]);
    assert src[j] == src[i];
  }

  /** With pairwise distinct source points, the query at a source point returns that point's index. */
  lemma NearestOfOwnPoint(src: seq<Vec3>, i: nat)
    requires Distinct(src)
    requires i < |src|
    ensures Nearest(src, src[i]) == i
  {
    OwnPointIsUniqueNearest(src, i, Nearest(src, src[i]));
  }
}
