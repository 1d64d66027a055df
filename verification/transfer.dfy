/**
 * Nearest-neighbour transfer: every target vertex takes the dense weight row
 * and the texture coordinate of a nearest source vertex. Only the 1-nearest
 * mode exists; asking for more neighbours fails.
 */
module Transfer {
  import opened Wrappers
  import opened Geometry
  import opened SkinModel
  import opened Weights

  /** The nearest source index of every target point, in target order. */
  function NearestIndices(src: seq<Vec3>, targets: seq<Vec3>): (idx: seq<nat>)
    requires |src| > 0
    ensures |idx| == |targets|
    ensures forall i :: 0 <= i < |targets| ==> IsNearest(src, targets[i], idx[i])
  {
    seq(|targets|, i requires 0 <= i < |targets| => Nearest(src, targets[i]))
  }

  /** `v` is the value that `values` holds at one source point nearest to `q`. */
  ghost predicate CopiedFromNearest<T>(src: seq<Vec3>, q: Vec3, values: seq<T>, v: T) {
    exists s :: IsNearest(src, q, s) && s < |values| && v == values[s]
  }

  /** With pairwise distinct source points, every source point is its own nearest point. */
  lemma NearestIndicesOfOwnPoints(src: seq<Vec3>)
    requires |src| > 0
    requires Distinct(src)
    ensures forall i :: 0 <= i < |src| ==> NearestIndices(src, src)[i] == i
  {
    forall i | 0 <= i < |src|
      ensures NearestIndices(src, src)[i] == i
    {
      NearestOfOwnPoint(src, i);
    }
  }

  /** The elements of `xs` at the positions `idx`, in the order of `idx`. */
  function Gather<T>(xs: seq<T>, idx: seq<nat>): seq<T>
    requires forall i :: 0 <= i < |idx| ==> idx[i] < |xs|
  {
    seq(|idx|, i requires 0 <= i < |idx| => xs[idx[i]])
  }

  /**
   * The target weight matrix: one row per target point, each a copy of the
   * dense source row of a nearest source vertex. The dense expansion runs
   * first, so a bad vertex id fails before anything else; a neighbour count
   * above one then fails; with no source vertex, a target point has no row to
   * copy.
   */
  function TargetWeights(src: Skin, targets: seq<Vec3>, k: int): (r: Result<Matrix, Failure>)
    ensures r.Success? <==>
              && AllIdsInRange(src.bones, |src.vertices|)
              && k <= 1
              && (|src.vertices| > 0 || |targets| == 0)
    ensures k > 1 ==> r.Failure?
    ensures !AllIdsInRange(src.bones, |src.vertices|) ==> r == Failure(VertexIdOutOfRange)
    ensures AllIdsInRange(src.bones, |src.vertices|) && k > 1 ==> r == Failure(BlendedTransferUnsupported)
    ensures r.Success? ==> IsShape(r.value, |targets|, |src.bones|)
    ensures r.Success? ==>
              forall i :: 0 <= i < |targets| ==>
                CopiedFromNearest(src.vertices, targets[i], Expanded(src.bones, |src.vertices|), r.value[i])
  {
    var dense :- ExpandWeights(src.bones, |src.vertices|);
    if k > 1 then Failure(BlendedTransferUnsupported)
    else if |targets| == 0 then Success([])
    else if |src.vertices| == 0 then Failure(EmptySourceMesh)
    else
      var idx := NearestIndices(src.vertices, targets);
      var rows := Gather(dense, idx);
      assert forall i :: 0 <= i < |targets| ==> IsNearest(src.vertices, targets[i], idx[i]) && rows[i] == dense[idx[i]];
      Success(rows)
  }

  /**
   * The transferred texture coordinates: one per target point, each the
   * texture coordinate of a nearest source vertex.
   */
  function TransferTexcoords(sTex: seq<TexCoord>, sVerts: seq<Vec3>, tVerts: seq<Vec3>): (r: Result<seq<TexCoord>, Failure>)
    ensures r.Success? <==>
              |tVerts| == 0 || (|sVerts| > 0 && forall i :: 0 <= i < |tVerts| ==> Nearest(sVerts, tVerts[i]) < |sTex|)
    ensures |sVerts| > 0 && |sTex| >= |sVerts| ==> r.Success?
    ensures |tVerts| > 0 && |sVerts| == 0 ==> r == Failure(EmptySourceMesh)
    ensures r.Success? ==> |r.value| == |tVerts|
    ensures r.Success? ==>
              forall i :: 0 <= i < |tVerts| ==> CopiedFromNearest(sVerts, tVerts[i], sTex, r.value[i])
  {
    if |tVerts| == 0 then Success([])
    else if |sVerts| == 0 then Failure(EmptySourceMesh)
    else
      var idx := NearestIndices(sVerts, tVerts);
      if exists i :: 0 <= i < |idx| && idx[i] >= |sTex| then Failure(TexcoordIndexOutOfRange)
      else
        var coords := Gather(sTex, idx);
        assert forall i :: 0 <= i < |tVerts| ==>
          IsNearest(sVerts, tVerts[i], idx[i]) && idx[i] < |sTex| && coords[i] == sTex[idx[i]];
        Success(coords)
  }

  /**
   * Transferring onto the source's own, pairwise distinct vertices gives back
   * the source's own dense weight matrix.
   */
  lemma IdentityWeightTransfer(src: Skin)
    requires Distinct(src.vertices)
    requires AllIdsInRange(src.bones, |src.vertices|)
    ensures TargetWeights(src, src.vertices, 1) == Success(Expanded(src.bones, |src.vertices|))
  {
    if |src.vertices| > 0 {
      NearestIndicesOfOwnPoints(src.vertices);
      var dense := Expanded(src.bones, |src.vertices|);
      assert Gather(dense, NearestIndices(src.vertices, src.vertices)) == dense;
    }
  }

  /**
   * Transferring texture coordinates onto the source's own, pairwise distinct
   * vertices gives back the source's texture coordinates.
   */
  lemma IdentityTexcoordTransfer(sTex: seq<TexCoord>, sVerts: seq<Vec3>)
    requires Distinct(sVerts)
    requires |sTex| == |sVerts|
    ensures TransferTexcoords(sTex, sVerts, sVerts) == Success(sTex)
  {
    if |sVerts| > 0 {
      NearestIndicesOfOwnPoints(sVerts);
      assert Gather(sTex, NearestIndices(sVerts, sVerts)) == sTex;
    }
  }

  /** In the worked example, the target point on source vertex 1 finds vertex 1. */
  lemma ExampleNearest(verts: seq<Vec3>)
    requires |verts| == 4 && Distinct(verts)
    ensures NearestIndices(verts, [verts[1]]) == [1]
  {
    NearestOfOwnPoint(verts, 1);
    var idx := NearestIndices(verts, [verts[1]]);
    assert idx[0] == 1;
  }

  /** In the worked example, the dense row of vertex 1 is [0.5, 0.5]. */
  lemma ExampleDense(a: Bone, b: Bone)
    requires a.vertexIds == [0, 1] && a.vertexWeights == [1.0, 0.5]
    requires b.vertexIds == [1, 2] && b.vertexWeights == [0.5, 1.0]
    ensures ExpandWeights([a, b], 4).Success?
    ensures Expanded([a, b], 4)[1] == [0.5, 0.5]
  {
  }

  /**
   * Two bones over four distinct vertices, A = {0: 1.0, 1: 0.5} and
   * B = {1: 0.5, 2: 1.0}; a single target point on source vertex 1 receives
   * the row [0.5, 0.5].
   */
  lemma TwoBoneExample(verts: seq<Vec3>, body: BodyRef, pose: Vec3, quat: Quat, tex: seq<TexCoord>, faces: seq<Face>)
    requires |verts| == 4 && Distinct(verts)
    ensures var a := Bone(body, pose, quat, [0, 1], [1.0, 0.5]);
            var b := Bone(body, pose, quat, [1, 2], [0.5, 1.0]);
            TargetWeights(Skin(verts, tex, faces, [a, b]), [verts[1]], 1) == Success([[0.5, 0.5]])
  {
    var a := Bone(body, pose, quat, [0, 1], [1.0, 0.5]);
    var b := Bone(body, pose, quat, [1, 2], [0.5, 1.0]);
    ExampleNearest(verts);
    ExampleDense(a, b);
    var dense := Expanded([a, b], 4);
    assert Gather(dense, [1]) == [[0.5, 0.5]];
  }
}
