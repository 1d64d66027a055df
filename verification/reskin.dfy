/**
 * The reskin pipeline: the source skin's weights and texture coordinates are
 * carried over to the normalised target vertices, and one bone is rebuilt per
 * source bone, listing every target vertex with its transferred weight.
 */
module Reskin {
  import opened Wrappers
  import opened Geometry
  import opened SkinModel
  import opened Weights
  import opened Transfer
  import opened BlenderObj

  /** The ids 0, 1, ..., n - 1. */
  function Range(n: nat): seq<int> {
    seq(n, i requires 0 <= i < n => i)
  }

  /** Column `j` of a matrix, top to bottom. */
  function Column(m: Matrix, j: nat): seq<real>
    requires forall i :: 0 <= i < |m| ==> j < |m[i]|
  {
    seq(|m|, i requires 0 <= i < |m| => m[i][j])
  }

  /**
   * One bone per source bone, in order: same body and bind pose, listing every
   * one of the `n` target vertices with its weight from column j, zeros
   * included.
   */
  function RebuildBones(bones: seq<Bone>, w: Matrix, n: nat): (out: seq<Bone>)
    requires IsShape(w, n, |bones|)
    ensures |out| == |bones|
    ensures forall j :: 0 <= j < |bones| ==>
              && out[j].body == bones[j].body
              && out[j].bindpos == bones[j].bindpos
              && out[j].bindquat == bones[j].bindquat
              && out[j].vertexIds == Range(n)
              && |out[j].vertexWeights| == n
              && forall i :: 0 <= i < n ==> out[j].vertexWeights[i] == w[i][j]
  {
    seq(|bones|, j requires 0 <= j < |bones| =>
      Bone(bones[j].body, bones[j].bindpos, bones[j].bindquat, Range(n), Column(w, j)))
  }

  /** For a bone listing ids 0..n-1 in order, after `p` pairs row v holds its own weight if written, else 0. */
  lemma {:induction false} DenseBoneLastWrite(b: Bone, n: nat, v: nat, p: nat)
    requires b.vertexIds == Range(n) && |b.vertexWeights| == n
    requires v < n && p <= n
    ensures LastWrite(b, n, v, p) == if v < p then b.vertexWeights[v] else 0.0
    decreases p
  {
    if p > 0 {
      DenseBoneLastWrite(b, n, v, p - 1);
    }
  }

  /**
   * The rebuilt bones carry exactly the transferred matrix: expanding them
   * back over the target vertices gives the matrix they were built from.
   */
  lemma RebuiltBonesExpandBack(bones: seq<Bone>, w: Matrix, n: nat)
    requires IsShape(w, n, |bones|)
    ensures ExpandWeights(RebuildBones(bones, w, n), n) == Success(w)
  {
    var out := RebuildBones(bones, w, n);
    forall j, q | 0 <= j < |out| && 0 <= q < PairCount(out[j])
      ensures InRows(out[j].vertexIds[q], n)
    {
    }
    var e := Expanded(out, n);
    forall v | 0 <= v < n
      ensures e[v] == w[v]
    {
      forall j | 0 <= j < |bones|
        ensures e[v][j] == w[v][j]
      {
        DenseBoneLastWrite(out[j], n, v, n);
      }
    }
    assert AllIdsInRange(out, n);
    assert e == w;
  }

  /**
   * Target vertex `i`, at position `q`, holds in every output bone the
   * source weight, under the matching source bone, of one source vertex
   * nearest to `q`.
   */
  ghost predicate WeightsFromNearest(src: Skin, q: Vec3, out: seq<Bone>, i: int) {
    exists s :: IsNearest(src.vertices, q, s)
                && forall j :: 0 <= j < |src.bones| && j < |out| && 0 <= i < |out[j].vertexWeights| ==>
                     out[j].vertexWeights[i] == Entry(src.bones[j], |src.vertices|, s)
  }

  /** Each target vertex's weights across the rebuilt bones are the source entries of one nearest source vertex. */
  lemma RebuiltWeightsFromNearest(src: Skin, targets: seq<Vec3>, w: Matrix)
    requires TargetWeights(src, targets, 1) == Success(w)
    ensures forall i :: 0 <= i < |targets| ==>
              WeightsFromNearest(src, targets[i], RebuildBones(src.bones, w, |targets|), i)
  {
  }

  /**
   * The whole transfer. An export without vertices fails while it is read,
   * before any transfer. The target vertices are normalised first; weights are
   * transferred with one neighbour whatever `k` asks for; bones are rebuilt;
   * texture coordinates are transferred; the target faces pass through.
   */
  function ReskinSkin(src: Skin, blenderVertices: seq<Vec3>, faces: seq<Face>, k: int): (r: Result<Skin, Failure>)
    ensures r.Success? <==>
              && |blenderVertices| > 0
              && AllIdsInRange(src.bones, |src.vertices|)
              && |src.vertices| > 0
              && TransferTexcoords(src.texcoords, src.vertices, NormaliseAxes(blenderVertices)).Success?
    ensures |blenderVertices| == 0 ==> r == Failure(EmptyTargetMesh)
    ensures |blenderVertices| > 0 && !AllIdsInRange(src.bones, |src.vertices|) ==> r == Failure(VertexIdOutOfRange)
    ensures r.Success? ==>
              && r.value.vertices == NormaliseAxes(blenderVertices)
              && r.value.faces == faces
              && |r.value.texcoords| == |blenderVertices|
              && |r.value.bones| == |src.bones|
    ensures r.Success? ==>
              forall j :: 0 <= j < |src.bones| ==>
                && r.value.bones[j].body == src.bones[j].body
                && r.value.bones[j].bindpos == src.bones[j].bindpos
                && r.value.bones[j].bindquat == src.bones[j].bindquat
                && r.value.bones[j].vertexIds == Range(|blenderVertices|)
                && |r.value.bones[j].vertexWeights| == |blenderVertices|
    ensures r.Success? ==>
              forall i :: 0 <= i < |blenderVertices| ==> WeightsFromNearest(src, r.value.vertices[i], r.value.bones, i)
    ensures r.Success? ==>
              forall i :: 0 <= i < |blenderVertices| ==>
                CopiedFromNearest(src.vertices, r.value.vertices[i], src.texcoords, r.value.texcoords[i])
  {
    if |blenderVertices| == 0 then Failure(EmptyTargetMesh)
    else
      var targets := NormaliseAxes(blenderVertices);
      var w :- TargetWeights(src, targets, 1);
      var bones := RebuildBones(src.bones, w, |targets|);
      RebuiltWeightsFromNearest(src, targets, w);
      var texcoords :- TransferTexcoords(src.texcoords, src.vertices, targets);
      Success(Skin(targets, texcoords, faces, bones))
  }

  /** The neighbour count handed to the pipeline is never used: every count gives the same outcome. */
  lemma NeighbourCountIgnored(src: Skin, blenderVertices: seq<Vec3>, faces: seq<Face>, k: int)
    ensures ReskinSkin(src, blenderVertices, faces, k) == ReskinSkin(src, blenderVertices, faces, 1)
  {
  }

  /** The output skin's bones expand back to exactly the transferred target weight matrix. */
  lemma OutputWeightsAreTransferred(src: Skin, blenderVertices: seq<Vec3>, faces: seq<Face>, k: int)
    requires ReskinSkin(src, blenderVertices, faces, k).Success?
    ensures ExpandWeights(ReskinSkin(src, blenderVertices, faces, k).value.bones, |blenderVertices|)
            == TargetWeights(src, NormaliseAxes(blenderVertices), 1)
  {
    var targets := NormaliseAxes(blenderVertices);
    var w := TargetWeights(src, targets, 1).value;
    RebuiltBonesExpandBack(src.bones, w, |targets|);
  }
}
