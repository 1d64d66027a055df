/**
 * Sparse-to-dense weight expansion: each bone's parallel vertex-id and
 * weight lists are scattered into a |vertices| x |bones| matrix, column j
 * holding bone j. Unlisted entries stay 0, a vertex listed twice under one
 * bone keeps the later weight, and ids are read as array indices (a
 * negative id counts from the end; anything else outside the rows fails).
 */
module Weights {
  import opened Wrappers
  import opened SkinModel

  /** A dense matrix, as a sequence of rows. */
  type Matrix = seq<seq<real>>

  predicate IsShape(m: Matrix, rows: nat, cols: nat) {
    && |m| == rows
    && forall i :: 0 <= i < |m| ==> |m[i]| == cols
  }

  /** `id` selects one of `n` rows as an array index, counting negative ids from the end. */
  predicate InRows(id: int, n: nat) {
    -(n as int) <= id < n
  }

  /** The row an id selects among `n` rows, counting negative ids from the end; None when out of range. */
  function RowOf(id: int, n: nat): (r: Option<nat>)
    ensures r.Some? <==> InRows(id, n)
    ensures r.Some? ==> r.value < n && (r.value == id || r.value == id + n)
  {
    if 0 <= id < n then Some(id)
    else if -(n as int) <= id < 0 then Some(id + n)
    else None
  }

  /** The number of (id, weight) pairs a bone contributes: the parallel lists are paired up to the shorter. */
  function PairCount(b: Bone): (c: nat)
    ensures c <= |b.vertexIds| && c <= |b.vertexWeights|
    ensures c == |b.vertexIds| || c == |b.vertexWeights|
  {
    if |b.vertexIds| <= |b.vertexWeights| then |b.vertexIds| else |b.vertexWeights|
  }

  /** Every paired id of every bone selects a row among `n`. */
  predicate AllIdsInRange(bones: seq<Bone>, n: nat) {
    forall j, q :: 0 <= j < |bones| && 0 <= q < PairCount(bones[j]) ==> InRows(bones[j].vertexIds[q], n)
  }

  /**
   * The weight row `v` holds for bone `b` after the first `p` pairs have been
   * written: the weight of the last of them that selects row `v`, or 0 when
   * none does.
   */
  function LastWrite(b: Bone, n: nat, v: nat, p: nat): real
    requires p <= PairCount(b)
    decreases p
  {
    if p == 0 then 0.0
    else if RowOf(b.vertexIds[p - 1], n) == Some(v) then b.vertexWeights[p - 1]
    else LastWrite(b, n, v, p - 1)
  }

  /** Pair `q` (of the first `p`) writes row `v`, and no later one of them does. */
  ghost predicate IsLastWriteTo(b: Bone, n: nat, v: nat, p: nat, q: int)
    requires p <= PairCount(b)
  {
    && 0 <= q < p
    && RowOf(b.vertexIds[q], n) == Some(v)
    && forall q' :: q < q' < p ==> RowOf(b.vertexIds[q'], n) != Some(v)
  }

  /**
   * A row's weight is that of the last pair writing it, and 0 when no pair
   * writes it: later duplicates overwrite earlier ones.
   */
  lemma {:induction false} LastWriteWins(b: Bone, n: nat, v: nat, p: nat)
    requires p <= PairCount(b)
    ensures (forall q :: 0 <= q < p ==> RowOf(b.vertexIds[q], n) != Some(v)) ==> LastWrite(b, n, v, p) == 0.0
    ensures forall q :: IsLastWriteTo(b, n, v, p, q) ==> LastWrite(b, n, v, p) == b.vertexWeights[q]
    decreases p
  {
    if p > 0 {
      LastWriteWins(b, n, v, p - 1);
      forall q | IsLastWriteTo(b, n, v, p, q)
        ensures LastWrite(b, n, v, p) == b.vertexWeights[q]
      {
        if q < p - 1 {
          assert IsLastWriteTo(b, n, v, p - 1, q);
        }
      }
    }
  }

  /** The weight of vertex row `v` under bone `b` once all of the bone's pairs are written. */
  function Entry(b: Bone, n: nat, v: nat): real {
    LastWrite(b, n, v, PairCount(b))
  }

  /** The dense matrix: row v, column j is vertex v's weight under bone j. */
  function Expanded(bones: seq<Bone>, n: nat): (m: Matrix)
    ensures IsShape(m, n, |bones|)
  {
    seq(n, v requires 0 <= v < n => seq(|bones|, j requires 0 <= j < |bones| => Entry(bones[j], n, v)))
  }

  /** The expansion, failing when some bone names an id outside the rows. */
  function ExpandWeights(bones: seq<Bone>, n: nat): (r: Result<Matrix, Failure>)
    ensures r.Success? <==> AllIdsInRange(bones, n)
    ensures r.Failure? ==> r.error == VertexIdOutOfRange
    ensures r.Success? ==> IsShape(r.value, n, |bones|)
    ensures r.Success? ==> forall v, j :: 0 <= v < n && 0 <= j < |bones| ==> r.value[v][j] == Entry(bones[j], n, v)
  {
    if AllIdsInRange(bones, n) then Success(Expanded(bones, n)) else Failure(VertexIdOutOfRange)
  }

  /** The matrix with entry (v, j) replaced by `w`. */
  function SetEntry(m: Matrix, v: nat, j: nat, w: real): Matrix
    requires v < |m| && j < |m[v]|
  {
    m[v := m[v][j := w]]
  }

  /**
   * One bone's writes into column `j` of a matrix whose column `j` is still
   * zero, pair by pair. None when a paired id selects no row.
   */
  method ScatterBone(m: Matrix, n: nat, cols: nat, j: nat, b: Bone) returns (r: Option<Matrix>)
    requires IsShape(m, n, cols) && j < cols
    requires forall v :: 0 <= v < n ==> m[v][j] == 0.0
    ensures r.Some? <==> forall q :: 0 <= q < PairCount(b) ==> InRows(b.vertexIds[q], n)
    ensures r.Some? ==> IsShape(r.value, n, cols)
    ensures r.Some? ==> forall v :: 0 <= v < n ==> r.value[v][j] == Entry(b, n, v)
    ensures r.Some? ==> forall v, c :: 0 <= v < n && 0 <= c < cols && c != j ==> r.value[v][c] == m[v][c]
  {
    var acc := m;
    for p := 0 to PairCount(b)
      invariant IsShape(acc, n, cols)
      invariant forall q :: 0 <= q < p ==> InRows(b.vertexIds[q], n)
      invariant forall v :: 0 <= v < n ==> acc[v][j] == LastWrite(b, n, v, p)
      invariant forall v, c :: 0 <= v < n && 0 <= c < cols && c != j ==> acc[v][c] == m[v][c]
    {
      match RowOf(b.vertexIds[p], n)
      case None =>
        return None;
      case Some(v) =>
        acc := SetEntry(acc, v, j, b.vertexWeights[p]);
    }
    return Some(acc);
  }

  /**
   * The scatter as the program performs it: a zero matrix, then for each bone
   * in order and each of its pairs in order, one write. It stops at the first
   * out-of-range id.
   */
  method DenseWeights(bones: seq<Bone>, n: nat) returns (r: Result<Matrix, Failure>)
    ensures r == ExpandWeights(bones, n)
  {
    var m: Matrix := seq(n, _ => seq(|bones|, _ => 0.0));
    for j := 0 to |bones|
      invariant IsShape(m, n, |bones|)
      invariant forall j', q :: 0 <= j' < j && 0 <= q < PairCount(bones[j']) ==> InRows(bones[j'].vertexIds[q], n)
      invariant forall v, c :: 0 <= v < n && 0 <= c < j ==> m[v][c] == Entry(bones[c], n, v)
      invariant forall v, c :: 0 <= v < n && j <= c < |bones| ==> m[v][c] == 0.0
    {
      var next := ScatterBone(m, n, |bones|, j, bones[j]);
      match next
      case None =>
        assert !AllIdsInRange(bones, n) by {
          var q :| 0 <= q < PairCount(bones[j]) && !InRows(bones[j].vertexIds[q], n);
        }
        return Failure(VertexIdOutOfRange);
      case Some(m') =>
        m := m';
    }
    assert AllIdsInRange(bones, n);
    var e := Expanded(bones, n);
    forall v | 0 <= v < n
      ensures m[v] == e[v]
    {
      assert forall c :: 0 <= c < |bones| ==> m[v][c] == e[v][c];
    }
    assert m == e;
    return Success(m);
  }
}
