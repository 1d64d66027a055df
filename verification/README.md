# reskin: weight and texture-coordinate transfer, modelled in Dafny

`reskin.py` moves a MuJoCo skin onto a new mesh. It reads the source skin
(vertices, texture coordinates, faces, bones with sparse per-vertex weights)
and a Blender mesh export of the new target mesh. It undoes Blender's axis
convention on the target vertices and expands each bone's sparse weights into
a dense |source vertices| x |bones| matrix. Every target vertex then copies
the weight row and the texture coordinate of its nearest source vertex, found
with a k-d tree. The output has one bone per source bone, each listing every
target vertex with its transferred weight.

This project models that pure core over Dafny sequences of reals:

- `wrappers.dfy` (`Wrappers`): `Option` and a failure-compatible `Result`.
- `geometry.dfy` (`Geometry`): points, squared Euclidean distance, the
  nearest-point contract `IsNearest`, and `Nearest`, an argmin that breaks
  ties by the lowest index.
- `skin.dfy` (`SkinModel`): `Bone`, `Skin`, the body stand-in `BodyRef`, and
  the failures of the transfer.
- `weights.dfy` (`Weights`): the sparse-to-dense expansion. It has a
  functional reference (`Expanded`, `ExpandWeights`) and the program's
  bone-by-bone, pair-by-pair scatter (`DenseWeights`), which is proved equal
  to the reference.
- `transfer.dfy` (`Transfer`): 1-nearest-neighbour transfer of weight rows
  and texture coordinates, the identity-transfer lemmas and a worked
  two-bone example.
- `obj.dfy` (`BlenderObj`): axis normalisation and the `vt`/`f` line
  classifier.
- `reskin.dfy` (`Reskin`): bone reassembly and the whole pipeline.

Behaviour of the code that the model follows:

- `reskin` never uses its `k` argument. It always calls the weight transfer
  with `k=1` (reskin.py:97), so the pipeline never fails because of the
  neighbour count (`Reskin.NeighbourCountIgnored`). Only
  `_calculate_target_weights` itself refuses `k > 1`.
- With `k > 1`, the failure happens at reskin.py:70. A 1-nearest query returns
  a one-dimensional distance array, so summing it along axis 1 raises an
  axis error. The `NotImplementedError` at reskin.py:76 is never reached. The
  model records this outcome as `BlendedTransferUnsupported`.
- A source skin with no bones is not an error. The output then has no bones.
- A target export without vertices fails while it is read. Its vertex array
  is then one-dimensional, so selecting coordinate columns at reskin.py:36
  raises an index error before any transfer (`EmptyTargetMesh`).
- Vertex ids index the matrix the way numpy does: an id in `[-n, 0)` selects
  row `id + n`, and any other out-of-range id fails (`VertexIdOutOfRange`).
  `zip` pairs ids with weights only up to the shorter list. A later pair for
  the same row overwrites an earlier one.
- The texture-coordinate pass indexes the source texture coordinates with the
  nearest source vertex index. It fails (`TexcoordIndexOutOfRange`) when the
  source has fewer texture coordinates than that index needs.
- `_list_texcoords_and_faces` is defined in the script but not called by
  `reskin`. It is modelled on its own.

## Model

| member | source | states |
|---|---|---|
| `Geometry.Nearest` | reskin.py:66-67 | The returned index is a source point whose distance to the query is no greater than that of any source point, which is the 1-nearest query's promise. Every lower index is strictly farther, so ties go to the lowest index. |
| `Geometry.OwnPointIsUniqueNearest` | reskin.py:66-67 | When source points are pairwise distinct, a query at source point i has i as its only nearest point, whatever tie-break the tree uses. |
| `Geometry.NearestOfOwnPoint` | reskin.py:66-67 | When source points are pairwise distinct, the query at source point i returns i. |
| `Weights.RowOf` | reskin.py:64 | An id selects a row exactly when -n <= id < n. The row is the id itself, or id + n for a negative id, as numpy indexing does. |
| `Weights.PairCount` | reskin.py:63 | The number of (id, weight) pairs is the length of the shorter of the two parallel lists, as `zip` pairs them. |
| `Weights.LastWriteWins` | reskin.py:62-64 | A row's weight under a bone is the weight of the last pair that writes that row, and 0 when no pair writes it. |
| `Weights.ExpandWeights` | reskin.py:60-64 | The dense matrix has |vertices| rows and |bones| columns. Entry (v, j) is bone j's last-written weight for v, or 0. The expansion fails exactly when some paired id of some bone selects no row. |
| `Weights.ScatterBone` | reskin.py:63-64 | Writing one bone's pairs into its zero column j fills column j with that bone's entries and leaves every other column unchanged. It fails exactly when a paired id is out of range. |
| `Weights.DenseWeights` | reskin.py:60-64 | The zero matrix followed by writes in bone order, then pair order, gives the same matrix or the same failure as the reference expansion. |
| `Transfer.NearestIndices` | reskin.py:67 | The batched query has one answer per target point, in order, and each answer is a nearest source index for its point. |
| `Transfer.TargetWeights` | reskin.py:58-79 | The transfer succeeds exactly when all ids are in range, k <= 1, and there is a source vertex or no target point. Any k > 1 fails. Otherwise the result has one row per target point and one column per bone. Row i is the dense source row of a nearest source vertex to target point i. |
| `Transfer.TransferTexcoords` | reskin.py:82-90 | There is one texture coordinate per target vertex, that of a nearest source vertex. The transfer succeeds exactly when every nearest index has a texture coordinate, so it always succeeds when the source has as many texture coordinates as vertices. With no source vertex and a target vertex, it fails. |
| `Transfer.NearestIndicesOfOwnPoints` | reskin.py:66-67 | When source points are pairwise distinct, querying the source points themselves returns 0, 1, ..., n-1. |
| `Transfer.IdentityWeightTransfer` | reskin.py:60-78 | When every paired id is in range, transferring onto the source's own pairwise-distinct vertices returns the source's own dense weight matrix. |
| `Transfer.IdentityTexcoordTransfer` | reskin.py:82-90 | When the source has one texture coordinate per vertex, transferring onto the source's own pairwise-distinct vertices returns the source's own texture coordinates. |
| `Transfer.TwoBoneExample` | reskin.py:60-78 | Bones A = {0: 1.0, 1: 0.5} and B = {1: 0.5, 2: 1.0} over four distinct vertices give the row [0.5, 0.5] to a target point on source vertex 1. |
| `BlenderObj.NormaliseAxes` | reskin.py:34-37 | The vertex count is preserved, and each (x, y, z) becomes (x, -z, y): y and z are swapped, then the new y is negated. |
| `BlenderObj.NormaliseUndoesExport` | reskin.py:31-37 | Normalising positions written in Blender's export convention, (x, y, z) to (x, z, -y), gives back the original positions. |
| `BlenderObj.ExportUndoesNormalise` | reskin.py:31-37 | Normalisation is invertible: re-exporting normalised positions gives back the input. |
| `BlenderObj.ListTexcoordsAndFaces` | reskin.py:42-55 | Scanning the lines gives, in file order, the remaining tokens of every `vt` line as texture coordinates and of every `f` line as faces. Blank lines and all other lines are skipped. |
| `BlenderObj.TaggedAppend` | reskin.py:47-54 | Records keep file order: the records of two concatenated line lists are the first list's records followed by the second's. |
| `BlenderObj.TaggedMembership` | reskin.py:48-54 | A record is listed exactly when some non-blank line starts with the tag and has that record as its remaining tokens. |
| `Reskin.RebuildBones` | reskin.py:101-110 | There is one output bone per source bone, in order. Each keeps body, bindpos and bindquat, has vertex ids 0..n-1, and has as weights column j of the target matrix, zeros included. |
| `Reskin.DenseBoneLastWrite` | reskin.py:106-108 | For a bone listing ids 0..n-1 in order, after p pairs, row v holds its own listed weight if v < p, else 0. |
| `Reskin.RebuiltBonesExpandBack` | reskin.py:101-110 | Expanding the rebuilt bones over the target vertices gives back exactly the matrix they were built from. The dense re-emission loses nothing. |
| `Reskin.RebuiltWeightsFromNearest` | reskin.py:97-110 | In the rebuilt bones, every target vertex carries, under each bone, that bone's source weight for one nearest source vertex. |
| `Reskin.ReskinSkin` | reskin.py:92-116 | The pipeline succeeds exactly when the export has a vertex, the ids are in range, the source has a vertex, and the texture-coordinate transfer succeeds. An empty export fails first, then a bad id. The output has the normalised target vertices, the target faces unchanged, one texture coordinate per vertex copied from a nearest source vertex, and one bone per source bone with its body and bind pose and all target vertices. Each target vertex's weights come from one nearest source vertex. |
| `Reskin.NeighbourCountIgnored` | reskin.py:92-97 | The outcome of the pipeline does not depend on the neighbour count it is given. |
| `Reskin.OutputWeightsAreTransferred` | reskin.py:97-116 | The bones of a successful output expand back to exactly the transferred target weight matrix. |

## Left out

- The `.skn` binary format: `skin.parse`, `skin.serialize` and the `skin.Skin` and `skin.Bone` classes belong to dm_control, which is not part of this model. `Skin` and `Bone` are plain datatypes here.
- Reading the Blender export with pywavefront, extracting its faces, `resources.GetResource`, and opening and writing files. All of this is file I/O or foreign-library code. The target vertices and faces are parameters of `Reskin.ReskinSkin`.
- The k-d tree's structure and its sub-linear query time. Only the nearest-point contract is modelled.
- `Geometry.Nearest`: the tree promises only *a* nearest point. Breaking ties by the lowest index is a choice of this model. What the transfers copy is stated with `IsNearest`, which holds for any nearest point, but the texture-coordinate failure condition is not (next line).
- `Transfer.TransferTexcoords`: its success condition, and so that of `Reskin.ReskinSkin`, asks whether the lowest-index nearest point has a texture coordinate. When equally near duplicate source points lie on both sides of the last texture coordinate, a tree that returns the higher index fails where the model succeeds. The condition is tie-break independent when the source has at least as many texture coordinates as vertices.
- Distances are squared Euclidean. The square root the tree takes does not change which point is nearest.
- Float32 storage of coordinates and weights. Every number is a `real`, with no rounding.
- `BlenderObj.ListTexcoordsAndFaces`: `line.split()` and `float()` are not modelled. A line is already a list of tokens, and texture-coordinate tokens stay strings, so a `ValueError` from a non-numeric token does not appear.
- `Transfer.TargetWeights`: the `1 / distance` weighting at reskin.py:69-70 is floating-point work on a path that always fails. Only the failure is modelled.
- `Transfer.TargetWeights` and `Transfer.TransferTexcoords`: a query against an empty source point set is modelled as the failure `EmptySourceMesh`. The exact exception comes from the tree and from numpy indexing, and neither is part of this model.
- The `FakeBody` placeholder class is reduced to `BodyRef`, an identifier carried through unchanged.
- The command-line entry point (argparse) is not modelled.
