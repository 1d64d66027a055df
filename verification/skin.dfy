/**
 * The skin record that the transfer reads and writes: vertex positions,
 * texture coordinates, faces and bones, each bone carrying a sparse list of
 * (vertex id, weight) pairs. The binary codec that produces and consumes
 * these records is not part of this model.
 */
module SkinModel {
  import opened Geometry

  /** The stand-in for a body that a bone is attached to: only its identifier is kept. */
  datatype BodyRef = BodyRef(fullIdentifier: string)

  /** A bind-pose rotation quaternion (w, x, y, z). */
  datatype Quat = Quat(w: real, x: real, y: real, z: real)

  /** A texture coordinate (u, v). */
  datatype TexCoord = TexCoord(u: real, v: real)

  /** A triangle given by three vertex indices. */
  datatype Face = Face(a: int, b: int, c: int)

  /**
   * A bone: its body, bind pose, and two parallel lists naming the vertices
   * it influences and with what weight.
   */
  datatype Bone = Bone(
    body: BodyRef,
    bindpos: Vec3,
    bindquat: Quat,
    vertexIds: seq<int>,
    vertexWeights: seq<real>)

  datatype Skin = Skin(
    vertices: seq<Vec3>,
    texcoords: seq<TexCoord>,
    faces: seq<Face>,
    bones: seq<Bone>)

  /** The ways a transfer can stop without producing a skin. */
  datatype Failure =
    /** The target mesh export holds no vertex, so its coordinate columns cannot be selected. */
    | EmptyTargetMesh
    /** A bone names a vertex id outside the source vertex rows. */
    | VertexIdOutOfRange
    /** There is no source vertex to be nearest to a target vertex. */
    | EmptySourceMesh
    /** A neighbour count above one was requested; only the 1-nearest transfer exists. */
    | BlendedTransferUnsupported
    /** A nearest source vertex has no texture coordinate. */
    | TexcoordIndexOutOfRange
}
