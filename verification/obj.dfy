/**
 * What the transfer takes from a Blender mesh export: vertex positions with
 * Blender's axis convention undone, and the texture-coordinate and face
 * records picked out of the export's lines. Line splitting and the parsing
 * of numeric tokens are not modelled: a line is its list of tokens.
 */
module BlenderObj {
  import opened Geometry

  /** Blender's export convention: its z-up frame written as y-up, (x, y, z) to (x, z, -y). */
  function BlenderExport(p: Vec3): Vec3 {
    Vec3(p.x, p.z, -p.y)
  }

  /** The second and third coordinates exchanged. */
  function SwapYZ(p: Vec3): Vec3 {
    Vec3(p.x, p.z, p.y)
  }

  /** The second coordinate negated. */
  function NegateY(p: Vec3): Vec3 {
    Vec3(p.x, -p.y, p.z)
  }

  /** Each vertex has its y and z exchanged, then the new y negated. */
  function NormaliseAxes(vs: seq<Vec3>): (r: seq<Vec3>)
    ensures |r| == |vs|
    ensures forall i :: 0 <= i < |vs| ==> r[i] == Vec3(vs[i].x, -vs[i].z, vs[i].y)
  {
    seq(|vs|, i requires 0 <= i < |vs| => NegateY(SwapYZ(vs[i])))
  }

  /** Normalising exported positions gives back the positions Blender exported, in order. */
  lemma NormaliseUndoesExport(vs: seq<Vec3>)
    ensures NormaliseAxes(seq(|vs|, i requires 0 <= i < |vs| => BlenderExport(vs[i]))) == vs
  {
  }

  /** Every normalised position is the export of some position: normalisation loses nothing. */
  lemma ExportUndoesNormalise(vs: seq<Vec3>)
    ensures seq(|vs|, i requires 0 <= i < |vs| => BlenderExport(NormaliseAxes(vs)[i])) == vs
  {
  }

  /** A line's record for `tag`: its remaining tokens when its first token is `tag`, else nothing. */
  function RecordOf(parts: seq<string>, tag: string): seq<seq<string>> {
    if |parts| > 0 && parts[0] == tag then [parts[1..]] else []
  }

  /** The records of every line whose first token is `tag`, in line order. */
  function Tagged(lines: seq<seq<string>>, tag: string): seq<seq<string>>
    decreases |lines|
  {
    if |lines| == 0 then []
    else Tagged(lines[..|lines| - 1], tag) + RecordOf(lines[|lines| - 1], tag)
  }

  /**
   * The line scan as the program performs it: blank lines are skipped, a
   * "vt" line adds a texture coordinate, an "f" line adds a face, and every
   * other line is ignored.
   */
  method ListTexcoordsAndFaces(lines: seq<seq<string>>) returns (texcoords: seq<seq<string>>, texfaces: seq<seq<string>>)
    ensures texcoords == Tagged(lines, "vt")
    ensures texfaces == Tagged(lines, "f")
  {
    texcoords, texfaces := [], [];
    for n := 0 to |lines|
      invariant texcoords == Tagged(lines[..n], "vt")
      invariant texfaces == Tagged(lines[..n], "f")
    {
      assert lines[..n + 1][..n] == lines[..n];
      var parts := lines[n];
      if |parts| == 0 {
        continue;
      }
      if parts[0] == "vt" {
        texcoords := texcoords + [parts[1..]];
      }
      if parts[0] == "f" {
        texfaces := texfaces + [parts[1..]];
      }
    }
    assert lines[..|lines|] == lines;
  }

  /** Records keep file order: the records of a concatenation are the concatenated records. */
  lemma {:induction false} TaggedAppend(a: seq<seq<string>>, b: seq<seq<string>>, tag: string)
    ensures Tagged(a + b, tag) == Tagged(a, tag) + Tagged(b, tag)
    decreases |b|
  {
    if |b| == 0 {
      assert a + b == a;
    } else {
      var b' := b[..|b| - 1];
      assert (a + b)[..|a + b| - 1] == a + b';
      TaggedAppend(a, b', tag);
    }
  }

  /** A record is listed exactly when some line carries `tag` first and that record after it. */
  lemma {:induction false} TaggedMembership(lines: seq<seq<string>>, tag: string, e: seq<string>)
    ensures e in Tagged(lines, tag) <==>
              exists i :: 0 <= i < |lines| && |lines[i]| > 0 && lines[i][0] == tag && lines[i][1..] == e
    decreases |lines|
  {
    if |lines| > 0 {
      var init := lines[..|lines| - 1];
      TaggedMembership(init, tag, e);
      assert forall i :: 0 <= i < |init| ==> init[i] == lines[i];
    }
  }
}
