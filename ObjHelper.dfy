/** The container the OBJ reader fills (`ObjHelper::ObjData`) and the types
    of the height map stored in it. The reader itself
    (`ObjHelper::readObjFile`) is not part of this model: its output is taken
    as given, subject to the invariant `ObjData.Valid`. */
module ObjHelper {
  import opened CNumerics

  /** `glm::vec3`, and also the three-float `scale` and `rotate` arrays. */
  datatype Vec3 = Vec3(x: real, y: real, z: real)

  /** One height-map sample: the terrain height and normal at a grid cell.
      Only the members `height` and `normal` used by the query code are
      modelled. */
  datatype MapLocInfo = MapLocInfo(height: real, normal: Vec3)

  /** The sparse two-level grid `x-cell -> z-cell -> sample`. */
  type HeightField = map<int, map<int, MapLocInfo>>

  /** `heightMapSampleFactor`: a float that must hold a whole number (10 keeps
      one decimal digit, 100 two, ...). Its value is set in `ObjHelper.cpp`,
      which is not part of this model, so it is a parameter of this type. */
  type SampleFactor = f: int | 1 <= f witness 1

  /** `(int)(v * heightMapSampleFactor)`: the grid cell of a local
      coordinate, by truncation toward zero. */
  function GridCell(v: real, factor: SampleFactor): (cell: int)
  {
    TruncToInt(v * factor as real)
  }

  /** Larger coordinates never get smaller cells. */
  lemma GridCellMonotone(x: real, y: real, factor: SampleFactor)
    requires x <= y
    ensures GridCell(x, factor) <= GridCell(y, factor)
  {
    TruncScaledMonotone(x, y, factor as real);
    assert GridCell(x, factor) == TruncToInt(x * factor as real);
    assert GridCell(y, factor) == TruncToInt(y * factor as real);
  }

  /** Number of floats per position and per normal, and per texture
      coordinate. */
  const PositionArity: nat := 3
  const TexCoordArity: nat := 2

  class ObjData {
    var minVertex: seq<real>
    var maxVertex: seq<real>
    var vertices: seq<real>
    var normals: seq<real>
    var texCoords: seq<real>
    /** One `(v, vt, vn)` index triple per face corner. */
    var indeces: seq<seq<UShort>>
    var mapLocInfos: HeightField

    /** What the code that consumes an `ObjData` relies on: a three-component
        bounding box, whole groups of 3/3/2 floats, the index-0 sentinel
        (OBJ indices start at 1) at the head of each attribute sequence, and
        one triple per face corner. */
    ghost predicate Valid()
      reads this
    {
      && |minVertex| == 3 && |maxVertex| == 3
      && |vertices| % PositionArity == 0
      && |normals| % PositionArity == 0
      && |texCoords| % TexCoordArity == 0
      && |vertices| >= 3 && vertices[..3] == [0.0, 0.0, 0.0]
      && |normals| >= 3 && normals[..3] == [0.0, 0.0, 0.0]
      && |texCoords| >= 2 && texCoords[..2] == [0.0, 0.0]
      && forall k :: 0 <= k < |indeces| ==> |indeces[k]| == 3
    }

    constructor ()
      ensures Valid()
      ensures minVertex == [0.0, 0.0, 0.0] && maxVertex == [0.0, 0.0, 0.0]
      ensures vertices == [0.0, 0.0, 0.0] && normals == [0.0, 0.0, 0.0]
      ensures texCoords == [0.0, 0.0]
      ensures indeces == [] && mapLocInfos == map[]
    {
      minVertex := [0.0, 0.0, 0.0];
      maxVertex := [0.0, 0.0, 0.0];
      indeces := [];
      mapLocInfos := map[];
      // the sentinel entry for index 0, pushed one float at a time
      vertices := [];
      vertices := vertices + [0.0];
      vertices := vertices + [0.0];
      vertices := vertices + [0.0];
      normals := [];
      normals := normals + [0.0];
      normals := normals + [0.0];
      normals := normals + [0.0];
      texCoords := [];
      texCoords := texCoords + [0.0];
      texCoords := texCoords + [0.0];
    }

    /** Number of whole positions, sentinel included. */
    function VertexCount(): (n: nat)
      reads this
      requires Valid()
      ensures 1 <= n && n * PositionArity == |vertices|
    {
      |vertices| / PositionArity
    }
  }

  /** In a valid container the sentinel is a whole position of its own, so
      the position a 1-based OBJ index `i` refers to starts at float `3 * i`
      and lies inside `vertices` exactly when `i < VertexCount()`. */
  lemma PositionInRange(d: ObjData, i: nat)
    requires d.Valid()
    ensures 3 * i + 3 <= |d.vertices| <==> i < d.VertexCount()
  {
  }
}
