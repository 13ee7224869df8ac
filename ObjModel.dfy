/** `ObjModel`: a renderable mesh built from the reader's `ObjData`. Its
    constructor flattens the container into the four upload arrays and
    takes over the height map; `GetMapHeight` and `GetMapNormal` answer
    "terrain height and normal at world (x, z)" from that map.

    Collaborators that are not part of this model enter as parameters:
    the asset file descriptor, the parsed container, the object's current
    scale and rotation (`Shape::getScale`, `Shape::getRotate`), the
    height-map fill (`CoordinatesUtils::insertLinearValue`), the base-class
    fallback height (`Shape::getMapHeight`) and `glm::rotate`. */
module View {
  import opened Wrappers
  import opened CNumerics
  import opened ObjHelper

  /** What a zero x or z scale is replaced with before dividing by it. */
  const ZeroScaleSubstitute: real := 1.0 / 1000000.0

  const XAxis: Vec3 := Vec3(1.0, 0.0, 0.0)
  const YAxis: Vec3 := Vec3(0.0, 1.0, 0.0)
  const ZAxis: Vec3 := Vec3(0.0, 0.0, 1.0)

  /** `glm::rotate(v, angle, axis)`, left uninterpreted. */
  type Rotator = (Vec3, real, Vec3) -> Vec3

  /** `CoordinatesUtils::insertLinearValue(field, minX, minZ, maxX, maxZ)`:
      its effect on the field, left uninterpreted. */
  type FillFn = (HeightField, int, int, int, int) -> HeightField

  /** `Shape::getMapHeight(fixedX, fixedZ)`, the answer for a missing cell. */
  type FallbackFn = (int, int) -> real

  /** The value of `getMapNormal`'s out-parameter after the call. The y scale
      is never guarded, so a zero y scale divides a stored normal by zero:
      IEEE arithmetic then yields an infinity or NaN, which `real` cannot
      hold, and the model reports only that the result is not finite. */
  datatype NormalResult = Finite(v: Vec3) | NonFinite

  /** Cell key bounds handed to the height-map fill. */
  datatype GridBounds = GridBounds(minX: int, minZ: int, maxX: int, maxZ: int)

  /** The division guard of both queries. */
  function GuardScale(s: real): (r: real)
    ensures r != 0.0
    ensures s != 0.0 ==> r == s
    ensures s == 0.0 ==> r == ZeroScaleSubstitute
  {
    if s == 0.0 then ZeroScaleSubstitute else s
  }

  /** `(int)(coord / scale * heightMapSampleFactor)` after the guard. */
  function QueryKey(coord: real, scale: real, factor: SampleFactor): (k: int)
    ensures scale == 1.0 ==> k == GridCell(coord, factor)
    ensures scale == 0.0 ==> k == GridCell(coord * 1000000.0, factor)
  {
    GridCell(coord / GuardScale(scale), factor)
  }

  /** The two-level presence check `count(kx) != 0 && [kx].count(kz) != 0`
      followed by the read of the sample; `operator[]` is reached only for
      keys that are present, so nothing is inserted. */
  function Cell(field: HeightField, kx: int, kz: int): (c: Option<MapLocInfo>)
    ensures c.Some? <==> kx in field && kz in field[kx]
    ensures c.Some? ==> c.value == field[kx][kz]
  {
    if kx in field && kz in field[kx] then Some(field[kx][kz]) else None
  }

  /** The stored normal divided componentwise by the scale: a larger stretch
      along an axis gives a smaller normal component along it. */
  function Compensate(n: Vec3, s: Vec3): (r: Vec3)
    requires s.x != 0.0 && s.y != 0.0 && s.z != 0.0
    ensures Vec3(r.x * s.x, r.y * s.y, r.z * s.z) == n
  {
    Vec3(n.x / s.x, n.y / s.y, n.z / s.z)
  }

  /** The three rotation calls, about X, then Y, then Z. */
  function RotateXYZ(rotate: Rotator, v: Vec3, angles: Vec3): (r: Vec3)
  {
    rotate(rotate(rotate(v, angles.x, XAxis), angles.y, YAxis), angles.z, ZAxis)
  }

  /** `(int)(min * factor)` and `(int)(max * factor)` for x and z. */
  function HeightMapBounds(minVertex: seq<real>, maxVertex: seq<real>, factor: SampleFactor): (b: GridBounds)
    requires |minVertex| == 3 && |maxVertex| == 3
  {
    GridBounds(GridCell(minVertex[0], factor), GridCell(minVertex[2], factor),
               GridCell(maxVertex[0], factor), GridCell(maxVertex[2], factor))
  }

  /** The index buffer: entry 0 (the position index) of every triple. */
  function FirstEntries(indeces: seq<seq<UShort>>): (r: seq<UShort>)
    requires forall k :: 0 <= k < |indeces| ==> |indeces[k]| > 0
    ensures |r| == |indeces|
  {
    if indeces == [] then [] else [indeces[0][0]] + FirstEntries(indeces[1..])
  }

  lemma {:induction false} FirstEntriesAt(indeces: seq<seq<UShort>>, k: nat)
    requires forall j :: 0 <= j < |indeces| ==> |indeces[j]| > 0
    requires k < |indeces|
    ensures FirstEntries(indeces)[k] == indeces[k][0]
  {
    if k != 0 {
      FirstEntriesAt(indeces[1..], k - 1);
    }
  }

  /** A `for (GLfloat value : src) *tmp++ = value;` loop into a fresh
      buffer of `src.size()` floats. */
  method CopyFloats(src: seq<real>) returns (buf: array<real>)
    ensures buf.Length == |src|
    ensures buf[..] == src
  {
    buf := new real[|src|];
    var i := 0;
    while i < |src|
      invariant 0 <= i <= |src|
      invariant buf[..i] == src[..i]
    {
      buf[i] := src[i];
      i := i + 1;
    }
  }

  /** The index loop: `*tmpIndeces++ = value.at(0)` for every triple. */
  method CopyIndices(indeces: seq<seq<UShort>>) returns (buf: array<UShort>)
    requires forall k :: 0 <= k < |indeces| ==> |indeces[k]| > 0
    ensures buf.Length == |indeces|
    ensures buf[..] == FirstEntries(indeces)
  {
    buf := new UShort[|indeces|];
    var i := 0;
    while i < |indeces|
      invariant 0 <= i <= |indeces|
      invariant forall k :: 0 <= k < i ==> buf[k] == indeces[k][0]
    {
      buf[i] := indeces[i][0];
      i := i + 1;
    }
    forall k | 0 <= k < |indeces|
      ensures buf[..][k] == FirstEntries(indeces)[k]
    {
      FirstEntriesAt(indeces, k);
    }
  }

  class ObjModel {
    /** `ObjHelper::heightMapSampleFactor`. */
    const sampleFactor: SampleFactor
    /** What was handed to `glBufferData` for buffers[0..3]; empty when the
        constructor returned before uploading. */
    var vertexBuffer: seq<real>
    var indexBuffer: seq<UShort>
    var texCoordBuffer: seq<real>
    var normalBuffer: seq<real>
    /** `GLuint indexCount`, assigned from a `size_t`. */
    var indexCount: UInt32
    var mapLocInfos: HeightField

    /** `fd` is the descriptor the asset opened to; `parsed` is the
        container as `readObjFile` leaves it. */
    constructor (fd: int, parsed: ObjData, needGenHeightMap: bool, factor: SampleFactor, fill: FillFn)
      requires parsed.Valid()
      ensures sampleFactor == factor
      ensures fd <= 0 ==>
        && vertexBuffer == [] && indexBuffer == [] && texCoordBuffer == [] && normalBuffer == []
        && indexCount == 0 && mapLocInfos == map[]
      ensures 0 < fd ==>
        && vertexBuffer == parsed.vertices
        && indexBuffer == FirstEntries(parsed.indeces)
        && texCoordBuffer == parsed.texCoords
        && normalBuffer == parsed.normals
        && indexCount == |parsed.indeces| % TwoTo32
        && mapLocInfos == if needGenHeightMap
                          then var b := HeightMapBounds(parsed.minVertex, parsed.maxVertex, factor);
                               fill(parsed.mapLocInfos, b.minX, b.minZ, b.maxX, b.maxZ)
                          else parsed.mapLocInfos
    {
      sampleFactor := factor;
      vertexBuffer, indexBuffer, texCoordBuffer, normalBuffer := [], [], [], [];
      indexCount := 0;
      mapLocInfos := map[];
      // `fd <= 0`: the constructor returns before reading or uploading
      if 0 < fd {
        var vertices := CopyFloats(parsed.vertices);
        vertexBuffer := vertices[..];
        indexCount := |parsed.indeces| % TwoTo32;
        var indeces := CopyIndices(parsed.indeces);
        indexBuffer := indeces[..];
        var texCoords := CopyFloats(parsed.texCoords);
        texCoordBuffer := texCoords[..];
        var normals := CopyFloats(parsed.normals);
        normalBuffer := normals[..];
        // `mapLocInfos = std::move(pObjData->mapLocInfos)`, then the fill
        // (when requested) updates the moved map
        var field := parsed.mapLocInfos;
        if needGenHeightMap {
          var b := HeightMapBounds(parsed.minVertex, parsed.maxVertex, factor);
          field := fill(field, b.minX, b.minZ, b.maxX, b.maxZ);
        }
        mapLocInfos := field;
      }
    }

    /** `getMapHeight(x, z)` under the scale `getScale` reports. */
    function GetMapHeight(x: real, z: real, scale: Vec3, fallback: FallbackFn): (height: real)
      reads this
    {
      var kx := QueryKey(x, scale.x, sampleFactor);
      var kz := QueryKey(z, scale.z, sampleFactor);
      match Cell(mapLocInfos, kx, kz)
      case Some(info) => info.height * scale.y
      case None => fallback(kx, kz)
    }

    /** `getMapNormal(x, z, outVec3)` under the scale and rotation angles
        `getScale` and `getRotate` report: the new value of `outVec3`,
        whose old value is `outVec3`. */
    function GetMapNormal(x: real, z: real, scale: Vec3, angles: Vec3, rotate: Rotator, outVec3: Vec3): (r: NormalResult)
      reads this
    {
      var sx, sz := GuardScale(scale.x), GuardScale(scale.z);
      var kx := QueryKey(x, scale.x, sampleFactor);
      var kz := QueryKey(z, scale.z, sampleFactor);
      match Cell(mapLocInfos, kx, kz)
      case None => Finite(outVec3)
      case Some(info) =>
        if scale.y == 0.0 then NonFinite
        else Finite(RotateXYZ(rotate, Compensate(info.normal, Vec3(sx, scale.y, sz)), angles))
    }
  }

  // ---------------------------------------------------------------------
  // Properties of the queries

  /** A zero x or z scale behaves exactly as a scale of 1/1000000, in both
      queries. */
  lemma ZeroScaleIsSubstituted(m: ObjModel, x: real, z: real, scale: Vec3, angles: Vec3,
                               rotate: Rotator, fallback: FallbackFn, outVec3: Vec3)
    requires scale.x == 0.0 || scale.z == 0.0
    ensures var guarded := Vec3(GuardScale(scale.x), scale.y, GuardScale(scale.z));
      && m.GetMapHeight(x, z, scale, fallback) == m.GetMapHeight(x, z, guarded, fallback)
      && m.GetMapNormal(x, z, scale, angles, rotate, outVec3) == m.GetMapNormal(x, z, guarded, angles, rotate, outVec3)
  {
  }

  /** The cell key truncates toward zero: every coordinate whose scaled
      value lies strictly between -1 and 1, of either sign, falls in cell 0. */
  lemma SmallCoordinatesShareCellZero(coord: real, scale: real, factor: SampleFactor)
    requires -1.0 < coord / GuardScale(scale) * factor as real < 1.0
    ensures QueryKey(coord, scale, factor) == 0
  {
    TruncNearZero(coord / GuardScale(scale) * factor as real);
  }

  /** The 1/1000000 substitute multiplies the coordinate by a million
      before the cast, so with a zero x scale a point 300 units out along x
      has a key beyond the range of C's `int`, where the `(int)` conversion
      is undefined. */
  lemma ZeroScaleKeyLeavesIntRange()
    ensures QueryKey(300.0, 0.0, 10) == 3000000000 > Int32Max
  {
    assert 300.0 * 1000000.0 * (10 as real) == 3000000000.0;
  }

  /** A present cell answers with its stored height times the y scale; an
      absent one with the base-class fallback at the cell's keys. */
  lemma HeightLookup(m: ObjModel, x: real, z: real, scale: Vec3, fallback: FallbackFn)
    ensures var kx, kz := QueryKey(x, scale.x, m.sampleFactor), QueryKey(z, scale.z, m.sampleFactor);
      && (kx in m.mapLocInfos && kz in m.mapLocInfos[kx] ==>
            m.GetMapHeight(x, z, scale, fallback) == m.mapLocInfos[kx][kz].height * scale.y)
      && (!(kx in m.mapLocInfos && kz in m.mapLocInfos[kx]) ==>
            m.GetMapHeight(x, z, scale, fallback) == fallback(kx, kz))
  {
  }

  /** With the base class's "always 0" fallback, a query outside the map
      answers 0. */
  lemma HeightOutsideMapIsZero(m: ObjModel, x: real, z: real, scale: Vec3, fallback: FallbackFn)
    requires forall i, j :: fallback(i, j) == 0.0
    requires QueryKey(x, scale.x, m.sampleFactor) !in m.mapLocInfos
    ensures m.GetMapHeight(x, z, scale, fallback) == 0.0
  {
  }

  /** Under the identity scale the query reads the sample at cell
      `((int)(x * factor), (int)(z * factor))` unchanged. */
  lemma HeightUnderIdentityScale(m: ObjModel, x: real, z: real, fallback: FallbackFn)
    requires var kx := GridCell(x, m.sampleFactor);
      kx in m.mapLocInfos && GridCell(z, m.sampleFactor) in m.mapLocInfos[kx]
    ensures m.GetMapHeight(x, z, Vec3(1.0, 1.0, 1.0), fallback)
         == m.mapLocInfos[GridCell(x, m.sampleFactor)][GridCell(z, m.sampleFactor)].height
  {
  }

  /** Stretching the object horizontally by nonzero factors and querying at
      the correspondingly stretched position gives the unstretched answer:
      the lookup happens at world-x / sx and world-z / sz. */
  lemma HeightFollowsHorizontalScale(m: ObjModel, x: real, z: real, sx: real, sy: real, sz: real,
                                     fallback: FallbackFn)
    requires sx != 0.0 && sz != 0.0
    ensures m.GetMapHeight(x * sx, z * sz, Vec3(sx, sy, sz), fallback)
         == m.GetMapHeight(x, z, Vec3(1.0, sy, 1.0), fallback)
  {
    StretchedKey(x, sx, m.sampleFactor);
    StretchedKey(z, sz, m.sampleFactor);
  }

  lemma StretchedKey(coord: real, s: real, factor: SampleFactor)
    requires s != 0.0
    ensures QueryKey(coord * s, s, factor) == QueryKey(coord, 1.0, factor)
  {
    assert coord * s / GuardScale(s) == coord / GuardScale(1.0);
  }

  /** When the cell is absent the out-parameter keeps its old value. */
  lemma NormalAbsentLeavesOutputUnchanged(m: ObjModel, x: real, z: real, scale: Vec3, angles: Vec3,
                                          rotate: Rotator, outVec3: Vec3)
    requires Cell(m.mapLocInfos, QueryKey(x, scale.x, m.sampleFactor), QueryKey(z, scale.z, m.sampleFactor)).None?
    ensures m.GetMapNormal(x, z, scale, angles, rotate, outVec3) == Finite(outVec3)
  {
  }

  /** When the cell is present the result does not depend on the old value of
      the out-parameter; it is finite exactly when the y scale is nonzero,
      and then it is some vector `p` rotated about X, then Y, then Z, where
      `p` scaled back componentwise by the (guarded) scale is the stored
      normal. */
  lemma NormalPresent(m: ObjModel, x: real, z: real, scale: Vec3, angles: Vec3, rotate: Rotator,
                      outVec3: Vec3, other: Vec3)
    requires Cell(m.mapLocInfos, QueryKey(x, scale.x, m.sampleFactor), QueryKey(z, scale.z, m.sampleFactor)).Some?
    ensures var r := m.GetMapNormal(x, z, scale, angles, rotate, outVec3);
      && r == m.GetMapNormal(x, z, scale, angles, rotate, other)
      && (r.Finite? <==> scale.y != 0.0)
      && (r.Finite? ==>
            var n := m.mapLocInfos[QueryKey(x, scale.x, m.sampleFactor)][QueryKey(z, scale.z, m.sampleFactor)].normal;
            exists p: Vec3 {:trigger RotateXYZ(rotate, p, angles)} ::
              && Vec3(p.x * GuardScale(scale.x), p.y * scale.y, p.z * GuardScale(scale.z)) == n
              && r.v == rotate(rotate(rotate(p, angles.x, XAxis), angles.y, YAxis), angles.z, ZAxis))
  {
  }

  /** Under the identity scale, with angles that `rotate` maps to the
      identity, a present cell yields its stored normal unchanged. */
  lemma NormalUnderIdentityTransform(m: ObjModel, x: real, z: real, angles: Vec3, rotate: Rotator, outVec3: Vec3)
    requires forall v: Vec3, axis: Vec3 :: rotate(v, angles.x, axis) == v
    requires forall v: Vec3, axis: Vec3 :: rotate(v, angles.y, axis) == v
    requires forall v: Vec3, axis: Vec3 :: rotate(v, angles.z, axis) == v
    requires var kx := GridCell(x, m.sampleFactor);
      kx in m.mapLocInfos && GridCell(z, m.sampleFactor) in m.mapLocInfos[kx]
    ensures m.GetMapNormal(x, z, Vec3(1.0, 1.0, 1.0), angles, rotate, outVec3)
         == Finite(m.mapLocInfos[GridCell(x, m.sampleFactor)][GridCell(z, m.sampleFactor)].normal)
  {
  }

  // ---------------------------------------------------------------------
  // Properties of the constructor's bounds

  /** Every vertex inside the bounding box has its x and z sample cells
      inside the rectangle handed to the height-map fill. */
  lemma BoundsCoverBox(minVertex: seq<real>, maxVertex: seq<real>, factor: SampleFactor, x: real, z: real)
    requires |minVertex| == 3 && |maxVertex| == 3
    requires minVertex[0] <= x <= maxVertex[0] && minVertex[2] <= z <= maxVertex[2]
    ensures var b := HeightMapBounds(minVertex, maxVertex, factor);
      && b.minX <= GridCell(x, factor) <= b.maxX
      && b.minZ <= GridCell(z, factor) <= b.maxZ
  {
    GridCellMonotone(minVertex[0], x, factor);
    GridCellMonotone(x, maxVertex[0], factor);
    GridCellMonotone(minVertex[2], z, factor);
    GridCellMonotone(z, maxVertex[2], factor);
  }

  /** A freshly constructed container (bounding box at the origin) asks the
      fill for the single cell (0, 0). */
  lemma FreshBoundsAreOrigin(factor: SampleFactor)
    ensures HeightMapBounds([0.0, 0.0, 0.0], [0.0, 0.0, 0.0], factor) == GridBounds(0, 0, 0, 0)
  {
  }
}
