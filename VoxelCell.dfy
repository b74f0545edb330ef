/**
 * One marching-cubes cell of the newer (`Voxel`) iteration: the unit-cube
 * corner and edge tables, the 8-bit cube configuration, the emptiness test
 * and the world position of a corner.
 */
module VoxelCell {
  import opened Geometry

  /** The corner-numbering convention: corner i of the unit cube */
  const Vertices: seq<Vec3> := [
    Vec3(0.0, 0.0, 0.0),
    Vec3(1.0, 0.0, 0.0),
    Vec3(1.0, 1.0, 0.0),
    Vec3(0.0, 1.0, 0.0),
    Vec3(0.0, 0.0, 1.0),
    Vec3(1.0, 0.0, 1.0),
    Vec3(1.0, 1.0, 1.0),
    Vec3(0.0, 1.0, 1.0)
  ]

  /** The corner pair of each of the 12 edges, in the order of the edge table */
  const EdgeCorners: seq<(nat, nat)> := [
    (0, 1), (1, 2), (2, 3), (3, 0),
    (4, 5), (6, 5), (7, 6), (7, 4),
    (0, 4), (1, 5), (6, 2), (3, 7)
  ]

  const Edges: seq<Edge> := [
    Edge(Vertices[0], Vertices[1]),
    Edge(Vertices[1], Vertices[2]),
    Edge(Vertices[2], Vertices[3]),
    Edge(Vertices[3], Vertices[0]),
    Edge(Vertices[4], Vertices[5]),
    Edge(Vertices[6], Vertices[5]),
    Edge(Vertices[7], Vertices[6]),
    Edge(Vertices[7], Vertices[4]),
    Edge(Vertices[0], Vertices[4]),
    Edge(Vertices[1], Vertices[5]),
    Edge(Vertices[6], Vertices[2]),
    Edge(Vertices[3], Vertices[7])
  ]

  // ---------------------------------------------------------------------
  // Cube tables

  /** a and b differ in exactly one coordinate, and there by exactly 1 */
  predicate UnitAxisSegment(a: Vec3, b: Vec3)
  {
    || (a.y == b.y && a.z == b.z && (b.x - a.x == 1.0 || a.x - b.x == 1.0))
    || (a.x == b.x && a.z == b.z && (b.y - a.y == 1.0 || a.y - b.y == 1.0))
    || (a.x == b.x && a.y == b.y && (b.z - a.z == 1.0 || a.z - b.z == 1.0))
  }

  predicate IsBinary(v: real) { v == 0.0 || v == 1.0 }

  /** Exactly one coordinate is 1/2 and the other two are 0 or 1 */
  predicate IsEdgeCentre(m: Vec3)
  {
    || (m.x == 0.5 && IsBinary(m.y) && IsBinary(m.z))
    || (m.y == 0.5 && IsBinary(m.x) && IsBinary(m.z))
    || (m.z == 0.5 && IsBinary(m.x) && IsBinary(m.y))
  }

  /** The edge table is the corner-pair table applied to the corner table */
  lemma EdgesJoinTheirCorners()
    ensures |Edges| == |EdgeCorners| == 12
    ensures forall k :: 0 <= k < 12 ==>
      EdgeCorners[k].0 < 8 && EdgeCorners[k].1 < 8 &&
      Edges[k] == Edge(Vertices[EdgeCorners[k].0], Vertices[EdgeCorners[k].1])
  {
  }

  /** Every edge joins two corners that differ in exactly one coordinate */
  lemma EdgesAreUnitAxisSegments()
    ensures forall k :: 0 <= k < |Edges| ==> UnitAxisSegment(Edges[k].A, Edges[k].B)
  {
  }

  /** Every edge midpoint sits at the centre of a cube edge */
  lemma MidpointsAreEdgeCentres()
    ensures forall k :: 0 <= k < |Edges| ==> IsEdgeCentre(Edges[k].Midpoint())
  {
    assert Edges[0].Midpoint() == Vec3(0.5, 0.0, 0.0);
    assert Edges[1].Midpoint() == Vec3(1.0, 0.5, 0.0);
    assert Edges[2].Midpoint() == Vec3(0.5, 1.0, 0.0);
    assert Edges[3].Midpoint() == Vec3(0.0, 0.5, 0.0);
    assert Edges[4].Midpoint() == Vec3(0.5, 0.0, 1.0);
    assert Edges[5].Midpoint() == Vec3(1.0, 0.5, 1.0);
    assert Edges[6].Midpoint() == Vec3(0.5, 1.0, 1.0);
    assert Edges[7].Midpoint() == Vec3(0.0, 0.5, 1.0);
    assert Edges[8].Midpoint() == Vec3(0.0, 0.0, 0.5);
    assert Edges[9].Midpoint() == Vec3(1.0, 0.0, 0.5);
    assert Edges[10].Midpoint() == Vec3(1.0, 1.0, 0.5);
    assert Edges[11].Midpoint() == Vec3(0.0, 1.0, 0.5);
  }

  predicate IsEndpoint(c: nat, k: nat)
    requires k < |EdgeCorners|
  {
    EdgeCorners[k].0 == c || EdgeCorners[k].1 == c
  }

  /** The three edges that meet at each corner */
  const CornerEdges: seq<seq<nat>> := [
    [0, 3, 8], [0, 1, 9], [1, 2, 10], [2, 3, 11],
    [4, 7, 8], [4, 5, 9], [5, 6, 10], [6, 7, 11]
  ]

  /**
   * Each corner is an endpoint of exactly three edges (the three distinct
   * edges listed for it), and no edge has the same corner at both ends.
   */
  lemma EveryCornerHasThreeEdges()
    ensures forall c, k :: 0 <= c < 8 && 0 <= k < 12 ==> (IsEndpoint(c, k) <==> k in CornerEdges[c])
    ensures forall c :: 0 <= c < 8 ==>
      |CornerEdges[c]| == 3 && CornerEdges[c][0] < CornerEdges[c][1] < CornerEdges[c][2]
    ensures forall k :: 0 <= k < 12 ==> EdgeCorners[k].0 != EdgeCorners[k].1
  {
    forall c, k | 0 <= c < 8 && 0 <= k < 12
      ensures IsEndpoint(c, k) <==> k in CornerEdges[c]
    {
      EndpointsOfEdge(k);
    }
  }

  lemma EndpointsOfEdge(k: nat)
    requires k < 12
    ensures forall c :: 0 <= c < 8 ==> (IsEndpoint(c, k) <==> k in CornerEdges[c])
  {
  }

  // ---------------------------------------------------------------------
  // Cube configuration index

  /** `1 << i`, the bit of corner i */
  function CornerMask(i: nat): bv8
    requires i < 8
  {
    [1, 2, 4, 8, 16, 32, 64, 128][i]
  }

  /** The configuration accumulated over corners 0 .. n-1 */
  function CubeIndexUpTo(values: seq<real>, surfaceLevel: real, n: nat): bv8
    requires n <= 8 && n <= |values|
  {
    if n == 0 then 0
    else if values[n - 1] < surfaceLevel then CubeIndexUpTo(values, surfaceLevel, n - 1) | CornerMask(n - 1)
    else CubeIndexUpTo(values, surfaceLevel, n - 1)
  }

  /** The 8-bit cube configuration of eight corner densities */
  function CubeIndexOf(values: seq<real>, surfaceLevel: real): bv8
    requires |values| == 8
  {
    CubeIndexUpTo(values, surfaceLevel, 8)
  }

  predicate HasBit(r: bv8, i: nat)
    requires i < 8
  {
    r & CornerMask(i) != 0
  }

  lemma MaskValue(i: nat)
    requires i < 8
    ensures CornerMask(i) ==
      if i == 0 then 1 else if i == 1 then 2 else if i == 2 then 4 else if i == 3 then 8
      else if i == 4 then 16 else if i == 5 then 32 else if i == 6 then 64 else 128
  {
  }

  /** Or-ing in the mask of corner n sets bit n and no other */
  lemma MaskBits(r: bv8, n: nat, i: nat)
    requires n < 8 && i < 8
    ensures HasBit(r | CornerMask(n), i) <==> HasBit(r, i) || i == n
  {
    MaskValue(n);
    MaskValue(i);
  }

  lemma {:induction false} CubeIndexUpToBits(values: seq<real>, surfaceLevel: real, n: nat, i: nat)
    requires n <= 8 && n <= |values| && i < 8
    ensures HasBit(CubeIndexUpTo(values, surfaceLevel, n), i) <==> i < n && values[i] < surfaceLevel
  {
    if n == 0 {
      assert HasBit(0, i) == false by { MaskBits(0, 0, i); }
    } else {
      CubeIndexUpToBits(values, surfaceLevel, n - 1, i);
      if values[n - 1] < surfaceLevel {
        MaskBits(CubeIndexUpTo(values, surfaceLevel, n - 1), n - 1, i);
      }
    }
  }

  /** Bit i of the configuration is set exactly when corner i is strictly below the surface */
  lemma CubeIndexBits(values: seq<real>, surfaceLevel: real)
    requires |values| == 8
    ensures forall i :: 0 <= i < 8 ==> (HasBit(CubeIndexOf(values, surfaceLevel), i) <==> values[i] < surfaceLevel)
  {
    forall i | 0 <= i < 8
      ensures HasBit(CubeIndexOf(values, surfaceLevel), i) <==> values[i] < surfaceLevel
    {
      CubeIndexUpToBits(values, surfaceLevel, 8, i);
    }
  }

  /** Two bytes with the same eight bits are equal */
  lemma SameBitsSameByte(r: bv8, s: bv8)
    requires forall i :: 0 <= i < 8 ==> (HasBit(r, i) <==> HasBit(s, i))
    ensures r == s
  {
    assert HasBit(r, 0) == HasBit(s, 0) && HasBit(r, 1) == HasBit(s, 1);
    assert HasBit(r, 2) == HasBit(s, 2) && HasBit(r, 3) == HasBit(s, 3);
    assert HasBit(r, 4) == HasBit(s, 4) && HasBit(r, 5) == HasBit(s, 5);
    assert HasBit(r, 6) == HasBit(s, 6) && HasBit(r, 7) == HasBit(s, 7);
  }

  /**
   * Raising one corner from below the surface to at or above it clears exactly
   * that corner's bit and leaves the other seven as they were.
   */
  lemma RaisingOneCornerClearsItsBit(values: seq<real>, surfaceLevel: real, i: nat, v: real)
    requires |values| == 8 && i < 8
    requires values[i] < surfaceLevel <= v
    ensures HasBit(CubeIndexOf(values, surfaceLevel), i)
    ensures !HasBit(CubeIndexOf(values[i := v], surfaceLevel), i)
    ensures forall j :: 0 <= j < 8 && j != i ==>
      (HasBit(CubeIndexOf(values[i := v], surfaceLevel), j) <==> HasBit(CubeIndexOf(values, surfaceLevel), j))
    ensures CubeIndexOf(values[i := v], surfaceLevel) == CubeIndexOf(values, surfaceLevel) & !CornerMask(i)
  {
    var before, after := CubeIndexOf(values, surfaceLevel), CubeIndexOf(values[i := v], surfaceLevel);
    CubeIndexBits(values, surfaceLevel);
    CubeIndexBits(values[i := v], surfaceLevel);
    forall j | 0 <= j < 8
      ensures HasBit(after, j) <==> HasBit(before & !CornerMask(i), j)
    {
      ClearMaskBits(before, i, j);
    }
    SameBitsSameByte(after, before & !CornerMask(i));
  }

  /** And-ing out the mask of corner n clears bit n and no other */
  lemma ClearMaskBits(r: bv8, n: nat, i: nat)
    requires n < 8 && i < 8
    ensures HasBit(r & !CornerMask(n), i) <==> HasBit(r, i) && i != n
  {
    MaskValue(n);
    MaskValue(i);
  }

  /** No corner below the surface gives configuration 0; all corners below give 255 */
  lemma UniformCubeIndex(values: seq<real>, surfaceLevel: real)
    requires |values| == 8
    ensures (forall i :: 0 <= i < 8 ==> values[i] >= surfaceLevel) ==> CubeIndexOf(values, surfaceLevel) == 0
    ensures (forall i :: 0 <= i < 8 ==> values[i] < surfaceLevel) ==> CubeIndexOf(values, surfaceLevel) == 255
  {
    CubeIndexBits(values, surfaceLevel);
    if forall i :: 0 <= i < 8 ==> values[i] >= surfaceLevel {
      forall i | 0 <= i < 8 ensures !HasBit(0, i) { MaskBits(0, 0, i); }
      SameBitsSameByte(CubeIndexOf(values, surfaceLevel), 0);
    }
    if forall i :: 0 <= i < 8 ==> values[i] < surfaceLevel {
      forall i | 0 <= i < 8 ensures HasBit(255, i) { MaskBits(255, 0, i); }
      SameBitsSameByte(CubeIndexOf(values, surfaceLevel), 255);
    }
  }

  // ---------------------------------------------------------------------
  // Corner positions

  /**
   * The position of corner `index` of the cell at lattice `position` with
   * `scale` world units per cell: `Vertices[index] * scale + position * scale`.
   */
  function ValuePos(position: IVec3, scale: real, index: nat): (p: Vec3)
    requires index < 8
    ensures p == Vertices[index].Plus(position.ToVec()).Times(scale)
  {
    Vertices[index].Times(scale).Plus(position.ToVec().Times(scale))
  }

  /**
   * Corners that two cells of the same scale share have the same position;
   * in particular corner 1 of the cell at p is corner 0 of the cell at p + (1, 0, 0).
   */
  lemma SharedCornersCoincide(p: IVec3, q: IVec3, scale: real, i: nat, j: nat)
    requires i < 8 && j < 8
    requires Vertices[i].Plus(p.ToVec()) == Vertices[j].Plus(q.ToVec())
    ensures ValuePos(p, scale, i) == ValuePos(q, scale, j)
  {
  }

  lemma NeighbourAlongXSharesCorners(p: IVec3, scale: real)
    ensures ValuePos(p, scale, 1) == ValuePos(p.Plus(IVec3(1, 0, 0)), scale, 0)
    ensures ValuePos(p, scale, 2) == ValuePos(p.Plus(IVec3(1, 0, 0)), scale, 3)
    ensures ValuePos(p, scale, 5) == ValuePos(p.Plus(IVec3(1, 0, 0)), scale, 4)
    ensures ValuePos(p, scale, 6) == ValuePos(p.Plus(IVec3(1, 0, 0)), scale, 7)
  {
  }

  // ---------------------------------------------------------------------
  // The cell

  class GridCell {
    var Position: IVec3
    var Scale: real
    const Values: array<real>

    constructor ()
      ensures Position == IVec3(0, 0, 0) && Scale == 0.0
      ensures fresh(Values) && Values.Length == 8
      ensures forall i :: 0 <= i < 8 ==> Values[i] == 0.0
    {
      Position := IVec3(0, 0, 0);
      Scale := 0.0;
      Values := new real[8](_ => 0.0);
    }

    /** True iff no corner density is below 1.0, whatever the surface level */
    method IsEmpty() returns (isEmpty: bool)
      requires Values.Length == 8
      ensures isEmpty <==> forall i :: 0 <= i < 8 ==> Values[i] >= 1.0
    {
      isEmpty := true;
      for i := 0 to 8
        invariant isEmpty <==> forall j :: 0 <= j < i ==> Values[j] >= 1.0
      {
        if Values[i] < 1.0 {
          isEmpty := false;
        }
      }
    }

    method GetCubeIndex(surfaceLevel: real) returns (cubeIndex: int)
      requires Values.Length == 8
      ensures cubeIndex == CubeIndexOf(Values[..], surfaceLevel) as int
      ensures 0 <= cubeIndex < 256
      ensures forall i :: 0 <= i < 8 ==> (HasBit(cubeIndex as bv8, i) <==> Values[i] < surfaceLevel)
    {
      var bits: bv8 := 0;
      for i := 0 to 8
        invariant bits == CubeIndexUpTo(Values[..], surfaceLevel, i)
      {
        if Values[i] < surfaceLevel {
          bits := bits | CornerMask(i);
        }
      }
      cubeIndex := bits as int;
      CubeIndexBits(Values[..], surfaceLevel);
    }

    function GetValuePos(index: nat): (p: Vec3)
      reads this
      requires index < 8
      ensures p == Vertices[index].Plus(Position.ToVec()).Times(Scale)
    {
      ValuePos(Position, Scale, index)
    }
  }
}
