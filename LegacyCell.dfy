/**
 * The cell of the older iteration (the top-level `GridCell`). Its tables and
 * its operations are those of the `Voxel` cell; the lemmas here say so.
 * In this iteration a cell's densities are written only while the cell is
 * being built, so the cell is a value.
 */
module LegacyCell {
  import opened Geometry
  import VoxelCell

  const vertices: seq<Vec3> := [
    Vec3(0.0, 0.0, 0.0),
    Vec3(1.0, 0.0, 0.0),
    Vec3(1.0, 1.0, 0.0),
    Vec3(0.0, 1.0, 0.0),
    Vec3(0.0, 0.0, 1.0),
    Vec3(1.0, 0.0, 1.0),
    Vec3(1.0, 1.0, 1.0),
    Vec3(0.0, 1.0, 1.0)
  ]

  const edges: seq<Edge> := [
    Edge(vertices[0], vertices[1]),
    Edge(vertices[1], vertices[2]),
    Edge(vertices[2], vertices[3]),
    Edge(vertices[3], vertices[0]),
    Edge(vertices[4], vertices[5]),
    Edge(vertices[6], vertices[5]),
    Edge(vertices[7], vertices[6]),
    Edge(vertices[7], vertices[4]),
    Edge(vertices[0], vertices[4]),
    Edge(vertices[1], vertices[5]),
    Edge(vertices[6], vertices[2]),
    Edge(vertices[3], vertices[7])
  ]

  /** Both tables agree element by element with the newer copy */
  lemma TablesMatchVoxel()
    ensures |vertices| == |VoxelCell.Vertices| == 8
    ensures forall i :: 0 <= i < 8 ==> vertices[i] == VoxelCell.Vertices[i]
    ensures |edges| == |VoxelCell.Edges| == 12
    ensures forall k :: 0 <= k < 12 ==> edges[k] == VoxelCell.Edges[k]
  {
  }

  /** Every edge has unit length along one axis, and its midpoint is its centre */
  lemma EdgesAreUnitSegments()
    ensures forall k :: 0 <= k < |edges| ==> VoxelCell.UnitAxisSegment(edges[k].A, edges[k].B)
    ensures forall k :: 0 <= k < |edges| ==>
      VoxelCell.IsEdgeCentre(edges[k].Midpoint()) &&
      edges[k].Midpoint().Minus(edges[k].A) == edges[k].B.Minus(edges[k].Midpoint())
  {
    TablesMatchVoxel();
    VoxelCell.EdgesAreUnitAxisSegments();
    VoxelCell.MidpointsAreEdgeCentres();
    forall k | 0 <= k < |edges| {
      MidpointEquidistant(edges[k]);
    }
  }

  datatype GridCell = GridCell(Position: IVec3, Scale: real, Values: seq<real>)

  /**
   * `ScaledPosition`, which `Grid.cs` uses but neither cell class defines:
   * the cell's lattice position times its scale.
   */
  function ScaledPosition(cell: GridCell): (p: Vec3)
    ensures p == VoxelCell.ValuePos(cell.Position, cell.Scale, 0)
  {
    cell.Position.ToVec().Times(cell.Scale)
  }

  function GetValuePos(cell: GridCell, index: nat): (p: Vec3)
    requires index < 8
    ensures p == vertices[index].Plus(cell.Position.ToVec()).Times(cell.Scale)
    ensures p == VoxelCell.ValuePos(cell.Position, cell.Scale, index)
  {
    TablesMatchVoxel();
    vertices[index].Times(cell.Scale).Plus(cell.Position.ToVec().Times(cell.Scale))
  }

  method GetCubeIndex(cell: GridCell, surfaceLevel: real) returns (cubeIndex: int)
    requires |cell.Values| == 8
    ensures 0 <= cubeIndex < 256
    ensures cubeIndex == VoxelCell.CubeIndexOf(cell.Values, surfaceLevel) as int
    ensures forall i :: 0 <= i < 8 ==> (VoxelCell.HasBit(cubeIndex as bv8, i) <==> cell.Values[i] < surfaceLevel)
  {
    var bits: bv8 := 0;
    for i := 0 to 8
      invariant bits == VoxelCell.CubeIndexUpTo(cell.Values, surfaceLevel, i)
    {
      if cell.Values[i] < surfaceLevel {
        bits := bits | VoxelCell.CornerMask(i);
      }
    }
    cubeIndex := bits as int;
    VoxelCell.CubeIndexBits(cell.Values, surfaceLevel);
  }
}
