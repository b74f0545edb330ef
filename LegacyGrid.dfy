/**
 * The chunk of the older iteration (`Grid.cs`): it samples a noise field at
 * the corners of a CellCount^3 lattice of cells and polygonizes it with the
 * marching-cubes table, one cell at a time, emitting every triangle twice
 * (forward, then reversed) so that the surface is double-sided.
 *
 * The triangulation table and the noise generator are not part of this
 * model: both are parameters.
 */
module LegacyGrid {
  import opened Geometry
  import opened LegacyCell
  import VoxelCell
  import opened Sequences

  /** The seed the older chunk always passes to its noise generator */
  const NoiseSeed: int := 257746

  /** `new FastNoise(seed).GetPerlin(x, y, z)` */
  type Noise = (int, real, real, real) -> real

  /** 256 entries of edge indices, -1 being the sentinel; the canonical table is not reproduced */
  predicate ValidTable(table: seq<seq<int>>)
  {
    |table| == 256 && forall c, k :: 0 <= c < 256 && 0 <= k < |table[c]| ==> -1 <= table[c][k] < 12
  }

  predicate ValidEntry(es: seq<int>)
  {
    forall k :: 0 <= k < |es| ==> -1 <= es[k] < 12
  }

  // ---------------------------------------------------------------------
  // Field sampling

  /** The density stored for a corner at world position p: noise remapped from [-1, 1] to [0, 1] */
  function SampledValue(noise: Noise, p: Vec3): real
  {
    (noise(NoiseSeed, p.x, p.y, p.z) + 1.0) / 2.0
  }

  lemma SampledValueInUnitRange(noise: Noise, p: Vec3)
    requires -1.0 <= noise(NoiseSeed, p.x, p.y, p.z) <= 1.0
    ensures 0.0 <= SampledValue(noise, p) <= 1.0
  {
  }

  /** The cell that generation stores at lattice index (x, y, z) */
  function SampledCell(gridPosition: Vec3, gridScale: real, cellCount: nat, x: int, y: int, z: int, noise: Noise): GridCell
    requires cellCount > 0
  {
    var shape := GridCell(IVec3(x, y, z), gridScale / cellCount as real, []);
    shape.(Values := seq(8, i requires 0 <= i < 8 => SampledValue(noise, gridPosition.Plus(GetValuePos(shape, i)))))
  }

  /**
   * The sampled cell has lattice position (x, y, z), scale gridScale / cellCount
   * and eight densities in [0, 1] whenever the noise stays in [-1, 1].
   */
  lemma SampledCellShape(gridPosition: Vec3, gridScale: real, cellCount: nat, x: int, y: int, z: int, noise: Noise)
    requires cellCount > 0
    requires forall a: real, b: real, c: real :: -1.0 <= noise(NoiseSeed, a, b, c) <= 1.0
    ensures var cell := SampledCell(gridPosition, gridScale, cellCount, x, y, z, noise);
      && cell.Position == IVec3(x, y, z)
      && cell.Scale * cellCount as real == gridScale
      && |cell.Values| == 8
      && forall i :: 0 <= i < 8 ==> 0.0 <= cell.Values[i] <= 1.0
  {
    var cell := SampledCell(gridPosition, gridScale, cellCount, x, y, z, noise);
    forall i | 0 <= i < 8 ensures 0.0 <= cell.Values[i] <= 1.0 {
      var p := gridPosition.Plus(GetValuePos(cell.(Values := []), i));
      SampledValueInUnitRange(noise, p);
    }
  }

  // ---------------------------------------------------------------------
  // Polygonization

  /** The vertex emitted for edge e of a cell: the edge midpoint, scaled and moved to the cell */
  function EdgeVertex(cell: GridCell, e: int): Vec3
    requires 0 <= e < 12
  {
    edges[e].Midpoint().Times(cell.Scale).Plus(ScaledPosition(cell))
  }

  /** What edge index e contributes: nothing for the sentinel, else its vertex */
  function EdgeOutput(cell: GridCell, e: int): seq<Vec3>
    requires -1 <= e < 12
  {
    if e == -1 then [] else [EdgeVertex(cell, e)]
  }

  /** The vertices one pass over a table entry emits: one per non-sentinel edge index, in order */
  function Emitted(cell: GridCell, es: seq<int>): seq<Vec3>
    requires ValidEntry(es)
  {
    if es == [] then [] else EdgeOutput(cell, es[0]) + Emitted(cell, es[1..])
  }

  function Reversed<T>(s: seq<T>): seq<T>
  {
    if s == [] then [] else Reversed(s[1..]) + [s[0]]
  }

  /** The number of non-sentinel entries */
  function EdgeCount(es: seq<int>): nat
  {
    if es == [] then 0 else (if es[0] == -1 then 0 else 1) + EdgeCount(es[1..])
  }

  /** The contribution of one cell: the forward pass, then the pass over the reversed entry */
  function CellMesh(cell: GridCell, surfaceLevel: real, table: seq<seq<int>>): seq<Vec3>
    requires ValidTable(table) && |cell.Values| == 8
  {
    var tri := table[VoxelCell.CubeIndexOf(cell.Values, surfaceLevel)];
    ReversedValid(tri);
    Emitted(cell, tri) + Emitted(cell, Reversed(tri))
  }

  lemma {:induction false} ReversedValid(es: seq<int>)
    requires ValidEntry(es)
    ensures |Reversed(es)| == |es|
    ensures forall k :: 0 <= k < |es| ==> Reversed(es)[k] == es[|es| - 1 - k]
    ensures ValidEntry(Reversed(es))
  {
    if es != [] {
      ReversedValid(es[1..]);
    }
  }

  lemma {:induction false} EmittedLength(cell: GridCell, es: seq<int>)
    requires ValidEntry(es)
    ensures |Emitted(cell, es)| == EdgeCount(es)
  {
    if es != [] {
      EmittedLength(cell, es[1..]);
    }
  }

  /** Emitting a concatenation is concatenating the emissions */
  lemma {:induction false} EmittedConcat(cell: GridCell, a: seq<int>, b: seq<int>)
    requires ValidEntry(a) && ValidEntry(b)
    ensures ValidEntry(a + b)
    ensures Emitted(cell, a + b) == Emitted(cell, a) + Emitted(cell, b)
    decreases |a|
  {
    assert ValidEntry(a + b) by {
      forall k | 0 <= k < |a + b| ensures -1 <= (a + b)[k] < 12 {
        if k < |a| { assert (a + b)[k] == a[k]; } else { assert (a + b)[k] == b[k - |a|]; }
      }
    }
    if a == [] {
      assert a + b == b;
    } else {
      var ab := a + b;
      assert ab[1..] == a[1..] + b;
      assert ValidEntry(a[1..]);
      EmittedConcat(cell, a[1..], b);
      calc {
        Emitted(cell, ab);
        EdgeOutput(cell, ab[0]) + Emitted(cell, ab[1..]);
        EdgeOutput(cell, a[0]) + (Emitted(cell, a[1..]) + Emitted(cell, b));
        (EdgeOutput(cell, a[0]) + Emitted(cell, a[1..])) + Emitted(cell, b);
      }
    }
  }

  /** Walking the entry backwards emits the forward vertices backwards */
  lemma {:induction false} EmittedReversed(cell: GridCell, es: seq<int>)
    requires ValidEntry(es)
    ensures ValidEntry(Reversed(es))
    ensures Emitted(cell, Reversed(es)) == Reversed(Emitted(cell, es))
  {
    ReversedValid(es);
    if es != [] {
      var rest := es[1..];
      EmittedReversed(cell, rest);
      ReversedValid(rest);
      EmittedConcat(cell, Reversed(rest), [es[0]]);
      assert Emitted(cell, [es[0]]) == EdgeOutput(cell, es[0]) by {
        assert [es[0]][1..] == [];
      }
      ReversedConcat(EdgeOutput(cell, es[0]), Emitted(cell, rest));
      assert Reversed(EdgeOutput(cell, es[0])) == EdgeOutput(cell, es[0]) by {
        if es[0] != -1 {
          assert [EdgeVertex(cell, es[0])][1..] == [];
        }
      }
    }
  }

  lemma {:induction false} ReversedConcat<T>(a: seq<T>, b: seq<T>)
    ensures Reversed(a + b) == Reversed(b) + Reversed(a)
    decreases |a|
  {
    if a == [] {
      assert a + b == b;
    } else {
      ReversedConcat(a[1..], b);
      assert (a + b)[1..] == a[1..] + b;
    }
  }

  /**
   * One cell emits twice as many vertices as its entry has non-sentinel edge
   * indices; the second half is the first half backwards; an entry with only
   * sentinels emits nothing.
   */
  lemma CellMeshShape(cell: GridCell, surfaceLevel: real, table: seq<seq<int>>)
    requires ValidTable(table) && |cell.Values| == 8
    ensures var tri := table[VoxelCell.CubeIndexOf(cell.Values, surfaceLevel)];
      var m := CellMesh(cell, surfaceLevel, table);
      && |m| == 2 * EdgeCount(tri)
      && m[EdgeCount(tri)..] == Reversed(m[..EdgeCount(tri)])
      && m[..EdgeCount(tri)] == Emitted(cell, tri)
      && ((forall k :: 0 <= k < |tri| ==> tri[k] == -1) ==> m == [])
  {
    var tri := table[VoxelCell.CubeIndexOf(cell.Values, surfaceLevel)];
    EmittedReversed(cell, tri);
    EmittedLength(cell, tri);
    ReversedLength(Emitted(cell, tri));
    var fwd := Emitted(cell, tri);
    var m := CellMesh(cell, surfaceLevel, table);
    assert m == fwd + Reversed(fwd);
    assert m[..|fwd|] == fwd;
    assert m[|fwd|..] == Reversed(fwd);
    if forall k :: 0 <= k < |tri| ==> tri[k] == -1 {
      AllSentinels(tri);
    }
  }

  lemma {:induction false} ReversedLength<T>(s: seq<T>)
    ensures |Reversed(s)| == |s|
  {
    if s != [] {
      ReversedLength(s[1..]);
    }
  }

  lemma {:induction false} AllSentinels(es: seq<int>)
    requires forall k :: 0 <= k < |es| ==> es[k] == -1
    ensures EdgeCount(es) == 0
  {
    if es != [] {
      AllSentinels(es[1..]);
    }
  }

  /** Every cell of the lattice holds eight densities */
  ghost predicate WellFormed(cells: array3<GridCell>)
    reads cells
  {
    forall x, y, z :: 0 <= x < cells.Length0 && 0 <= y < cells.Length1 && 0 <= z < cells.Length2 ==>
      |cells[x, y, z].Values| == 8
  }

  /** Cells (x, y, 0 .. z - 1) */
  ghost function RowMesh(cells: array3<GridCell>, surfaceLevel: real, table: seq<seq<int>>, x: nat, y: nat, z: nat): seq<Vec3>
    reads cells
    requires WellFormed(cells) && ValidTable(table)
    requires x < cells.Length0 && y < cells.Length1 && z <= cells.Length2
  {
    if z == 0 then []
    else RowMesh(cells, surfaceLevel, table, x, y, z - 1) + CellMesh(cells[x, y, z - 1], surfaceLevel, table)
  }

  /** Rows 0 .. y - 1 of plane x */
  ghost function PlaneMesh(cells: array3<GridCell>, surfaceLevel: real, table: seq<seq<int>>, x: nat, y: nat): seq<Vec3>
    reads cells
    requires WellFormed(cells) && ValidTable(table)
    requires x < cells.Length0 && y <= cells.Length1
  {
    if y == 0 then []
    else PlaneMesh(cells, surfaceLevel, table, x, y - 1) + RowMesh(cells, surfaceLevel, table, x, y - 1, cells.Length2)
  }

  /** Planes 0 .. x - 1 */
  ghost function BoxMesh(cells: array3<GridCell>, surfaceLevel: real, table: seq<seq<int>>, x: nat): seq<Vec3>
    reads cells
    requires WellFormed(cells) && ValidTable(table)
    requires x <= cells.Length0
  {
    if x == 0 then []
    else BoxMesh(cells, surfaceLevel, table, x - 1) + PlaneMesh(cells, surfaceLevel, table, x - 1, cells.Length1)
  }

  /** The vertex list of the whole chunk: the cell contributions in x-, y-, z-nested order */
  ghost function ChunkMesh(cells: array3<GridCell>, surfaceLevel: real, table: seq<seq<int>>): seq<Vec3>
    reads cells
    requires WellFormed(cells) && ValidTable(table)
  {
    BoxMesh(cells, surfaceLevel, table, cells.Length0)
  }

  lemma RowStep(cells: array3<GridCell>, surfaceLevel: real, table: seq<seq<int>>, x: nat, y: nat, z: nat, prefix: seq<Vec3>)
    requires WellFormed(cells) && ValidTable(table)
    requires x < cells.Length0 && y < cells.Length1 && z < cells.Length2
    ensures prefix + RowMesh(cells, surfaceLevel, table, x, y, z + 1) ==
      prefix + RowMesh(cells, surfaceLevel, table, x, y, z) + CellMesh(cells[x, y, z], surfaceLevel, table)
  {
    ConcatAssociative(prefix, RowMesh(cells, surfaceLevel, table, x, y, z), CellMesh(cells[x, y, z], surfaceLevel, table));
  }

  lemma PlaneStep(cells: array3<GridCell>, surfaceLevel: real, table: seq<seq<int>>, x: nat, y: nat, prefix: seq<Vec3>)
    requires WellFormed(cells) && ValidTable(table)
    requires x < cells.Length0 && y < cells.Length1
    ensures prefix + PlaneMesh(cells, surfaceLevel, table, x, y + 1) ==
      prefix + PlaneMesh(cells, surfaceLevel, table, x, y) + RowMesh(cells, surfaceLevel, table, x, y, cells.Length2)
  {
    ConcatAssociative(prefix, PlaneMesh(cells, surfaceLevel, table, x, y), RowMesh(cells, surfaceLevel, table, x, y, cells.Length2));
  }

  /** triangles[k] == k for every k */
  predicate IsIdentityIndex(triangles: seq<int>)
  {
    forall k :: 0 <= k < |triangles| ==> triangles[k] == k
  }

  /**
   * One pass of the emission loop: every non-sentinel edge index of `es`
   * appends its vertex and the next sequential index.
   */
  method EmitEdges(cell: GridCell, es: seq<int>, vertices: seq<Vec3>, triangles: seq<int>, vertexCount: int)
    returns (vertices': seq<Vec3>, triangles': seq<int>, vertexCount': int)
    requires ValidEntry(es)
    requires |vertices| == |triangles| == vertexCount && IsIdentityIndex(triangles)
    ensures vertices' == vertices + Emitted(cell, es)
    ensures |vertices'| == |triangles'| == vertexCount' && IsIdentityIndex(triangles')
  {
    vertices', triangles', vertexCount' := vertices, triangles, vertexCount;
    for j := 0 to |es|
      invariant vertices' == vertices + Emitted(cell, es[..j])
      invariant |vertices'| == |triangles'| == vertexCount' && IsIdentityIndex(triangles')
    {
      assert es[..j + 1] == es[..j] + [es[j]];
      EmittedConcat(cell, es[..j], [es[j]]);
      assert [es[j]][1..] == [];
      var edgeIndex := es[j];
      if edgeIndex == -1 {
        continue;
      }
      vertices' := vertices' + [EdgeVertex(cell, edgeIndex)];
      triangles' := triangles' + [vertexCount'];
      vertexCount' := vertexCount' + 1;
    }
    assert es[..|es|] == es;
  }

  /** Both passes over one table entry: forwards, then backwards */
  method EmitBothWays(cell: GridCell, tri: seq<int>, vertices: seq<Vec3>, triangles: seq<int>, vertexCount: int)
    returns (vertices': seq<Vec3>, triangles': seq<int>, vertexCount': int)
    requires ValidEntry(tri)
    requires |vertices| == |triangles| == vertexCount && IsIdentityIndex(triangles)
    ensures ValidEntry(Reversed(tri))
    ensures vertices' == vertices + (Emitted(cell, tri) + Emitted(cell, Reversed(tri)))
    ensures |vertices'| == |triangles'| == vertexCount' && IsIdentityIndex(triangles')
  {
    assert ValidEntry(Reversed(tri)) by { ReversedValid(tri); }
    ghost var forward, backward := Emitted(cell, tri), Emitted(cell, Reversed(tri));
    vertices', triangles', vertexCount' := EmitEdges(cell, tri, vertices, triangles, vertexCount);
    vertices', triangles', vertexCount' := EmitEdges(cell, Reversed(tri), vertices', triangles', vertexCount');
    assert vertices' == vertices + forward + backward;
    ConcatAssociative(vertices, forward, backward);
  }

  /** The body of the mesh loop for one cell: look up its table entry and emit it both ways */
  method PolygonizeCell(cell: GridCell, surfaceLevel: real, table: seq<seq<int>>,
                        vertices: seq<Vec3>, triangles: seq<int>, vertexCount: int)
    returns (vertices': seq<Vec3>, triangles': seq<int>, vertexCount': int)
    requires ValidTable(table) && |cell.Values| == 8
    requires |vertices| == |triangles| == vertexCount && IsIdentityIndex(triangles)
    ensures vertices' == vertices + CellMesh(cell, surfaceLevel, table)
    ensures |vertices'| == |triangles'| == vertexCount' && IsIdentityIndex(triangles')
  {
    var cubeIndex := GetCubeIndex(cell, surfaceLevel);
    vertices', triangles', vertexCount' := EmitBothWays(cell, table[cubeIndex], vertices, triangles, vertexCount);
  }

  /** The middle loop of the mesh pass: every row of plane x */
  method PolygonizePlane(cells: array3<GridCell>, surfaceLevel: real, table: seq<seq<int>>, x: nat,
                         vertices: seq<Vec3>, triangles: seq<int>, vertexCount: int)
    returns (vertices': seq<Vec3>, triangles': seq<int>, vertexCount': int)
    requires WellFormed(cells) && ValidTable(table) && x < cells.Length0
    requires |vertices| == |triangles| == vertexCount && IsIdentityIndex(triangles)
    ensures vertices' == vertices + PlaneMesh(cells, surfaceLevel, table, x, cells.Length1)
    ensures |vertices'| == |triangles'| == vertexCount' && IsIdentityIndex(triangles')
  {
    vertices', triangles', vertexCount' := vertices, triangles, vertexCount;
    for y := 0 to cells.Length1
      invariant vertices' == vertices + PlaneMesh(cells, surfaceLevel, table, x, y)
      invariant |vertices'| == |triangles'| == vertexCount' && IsIdentityIndex(triangles')
    {
      vertices', triangles', vertexCount' := PolygonizeRow(cells, surfaceLevel, table, x, y, vertices', triangles', vertexCount');
      PlaneStep(cells, surfaceLevel, table, x, y, vertices);
    }
  }

  /** The inner loop of the mesh pass: every cell of row (x, y) */
  method PolygonizeRow(cells: array3<GridCell>, surfaceLevel: real, table: seq<seq<int>>, x: nat, y: nat,
                       vertices: seq<Vec3>, triangles: seq<int>, vertexCount: int)
    returns (vertices': seq<Vec3>, triangles': seq<int>, vertexCount': int)
    requires WellFormed(cells) && ValidTable(table) && x < cells.Length0 && y < cells.Length1
    requires |vertices| == |triangles| == vertexCount && IsIdentityIndex(triangles)
    ensures vertices' == vertices + RowMesh(cells, surfaceLevel, table, x, y, cells.Length2)
    ensures |vertices'| == |triangles'| == vertexCount' && IsIdentityIndex(triangles')
  {
    vertices', triangles', vertexCount' := vertices, triangles, vertexCount;
    for z := 0 to cells.Length2
      invariant vertices' == vertices + RowMesh(cells, surfaceLevel, table, x, y, z)
      invariant |vertices'| == |triangles'| == vertexCount' && IsIdentityIndex(triangles')
    {
      vertices', triangles', vertexCount' := PolygonizeCell(cells[x, y, z], surfaceLevel, table, vertices', triangles', vertexCount');
      RowStep(cells, surfaceLevel, table, x, y, z, vertices);
    }
  }

  /** The three nested loops of `GenerateGridValues`: a fresh n^3 lattice of sampled cells */
  method SampleLattice(gridPosition: Vec3, gridScale: real, n: nat, noise: Noise) returns (lattice: array3<GridCell>)
    ensures fresh(lattice) && WellFormed(lattice)
    ensures lattice.Length0 == lattice.Length1 == lattice.Length2 == n
    ensures forall x, y, z :: 0 <= x < n && 0 <= y < n && 0 <= z < n ==>
      lattice[x, y, z] == SampledCell(gridPosition, gridScale, n, x, y, z, noise)
  {
    lattice := new GridCell[n, n, n];
    for x := 0 to n
      modifies lattice
      invariant forall a, b, c :: 0 <= a < x && 0 <= b < n && 0 <= c < n ==>
        lattice[a, b, c] == SampledCell(gridPosition, gridScale, n, a, b, c, noise)
    {
      for y := 0 to n
        modifies lattice
        invariant forall a, b, c :: 0 <= a < x && 0 <= b < n && 0 <= c < n ==>
          lattice[a, b, c] == SampledCell(gridPosition, gridScale, n, a, b, c, noise)
        invariant forall b, c :: 0 <= b < y && 0 <= c < n ==>
          lattice[x, b, c] == SampledCell(gridPosition, gridScale, n, x, b, c, noise)
      {
        for z := 0 to n
          modifies lattice
          invariant forall a, b, c :: 0 <= a < x && 0 <= b < n && 0 <= c < n ==>
            lattice[a, b, c] == SampledCell(gridPosition, gridScale, n, a, b, c, noise)
          invariant forall b, c :: 0 <= b < y && 0 <= c < n ==>
            lattice[x, b, c] == SampledCell(gridPosition, gridScale, n, x, b, c, noise)
          invariant forall c :: 0 <= c < z ==>
            lattice[x, y, c] == SampledCell(gridPosition, gridScale, n, x, y, c, noise)
        {
          var cell := GridCell(IVec3(x, y, z), gridScale / n as real, []);
          var values: seq<real> := [];
          for i := 0 to 8
            invariant |values| == i
            invariant forall k :: 0 <= k < i ==> values[k] == SampledValue(noise, gridPosition.Plus(GetValuePos(cell, k)))
          {
            var valuePos := gridPosition.Plus(GetValuePos(cell, i));
            var sample := noise(NoiseSeed, valuePos.x, valuePos.y, valuePos.z);
            sample := (sample + 1.0) / 2.0;
            values := values + [sample];
          }
          lattice[x, y, z] := cell.(Values := values);
        }
      }
    }
  }

  class Grid {
    var GridPosition: Vec3
    var GridScale: real
    var CellCount: nat
    var surfaceLevel: real
    var cells: array3<GridCell>

    ghost predicate Valid()
      reads this, cells
    {
      WellFormed(cells)
    }

    /** A CellCount^3 lattice whose every cell is the sampled cell at its index */
    ghost predicate SampledBy(noise: Noise)
      reads this, cells
    {
      && cells.Length0 == cells.Length1 == cells.Length2 == CellCount
      && forall x, y, z :: 0 <= x < CellCount && 0 <= y < CellCount && 0 <= z < CellCount ==>
        cells[x, y, z] == SampledCell(GridPosition, GridScale, CellCount, x, y, z, noise)
    }

    constructor ()
      ensures Valid() && fresh(cells)
      ensures GridPosition == Vec3(0.0, 0.0, 0.0) && GridScale == 0.0 && CellCount == 0 && surfaceLevel == 0.0
    {
      GridPosition := Vec3(0.0, 0.0, 0.0);
      GridScale := 0.0;
      CellCount := 0;
      surfaceLevel := 0.0;
      cells := new GridCell[0, 0, 0];
    }

    /** Replaces the lattice with CellCount^3 freshly sampled cells */
    method GenerateGridValues(noise: Noise)
      modifies this
      ensures Valid() && fresh(cells)
      ensures GridPosition == old(GridPosition) && GridScale == old(GridScale)
      ensures CellCount == old(CellCount) && surfaceLevel == old(surfaceLevel)
      ensures SampledBy(noise)
    {
      cells := SampleLattice(GridPosition, GridScale, CellCount, noise);
    }

    /**
     * The mesh of the current lattice: the vertex list is the concatenation of
     * the cells' contributions in x-, y-, z-nested order, and the index list
     * is 0, 1, 2, ... of the same length.
     */
    method ConstructMesh(surfaceLevel: real, table: seq<seq<int>>) returns (vertices: seq<Vec3>, triangles: seq<int>)
      requires Valid() && ValidTable(table)
      ensures vertices == ChunkMesh(cells, surfaceLevel, table)
      ensures |triangles| == |vertices| && IsIdentityIndex(triangles)
    {
      vertices, triangles := [], [];
      var vertexCount := 0;
      for x := 0 to cells.Length0
        invariant vertices == BoxMesh(cells, surfaceLevel, table, x)
        invariant |vertices| == |triangles| == vertexCount && IsIdentityIndex(triangles)
      {
        vertices, triangles, vertexCount := PolygonizePlane(cells, surfaceLevel, table, x, vertices, triangles, vertexCount);
      }
    }
  }
}
