/**
 * The chunk manager of the older iteration (`GridGenerator.cs`): a list of
 * chunks created once, in x-, y-, z-nested order, and a FIFO queue of chunks
 * to rebuild. The G key queues every chunk not already queued; each turn of
 * the refresh coroutine takes the head of the queue and regenerates both its
 * densities and its mesh.
 */
module LegacyGenerator {
  import opened Geometry
  import opened Sequences
  import opened Queues
  import opened Coordinates
  import opened LegacyGrid

  class GridGenerator {
    const surfaceLevel: real
    const gridScale: real
    const cellCount: nat
    const size: IVec3

    var grids: seq<Grid>
    var refreshQueue: seq<Grid>

    /** The queue holds chunks of the list, each at most once */
    ghost predicate Valid()
      reads this
    {
      NoDuplicates(refreshQueue) && forall g :: g in refreshQueue ==> g in grids
    }

    /** A chunk carrying the manager's settings */
    ghost predicate Configured(g: Grid)
      reads g
    {
      g.surfaceLevel == surfaceLevel && g.GridScale == gridScale && g.CellCount == cellCount
    }

    /** The field initialisers: no chunks and nothing queued */
    constructor (surfaceLevel: real, gridScale: real, cellCount: nat, size: IVec3)
      ensures this.surfaceLevel == surfaceLevel && this.gridScale == gridScale
      ensures this.cellCount == cellCount && this.size == size
      ensures grids == [] && refreshQueue == [] && Valid()
    {
      this.surfaceLevel := surfaceLevel;
      this.gridScale := gridScale;
      this.cellCount := cellCount;
      this.size := size;
      grids := [];
      refreshQueue := [];
    }

    /** The body of the innermost loop of `Start`: one chunk at one position, sampled and meshed */
    method NewGrid(position: IVec3, noise: Noise, table: seq<seq<int>>) returns (grid: Grid)
      requires ValidTable(table)
      ensures fresh(grid) && Built(grid, position, noise)
    {
      grid := new Grid();
      grid.surfaceLevel := surfaceLevel;
      grid.GridScale := gridScale;
      grid.CellCount := cellCount;
      grid.GridPosition := position.ToVec();
      grid.GenerateGridValues(noise);
      var vertices, triangles := grid.ConstructMesh(grid.surfaceLevel, table);
    }

    /**
     * `Start`: one new chunk per coordinate of the box, the chunk at list
     * index n sitting at the n-th coordinate of the x-, y-, z-nested walk,
     * configured, sampled, and distinct from every other chunk.
     */
    method Start(noise: Noise, table: seq<seq<int>>)
      requires grids == [] && refreshQueue == [] && ValidTable(table)
      modifies this
      ensures refreshQueue == [] && Valid()
      ensures |grids| == |AllCoordinates(size)|
      ensures forall n :: 0 <= n < |grids| ==> fresh(grids[n]) && Built(grids[n], AllCoordinates(size)[n], noise)
      ensures forall a, b :: 0 <= a < b < |grids| ==> grids[a] != grids[b]
    {
      grids := CreateAll(noise, table);
    }

    /** A chunk built for coordinate c: meshable, at c, configured and sampled */
    ghost predicate Built(g: Grid, c: IVec3, noise: Noise)
      reads g, g.cells
    {
      g.Valid() && g.GridPosition == c.ToVec() && Configured(g) && g.SampledBy(noise)
    }

    /** The three nested creation loops of `Start`: the outer one, over x */
    method CreateAll(noise: Noise, table: seq<seq<int>>) returns (created: seq<Grid>)
      requires ValidTable(table)
      ensures |created| == |AllCoordinates(size)|
      ensures forall n :: 0 <= n < |created| ==> fresh(created[n]) && Built(created[n], AllCoordinates(size)[n], noise)
      ensures forall a, b :: 0 <= a < b < |created| ==> created[a] != created[b]
    {
      created := [];
      var x := 0;
      while x < size.x
        invariant 0 <= x && (x <= size.x || x == 0)
        invariant |created| == |Box(x, size)|
        invariant forall n :: 0 <= n < |created| ==> fresh(created[n]) && Built(created[n], Box(x, size)[n], noise)
        invariant forall a, b :: 0 <= a < b < |created| ==> created[a] != created[b]
      {
        var plane := CreatePlane(x, noise, table);
        ghost var before := created;
        created := created + plane;
        assert Box(x + 1, size) == Box(x, size) + Plane(x, size.y, size);
        forall a, b | 0 <= a < b < |created| ensures created[a] != created[b] {
          if a < |before| <= b {
            assert created[b] == plane[b - |before|] && created[a] == before[a];
          }
        }
        x := x + 1;
      }
    }

    /** The middle creation loop: every row of plane x */
    method CreatePlane(x: int, noise: Noise, table: seq<seq<int>>) returns (created: seq<Grid>)
      requires ValidTable(table)
      ensures |created| == |Plane(x, size.y, size)|
      ensures forall n :: 0 <= n < |created| ==> fresh(created[n]) && Built(created[n], Plane(x, size.y, size)[n], noise)
      ensures forall a, b :: 0 <= a < b < |created| ==> created[a] != created[b]
    {
      created := [];
      var y := 0;
      while y < size.y
        invariant 0 <= y && (y <= size.y || y == 0)
        invariant |created| == |Plane(x, y, size)|
        invariant forall n :: 0 <= n < |created| ==> fresh(created[n]) && Built(created[n], Plane(x, y, size)[n], noise)
        invariant forall a, b :: 0 <= a < b < |created| ==> created[a] != created[b]
      {
        var row := CreateRow(x, y, noise, table);
        ghost var before := created;
        created := created + row;
        assert Plane(x, y + 1, size) == Plane(x, y, size) + Row(x, y, size.z);
        forall a, b | 0 <= a < b < |created| ensures created[a] != created[b] {
          if a < |before| <= b {
            assert created[b] == row[b - |before|] && created[a] == before[a];
          }
        }
        y := y + 1;
      }
      assert Plane(x, y, size) == Plane(x, size.y, size);
    }

    /** The inner creation loop: one new chunk per cell of row (x, y) */
    method CreateRow(x: int, y: int, noise: Noise, table: seq<seq<int>>) returns (created: seq<Grid>)
      requires ValidTable(table)
      ensures |created| == |Row(x, y, size.z)|
      ensures forall n :: 0 <= n < |created| ==> fresh(created[n]) && Built(created[n], Row(x, y, size.z)[n], noise)
      ensures forall a, b :: 0 <= a < b < |created| ==> created[a] != created[b]
    {
      created := [];
      var z := 0;
      while z < size.z
        invariant 0 <= z && (z <= size.z || z == 0)
        invariant |created| == |Row(x, y, z)|
        invariant forall n :: 0 <= n < |created| ==> fresh(created[n]) && Built(created[n], Row(x, y, z)[n], noise)
        invariant forall a, b :: 0 <= a < b < |created| ==> created[a] != created[b]
      {
        var grid := NewGrid(IVec3(x, y, z), noise, table);
        created := created + [grid];
        assert Row(x, y, z + 1) == Row(x, y, z) + [IVec3(x, y, z)];
        z := z + 1;
      }
      assert Row(x, y, z) == Row(x, y, size.z);
    }

    /**
     * The G key: every chunk of the list, in list order, is queued unless it
     * already is, so the queue stays free of duplicates and afterwards holds
     * every chunk.
     */
    method EnqueueAll()
      requires Valid()
      modifies this
      ensures refreshQueue == EnqueueAllAbsent(old(refreshQueue), grids)
      ensures grids == old(grids) && Valid()
      ensures forall g :: g in grids ==> g in refreshQueue
    {
      for n := 0 to |grids|
        invariant grids == old(grids)
        invariant refreshQueue == EnqueueAllAbsent(old(refreshQueue), grids[..n])
      {
        assert grids[..n + 1] == grids[..n] + [grids[n]];
        EnqueueAllAbsentConcat(old(refreshQueue), grids[..n], [grids[n]]);
        EnqueueAllAbsentSingle(EnqueueAllAbsent(old(refreshQueue), grids[..n]), grids[n]);
        if grids[n] !in refreshQueue {
          refreshQueue := refreshQueue + [grids[n]];
        }
      }
      assert grids[..|grids|] == grids;
      EnqueueAllAbsentContents(old(refreshQueue), grids);
    }

    /** `refreshQueue.Dequeue()` */
    method Dequeue() returns (grid: Grid)
      requires Valid() && |refreshQueue| > 0
      modifies this
      ensures grid == old(refreshQueue)[0] && grid in grids
      ensures refreshQueue == old(refreshQueue)[1..] && grid !in refreshQueue
      ensures grids == old(grids) && Valid()
    {
      grid := refreshQueue[0];
      refreshQueue := refreshQueue[1..];
    }

    /**
     * Re-applies the manager's settings to a dequeued chunk, regenerates its
     * densities and rebuilds its mesh. The mesh, which the manager drops, is
     * returned.
     */
    method Rebuild(grid: Grid, noise: Noise, table: seq<seq<int>>) returns (vertices: seq<Vec3>, triangles: seq<int>)
      requires ValidTable(table)
      modifies grid
      ensures grid.GridPosition == old(grid.GridPosition)
      ensures Configured(grid) && grid.Valid() && grid.SampledBy(noise)
      ensures vertices == ChunkMesh(grid.cells, grid.surfaceLevel, table)
      ensures |triangles| == |vertices| && IsIdentityIndex(triangles)
    {
      grid.surfaceLevel := surfaceLevel;
      grid.CellCount := cellCount;
      grid.GridScale := gridScale;
      grid.GenerateGridValues(noise);
      vertices, triangles := grid.ConstructMesh(grid.surfaceLevel, table);
    }

    /**
     * One turn of the refresh coroutine: nothing on an empty queue; otherwise
     * exactly the head leaves the queue and that chunk alone is rebuilt,
     * densities and mesh both.
     */
    method RefreshStep(noise: Noise, table: seq<seq<int>>) returns (vertices: seq<Vec3>, triangles: seq<int>)
      requires Valid() && ValidTable(table)
      modifies this, Elements(refreshQueue)
      ensures grids == old(grids) && Valid()
      ensures old(refreshQueue) == [] ==> refreshQueue == [] && vertices == [] && triangles == []
      ensures old(refreshQueue) != [] ==>
        var head := old(refreshQueue)[0];
        && refreshQueue == old(refreshQueue)[1..]
        && head.GridPosition == old(head.GridPosition)
        && Configured(head) && head.Valid() && head.SampledBy(noise)
        && vertices == ChunkMesh(head.cells, head.surfaceLevel, table)
        && |triangles| == |vertices| && IsIdentityIndex(triangles)
        && forall g :: g in old(refreshQueue)[1..] ==> unchanged(g)
    {
      vertices, triangles := [], [];
      if |refreshQueue| > 0 {
        var grid := Dequeue();
        vertices, triangles := Rebuild(grid, noise, table);
      }
    }
  }
}
