/**
 * The newer chunk manager (`Voxel.GridGenerator`): a dictionary from chunk
 * coordinates to chunks and a FIFO queue of coordinates waiting to be built
 * or rebuilt, drained one coordinate per frame.
 *
 * The chunk class `Voxel.Grid` is not part of this model beyond what the
 * manager and the terraform tool rely on: the fields the manager assigns,
 * its lattice of corner densities (`array4`, cell x, y, z, corner i), and
 * the fact that its mesh is built from the densities it holds at that
 * moment. Its density generator is a parameter.
 */
module VoxelGenerator {
  import opened Geometry
  import opened Queues
  import opened Coordinates
  import opened Sequences

  /** `Grid.GridData` without its colour gradient */
  datatype GridData = GridData(Seed: int, MaxHeight: real, Frequency: real, SurfaceLevel: real, CellCount: nat)

  /** The density a chunk's generator gives corner i of cell c of the chunk at coordinate p */
  type Sampler = (GridData, IVec3, IVec3, nat) -> real

  /** A snapshot of a chunk's densities, indexed like the lattice */
  type Field = seq<seq<seq<seq<real>>>>

  class Chunk {
    var GridPosition: IVec3
    var GridScale: real
    var Data: GridData
    /** densities[x, y, z, i] is corner i of cell (x, y, z) */
    const densities: array4<real>
    /** The densities the current mesh was built from */
    ghost var meshedFrom: Field

    ghost predicate Valid()
      reads this
    {
      densities.Length0 == Data.CellCount && densities.Length1 == Data.CellCount &&
      densities.Length2 == Data.CellCount && densities.Length3 == 8
    }

    ghost function Field(): Field
      reads densities
    {
      seq(densities.Length0, x requires 0 <= x < densities.Length0 reads densities =>
        seq(densities.Length1, y requires 0 <= y < densities.Length1 reads densities =>
          seq(densities.Length2, z requires 0 <= z < densities.Length2 reads densities =>
            seq(densities.Length3, i requires 0 <= i < densities.Length3 reads densities =>
              densities[x, y, z, i]))))
    }

    /** The mesh reflects the current densities */
    ghost predicate Meshed()
      reads this, densities
    {
      meshedFrom == Field()
    }

    /** Every density is the generator's value for that corner under the chunk's data */
    ghost predicate SampledBy(sample: Sampler)
      reads this, densities
    {
      forall x, y, z, i :: 0 <= x < densities.Length0 && 0 <= y < densities.Length1 && 0 <= z < densities.Length2 && 0 <= i < densities.Length3 ==>
        densities[x, y, z, i] == sample(Data, GridPosition, IVec3(x, y, z), i)
    }

    constructor (data: GridData)
      ensures Valid() && Data == data && fresh(densities)
      ensures GridPosition == IVec3(0, 0, 0) && GridScale == 0.0
    {
      GridPosition := IVec3(0, 0, 0);
      GridScale := 0.0;
      Data := data;
      densities := new real[data.CellCount, data.CellCount, data.CellCount, 8]((x, y, z, i) => 0.0);
      meshedFrom := [];
    }

    /** Overwrites every density with the generator's value */
    method GenerateGridValues(sample: Sampler)
      modifies densities
      ensures SampledBy(sample)
    {
      for x := 0 to densities.Length0
        invariant forall a, b, c, i :: 0 <= a < x && 0 <= b < densities.Length1 && 0 <= c < densities.Length2 && 0 <= i < densities.Length3 ==>
          densities[a, b, c, i] == sample(Data, GridPosition, IVec3(a, b, c), i)
      {
        for y := 0 to densities.Length1
          invariant forall a, b, c, i :: 0 <= a < x && 0 <= b < densities.Length1 && 0 <= c < densities.Length2 && 0 <= i < densities.Length3 ==>
            densities[a, b, c, i] == sample(Data, GridPosition, IVec3(a, b, c), i)
          invariant forall b, c, i :: 0 <= b < y && 0 <= c < densities.Length2 && 0 <= i < densities.Length3 ==>
            densities[x, b, c, i] == sample(Data, GridPosition, IVec3(x, b, c), i)
        {
          for z := 0 to densities.Length2
            invariant forall a, b, c, i :: 0 <= a < x && 0 <= b < densities.Length1 && 0 <= c < densities.Length2 && 0 <= i < densities.Length3 ==>
              densities[a, b, c, i] == sample(Data, GridPosition, IVec3(a, b, c), i)
            invariant forall b, c, i :: 0 <= b < y && 0 <= c < densities.Length2 && 0 <= i < densities.Length3 ==>
              densities[x, b, c, i] == sample(Data, GridPosition, IVec3(x, b, c), i)
            invariant forall c, i :: 0 <= c < z && 0 <= i < densities.Length3 ==>
              densities[x, y, c, i] == sample(Data, GridPosition, IVec3(x, y, c), i)
          {
            for i := 0 to densities.Length3
              invariant forall a, b, c, i :: 0 <= a < x && 0 <= b < densities.Length1 && 0 <= c < densities.Length2 && 0 <= i < densities.Length3 ==>
                densities[a, b, c, i] == sample(Data, GridPosition, IVec3(a, b, c), i)
              invariant forall b, c, i :: 0 <= b < y && 0 <= c < densities.Length2 && 0 <= i < densities.Length3 ==>
                densities[x, b, c, i] == sample(Data, GridPosition, IVec3(x, b, c), i)
              invariant forall c, i :: 0 <= c < z && 0 <= i < densities.Length3 ==>
                densities[x, y, c, i] == sample(Data, GridPosition, IVec3(x, y, c), i)
              invariant forall j :: 0 <= j < i ==>
                densities[x, y, z, j] == sample(Data, GridPosition, IVec3(x, y, z), j)
            {
              densities[x, y, z, i] := sample(Data, GridPosition, IVec3(x, y, z), i);
            }
          }
        }
      }
    }

    /** Rebuilds the mesh from the current densities, which it leaves as they are */
    method ConstructMesh()
      modifies this
      ensures Meshed()
      ensures GridPosition == old(GridPosition) && GridScale == old(GridScale) && Data == old(Data)
    {
      meshedFrom := Field();
    }
  }

  ghost function ArraysOf(grids: map<IVec3, Chunk>): set<array4<real>>
  {
    set k | k in grids :: grids[k].densities
  }

  // ---------------------------------------------------------------------
  // Looking a world position up

  /** The value of the captured variable `grid`, or the exception a missing key raises */
  datatype Lookup = Miss | Hit(grid: Chunk) | KeyNotFound(at: IVec3)

  /** What the lambda does with one coordinate */
  function LookupStep(prev: Lookup, c: IVec3, grids: map<IVec3, Chunk>, hasPosition: (IVec3, Vec3) -> bool, pos: Vec3): Lookup
  {
    if prev.KeyNotFound? then prev
    else if c !in grids then KeyNotFound(c)
    else if hasPosition(c, pos) then Hit(grids[c])
    else prev
  }

  /** The lookup run over coords in order */
  function Scan(coords: seq<IVec3>, grids: map<IVec3, Chunk>, hasPosition: (IVec3, Vec3) -> bool, pos: Vec3): Lookup
    decreases |coords|
  {
    if coords == [] then Miss
    else LookupStep(Scan(coords[..|coords| - 1], grids, hasPosition, pos), coords[|coords| - 1], grids, hasPosition, pos)
  }

  /** Once a key is missing, the rest of the walk does not change the outcome */
  lemma {:induction false} ScanKeyNotFoundSticks(coords: seq<IVec3>, k: nat, grids: map<IVec3, Chunk>, hasPosition: (IVec3, Vec3) -> bool, pos: Vec3)
    requires k <= |coords|
    requires Scan(coords[..k], grids, hasPosition, pos).KeyNotFound?
    ensures Scan(coords, grids, hasPosition, pos) == Scan(coords[..k], grids, hasPosition, pos)
    decreases |coords|
  {
    if k < |coords| {
      var init := coords[..|coords| - 1];
      assert init[..k] == coords[..k];
      ScanKeyNotFoundSticks(init, k, grids, hasPosition, pos);
    } else {
      assert coords[..k] == coords;
    }
  }

  /**
   * When every coordinate is a key: the result is a chunk exactly when some
   * coordinate's chunk holds the position, and then it is the chunk of the
   * LAST such coordinate in the walk; otherwise it is null.
   */
  lemma {:induction false} ScanFindsLastMatch(coords: seq<IVec3>, grids: map<IVec3, Chunk>, hasPosition: (IVec3, Vec3) -> bool, pos: Vec3)
    requires forall k :: 0 <= k < |coords| ==> coords[k] in grids
    ensures !Scan(coords, grids, hasPosition, pos).KeyNotFound?
    ensures Scan(coords, grids, hasPosition, pos).Hit? <==> exists k :: 0 <= k < |coords| && hasPosition(coords[k], pos)
    ensures Scan(coords, grids, hasPosition, pos).Hit? ==>
      exists k :: 0 <= k < |coords| && hasPosition(coords[k], pos) &&
        Scan(coords, grids, hasPosition, pos).grid == grids[coords[k]] &&
        forall j :: k < j < |coords| ==> !hasPosition(coords[j], pos)
    decreases |coords|
  {
    if coords != [] {
      var init := coords[..|coords| - 1];
      var last := |coords| - 1;
      ScanFindsLastMatch(init, grids, hasPosition, pos);
      var before, after := Scan(init, grids, hasPosition, pos), Scan(coords, grids, hasPosition, pos);
      if hasPosition(coords[last], pos) {
        assert after == Hit(grids[coords[last]]);
      } else {
        assert after == before;
        if before.Hit? {
          var k :| 0 <= k < |init| && hasPosition(init[k], pos) &&
            before.grid == grids[init[k]] &&
            forall j :: k < j < |init| ==> !hasPosition(init[j], pos);
          assert coords[k] == init[k];
          forall j | k < j < |coords| ensures !hasPosition(coords[j], pos) {
            if j < last {
              assert coords[j] == init[j];
            }
          }
        } else {
          forall k | 0 <= k < |coords| ensures !hasPosition(coords[k], pos) {
            if k < last {
              assert coords[k] == init[k];
            }
          }
        }
      }
    }
  }

  /** If some coordinate is not a key yet, the lookup fails at the first such coordinate */
  lemma {:induction false} ScanFailsAtFirstMissing(coords: seq<IVec3>, grids: map<IVec3, Chunk>, hasPosition: (IVec3, Vec3) -> bool, pos: Vec3, k: nat)
    requires k < |coords| && coords[k] !in grids
    requires forall j :: 0 <= j < k ==> coords[j] in grids
    ensures Scan(coords, grids, hasPosition, pos) == KeyNotFound(coords[k])
  {
    var prefix := coords[..k + 1];
    ScanFindsLastMatch(coords[..k], grids, hasPosition, pos);
    assert prefix[..k] == coords[..k];
    ScanKeyNotFoundSticks(coords, k + 1, grids, hasPosition, pos);
  }

  /** A chunk the lookup returns is the chunk of one of the walked coordinates */
  lemma {:induction false} ScanHitIsAChunk(coords: seq<IVec3>, grids: map<IVec3, Chunk>, hasPosition: (IVec3, Vec3) -> bool, pos: Vec3)
    requires Scan(coords, grids, hasPosition, pos).Hit?
    ensures exists k :: 0 <= k < |coords| && coords[k] in grids && Scan(coords, grids, hasPosition, pos).grid == grids[coords[k]]
    decreases |coords|
  {
    var init := coords[..|coords| - 1];
    if Scan(coords, grids, hasPosition, pos) == Scan(init, grids, hasPosition, pos) {
      ScanHitIsAChunk(init, grids, hasPosition, pos);
      var k :| 0 <= k < |init| && init[k] in grids && Scan(init, grids, hasPosition, pos).grid == grids[init[k]];
      assert coords[k] == init[k];
    }
  }

  /** With a single chunk holding the position, first and last match agree: the lookup finds it */
  lemma ScanFindsOnlyMatch(coords: seq<IVec3>, grids: map<IVec3, Chunk>, hasPosition: (IVec3, Vec3) -> bool, pos: Vec3, k: nat)
    requires forall j :: 0 <= j < |coords| ==> coords[j] in grids
    requires k < |coords| && hasPosition(coords[k], pos)
    requires forall j :: 0 <= j < |coords| && j != k ==> !hasPosition(coords[j], pos)
    ensures Scan(coords, grids, hasPosition, pos) == Hit(grids[coords[k]])
  {
    ScanFindsLastMatch(coords, grids, hasPosition, pos);
  }

  // ---------------------------------------------------------------------
  // The manager

  class GridGenerator {
    const seed: int
    const maxHeight: real
    const frequency: real
    const surfaceLevel: real
    const gridScale: real
    const cellCount: nat
    const size: IVec3

    var Grids: map<IVec3, Chunk>
    var refreshQueue: seq<IVec3>

    /** The `GridData` every chunk is given */
    function Data(): GridData
    {
      GridData(seed, maxHeight, frequency, surfaceLevel, cellCount)
    }

    /** The density lattices of all chunks */
    ghost function Arrays(): set<array4<real>>
      reads this
    {
      ArraysOf(Grids)
    }

    /**
     * Every chunk sits under its own coordinate with the manager's scale and
     * data, and no two chunks share a density lattice.
     */
    ghost predicate Valid()
      reads this, Grids.Values
    {
      (forall k :: k in Grids ==>
        Grids[k].GridPosition == k && Grids[k].GridScale == gridScale && Grids[k].Data == Data() && Grids[k].Valid())
      && (forall k, l :: k in Grids && l in Grids && k != l ==> Grids[k].densities != Grids[l].densities)
    }

    /** `Awake`: no chunks yet, and every coordinate of the box queued */
    constructor (seed: int, maxHeight: real, frequency: real, surfaceLevel: real, gridScale: real, cellCount: nat, size: IVec3)
      ensures this.seed == seed && this.maxHeight == maxHeight && this.frequency == frequency
      ensures this.surfaceLevel == surfaceLevel && this.gridScale == gridScale
      ensures this.cellCount == cellCount && this.size == size
      ensures Valid() && Grids == map[]
      ensures refreshQueue == AllCoordinates(size)
    {
      this.seed := seed;
      this.maxHeight := maxHeight;
      this.frequency := frequency;
      this.surfaceLevel := surfaceLevel;
      this.gridScale := gridScale;
      this.cellCount := cellCount;
      this.size := size;
      Grids := map[];
      refreshQueue := [];
      new;
      var coords := ForeachCoordinate();
      refreshQueue := refreshQueue + coords;
    }

    /** The coordinates the action is applied to, in the order it is applied */
    method ForeachCoordinate() returns (coords: seq<IVec3>)
      ensures coords == AllCoordinates(size)
    {
      coords := [];
      var x := 0;
      while x < size.x
        invariant 0 <= x && (x <= size.x || x == 0)
        invariant coords == Box(x, size)
      {
        var y := 0;
        while y < size.y
          invariant 0 <= y && (y <= size.y || y == 0)
          invariant coords == Box(x, size) + Plane(x, y, size)
        {
          var z := 0;
          while z < size.z
            invariant 0 <= z && (z <= size.z || z == 0)
            invariant coords == Box(x, size) + Plane(x, y, size) + Row(x, y, z)
          {
            coords := coords + [IVec3(x, y, z)];
            ConcatAssociative(Box(x, size) + Plane(x, y, size), Row(x, y, z), [IVec3(x, y, z)]);
            z := z + 1;
          }
          assert Row(x, y, z) == Row(x, y, size.z);
          ConcatAssociative(Box(x, size), Plane(x, y, size), Row(x, y, size.z));
          y := y + 1;
        }
        assert Plane(x, y, size) == Plane(x, size.y, size);
        x := x + 1;
      }
    }

    /** The G key: every coordinate enqueued again with a plain enqueue */
    method ReloadAll()
      modifies this
      ensures refreshQueue == old(refreshQueue) + AllCoordinates(size)
      ensures Grids == old(Grids)
    {
      var coords := ForeachCoordinate();
      refreshQueue := refreshQueue + coords;
    }

    /** Queues a coordinate for rebuilding unless it is already queued */
    method RefreshGrid(gridPos: IVec3)
      modifies this
      ensures refreshQueue == EnqueueAbsent(old(refreshQueue), gridPos)
      ensures Grids == old(Grids)
      ensures old(Valid()) ==> Valid()
    {
      if gridPos !in refreshQueue {
        refreshQueue := refreshQueue + [gridPos];
      }
    }

    /**
     * A new chunk under gridPos, with the manager's scale and data, sampled
     * and meshed. `Dictionary.Add` throws on a key already present; the only
     * caller checks for that first.
     */
    method AddGrid(gridPos: IVec3, sample: Sampler)
      requires Valid() && gridPos !in Grids
      modifies this
      ensures Valid()
      ensures gridPos in Grids && Grids == old(Grids)[gridPos := Grids[gridPos]]
      ensures fresh(Grids[gridPos]) && fresh(Grids[gridPos].densities)
      ensures Grids[gridPos].SampledBy(sample) && Grids[gridPos].Meshed()
      ensures forall k :: k in old(Grids) ==> Grids[k] == old(Grids[k]) && Grids[k].Field() == old(Grids[k].Field())
      ensures refreshQueue == old(refreshQueue)
    {
      var grid := NewChunk(gridPos, sample);
      Grids := Grids[gridPos := grid];
    }

    /** The construction half of `AddGrid`: a fresh chunk, positioned, sampled and meshed */
    method NewChunk(gridPos: IVec3, sample: Sampler) returns (grid: Chunk)
      ensures fresh(grid) && fresh(grid.densities)
      ensures grid.GridPosition == gridPos && grid.GridScale == gridScale && grid.Data == Data() && grid.Valid()
      ensures grid.SampledBy(sample) && grid.Meshed()
    {
      grid := new Chunk(Data());
      grid.GridPosition := gridPos;
      grid.GridScale := gridScale;
      grid.Data := Data();
      grid.GenerateGridValues(sample);
      grid.ConstructMesh();
    }

    /**
     * Re-assigns the chunk's fields and rebuilds its mesh. The densities are
     * not regenerated (the call is commented out in the source).
     */
    method UpdateGrid(gridPos: IVec3)
      requires Valid() && gridPos in Grids
      modifies Grids[gridPos]
      ensures Valid() && Grids == old(Grids) && refreshQueue == old(refreshQueue)
      ensures Grids[gridPos].Meshed()
      ensures forall k :: k in Grids ==> Grids[k].Field() == old(Grids[k].Field())
    {
      var grid := Grids[gridPos];
      grid.GridPosition := gridPos;
      grid.GridScale := gridScale;
      grid.Data := Data();
      grid.ConstructMesh();
    }

    /** `refreshQueue.Dequeue()`: the head leaves the queue, nothing else changes */
    method Dequeue() returns (head: IVec3)
      requires Valid() && |refreshQueue| > 0
      modifies this
      ensures head == old(refreshQueue)[0] && refreshQueue == old(refreshQueue)[1..]
      ensures Grids == old(Grids) && Valid()
      ensures forall k :: k in Grids ==> Grids[k].Field() == old(Grids[k].Field())
    {
      head := refreshQueue[0];
      refreshQueue := refreshQueue[1..];
    }

    /**
     * One turn of the refresh coroutine: nothing on an empty queue, otherwise
     * the head leaves the queue and its chunk is rebuilt (mesh only) or
     * created (sampled and meshed).
     */
    method RefreshStep(sample: Sampler)
      requires Valid()
      modifies this, Grids.Values
      ensures Valid()
      ensures old(Grids).Keys <= Grids.Keys
      ensures forall k :: k in old(Grids) ==> Grids[k] == old(Grids[k]) && Grids[k].Field() == old(Grids[k].Field())
      ensures old(refreshQueue) == [] ==>
        refreshQueue == [] && Grids == old(Grids) && forall k :: k in Grids ==> unchanged(Grids[k])
      ensures old(refreshQueue) != [] ==>
        && refreshQueue == old(refreshQueue)[1..]
        && forall k :: k in old(Grids) && k != old(refreshQueue)[0] ==> unchanged(Grids[k])
      ensures old(refreshQueue) != [] && old(refreshQueue)[0] in old(Grids) ==>
        Grids == old(Grids) && Grids[old(refreshQueue)[0]].Meshed()
      ensures old(refreshQueue) != [] && old(refreshQueue)[0] !in old(Grids) ==>
        var head := old(refreshQueue)[0];
        && Grids.Keys == old(Grids).Keys + {head}
        && fresh(Grids[head])
        && Grids[head].SampledBy(sample) && Grids[head].Meshed()
    {
      if |refreshQueue| > 0 {
        var gridPosition := Dequeue();
        if gridPosition in Grids {
          UpdateGrid(gridPosition);
        } else {
          AddGrid(gridPosition, sample);
        }
      }
    }

    /**
     * The chunk holding a world position: the walk over every coordinate
     * indexes the dictionary (failing at the first coordinate not yet added)
     * and keeps overwriting the result with each chunk that holds the
     * position, because the `return` inside the lambda only ends that one
     * call of it.
     */
    method GetGridFromWorldPosition(pos: Vec3, hasPosition: (IVec3, Vec3) -> bool) returns (grid: Lookup)
      requires Valid()
      ensures grid == Scan(AllCoordinates(size), Grids, hasPosition, pos)
    {
      var coords := ForeachCoordinate();
      grid := Miss;
      for k := 0 to |coords|
        invariant grid == Scan(coords[..k], Grids, hasPosition, pos)
        invariant !grid.KeyNotFound?
      {
        assert coords[..k + 1][..k] == coords[..k];
        var gridPos := coords[k];
        if gridPos !in Grids {
          grid := KeyNotFound(gridPos);
          ScanKeyNotFoundSticks(coords, k + 1, Grids, hasPosition, pos);
          return;
        }
        var g := Grids[gridPos];
        if hasPosition(g.GridPosition, pos) {
          grid := Hit(g);
        }
      }
      assert coords[..|coords|] == coords;
    }
  }

  /** After the G key, a coordinate of the box that was already queued is queued twice */
  lemma ReloadCanDuplicate(queue: seq<IVec3>, size: IVec3, c: IVec3)
    requires c in queue && InBox(c, size)
    ensures !NoDuplicates(queue + AllCoordinates(size))
  {
    AllCoordinatesSpec(size);
    var all := AllCoordinates(size);
    var i :| 0 <= i < |queue| && queue[i] == c;
    var j :| 0 <= j < |all| && all[j] == c;
    assert (queue + all)[i] == (queue + all)[|queue| + j];
  }
}
