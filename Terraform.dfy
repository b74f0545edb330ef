/**
 * The terraform tool: a spherical brush that lowers (Add) or raises
 * (Subtract) the corner densities it covers, in the chunk under the cursor
 * and, through chunk faces, in every neighbouring chunk the edit reaches,
 * then queues each edited chunk for re-meshing.
 *
 * Densities below the surface level are solid, so lowering a density adds
 * terrain: `Add` subtracts the strength and `Subtract` adds it.
 */
module Terraform {
  import opened Geometry
  import opened Sequences
  import opened Queues
  import opened Coordinates
  import VoxelCell
  import opened VoxelGenerator

  datatype TerraformMode = Add | Subtract

  /** The brush of one edit: centre, radius, strength and mode */
  datatype Brush = Brush(pos: Vec3, radius: real, strength: real, mode: TerraformMode)

  /** What the brush needs to know of a chunk */
  datatype Placement = Placement(gridPosition: IVec3, gridScale: real, cellCount: nat)

  /**
   * The scale of one cell of a chunk. `Voxel.Grid` is not part of this
   * model; its cells are taken to be scaled like those of the older chunk,
   * GridScale / CellCount.
   */
  function CellScale(pl: Placement): real
  {
    if pl.cellCount == 0 then 0.0 else pl.gridScale / pl.cellCount as real
  }

  /** The world position of corner i of cell c: chunk origin plus the cell's GetValuePos */
  function CornerWorldPos(pl: Placement, c: IVec3, i: nat): Vec3
    requires i < 8
  {
    pl.gridPosition.ToVec().Times(pl.gridScale).Plus(VoxelCell.ValuePos(c, CellScale(pl), i))
  }

  /** The corner lies strictly inside the brush (squared distance against squared radius) */
  predicate InBrush(pl: Placement, c: IVec3, i: nat, b: Brush)
    requires i < 8
  {
    b.pos.Minus(CornerWorldPos(pl, c, i)).SqrMagnitude() < b.radius * b.radius
  }

  /** One corner's density after the edit */
  function EditedValue(v: real, inside: bool, b: Brush): real
  {
    if !inside then v
    else match b.mode
      case Add => v - b.strength
      case Subtract => v + b.strength
  }

  /** The opposite mode, same centre, radius and strength */
  function Inverse(b: Brush): (r: Brush)
    ensures r.pos == b.pos && r.radius == b.radius && r.strength == b.strength && r.mode != b.mode
  {
    b.(mode := if b.mode == Add then Subtract else Add)
  }

  /**
   * Whether a corner is inside depends on positions only, never on
   * densities, so the inverse brush applied after a brush restores every
   * value; a non-negative Add never raises a value and Subtract never lowers one.
   */
  lemma InverseRestores(v: real, inside: bool, b: Brush)
    ensures EditedValue(EditedValue(v, inside, b), inside, Inverse(b)) == v
    ensures !inside ==> EditedValue(v, inside, b) == v
    ensures b.strength >= 0.0 && b.mode == Add ==> EditedValue(v, inside, b) <= v
    ensures b.strength >= 0.0 && b.mode == Subtract ==> EditedValue(v, inside, b) >= v
  {
  }

  predicate InLattice(a: array4<real>, x: int, y: int, z: int, i: int)
  {
    0 <= x < a.Length0 && 0 <= y < a.Length1 && 0 <= z < a.Length2 && 0 <= i < a.Length3
  }

  // ---------------------------------------------------------------------
  // Seam propagation

  /** Some corner among 0 .. n - 1 of cell c lies in the brush */
  predicate TouchedUpTo(pl: Placement, c: IVec3, b: Brush, n: nat)
    requires n <= 8
  {
    n > 0 && (TouchedUpTo(pl, c, b, n - 1) || InBrush(pl, c, n - 1, b))
  }

  predicate Touched(pl: Placement, c: IVec3, b: Brush)
  {
    TouchedUpTo(pl, c, b, 8)
  }

  lemma {:induction false} TouchedUpToSpec(pl: Placement, c: IVec3, b: Brush, n: nat)
    requires n <= 8
    ensures TouchedUpTo(pl, c, b, n) <==> exists i :: 0 <= i < n && InBrush(pl, c, i, b)
  {
    if n > 0 {
      TouchedUpToSpec(pl, c, b, n - 1);
    }
  }

  /**
   * The chunk coordinates a touched cell asks to refresh: per axis, the
   * chunk below when the cell is on the low face, else the chunk above when
   * it is on the high face.
   */
  function CellNeighbours(gridPosition: IVec3, c: IVec3, n: int): set<IVec3>
  {
    (if c.x == 0 then {gridPosition.Plus(IVec3(-1, 0, 0))} else if c.x == n - 1 then {gridPosition.Plus(IVec3(1, 0, 0))} else {}) +
    (if c.y == 0 then {gridPosition.Plus(IVec3(0, -1, 0))} else if c.y == n - 1 then {gridPosition.Plus(IVec3(0, 1, 0))} else {}) +
    (if c.z == 0 then {gridPosition.Plus(IVec3(0, 0, -1))} else if c.z == n - 1 then {gridPosition.Plus(IVec3(0, 0, 1))} else {})
  }

  /**
   * Every requested chunk shares a face with the edited one; it is the one
   * below along an axis exactly when the cell is on that low face, and the one
   * above exactly when the cell is on the high face and not on the low one.
   */
  lemma CellNeighboursSpec(gridPosition: IVec3, c: IVec3, n: int)
    ensures forall q :: q in CellNeighbours(gridPosition, c, n) ==> IsFaceNeighbour(gridPosition, q)
    ensures gridPosition.Plus(IVec3(-1, 0, 0)) in CellNeighbours(gridPosition, c, n) <==> c.x == 0
    ensures gridPosition.Plus(IVec3(1, 0, 0)) in CellNeighbours(gridPosition, c, n) <==> c.x != 0 && c.x == n - 1
    ensures gridPosition.Plus(IVec3(0, -1, 0)) in CellNeighbours(gridPosition, c, n) <==> c.y == 0
    ensures gridPosition.Plus(IVec3(0, 1, 0)) in CellNeighbours(gridPosition, c, n) <==> c.y != 0 && c.y == n - 1
    ensures gridPosition.Plus(IVec3(0, 0, -1)) in CellNeighbours(gridPosition, c, n) <==> c.z == 0
    ensures gridPosition.Plus(IVec3(0, 0, 1)) in CellNeighbours(gridPosition, c, n) <==> c.z != 0 && c.z == n - 1
  {
  }

  /** The refresh set after the cells of `cells` have been edited */
  function RefreshOf(pl: Placement, b: Brush, cells: seq<IVec3>): set<IVec3>
    decreases |cells|
  {
    if cells == [] then {}
    else
      var c := cells[|cells| - 1];
      RefreshOf(pl, b, cells[..|cells| - 1]) +
        if Touched(pl, c, b) then CellNeighbours(pl.gridPosition, c, pl.cellCount) else {}
  }

  /** The cells of a chunk, in the order its walk visits them */
  function ChunkCells(pl: Placement): seq<IVec3>
  {
    AllCoordinates(IVec3(pl.cellCount, pl.cellCount, pl.cellCount))
  }

  /** The coordinates one chunk's edit asks to refresh */
  function ToRefresh(pl: Placement, b: Brush): set<IVec3>
  {
    RefreshOf(pl, b, ChunkCells(pl))
  }

  /** A coordinate is requested exactly when some touched cell requests it */
  lemma {:induction false} RefreshOfSpec(pl: Placement, b: Brush, cells: seq<IVec3>)
    ensures forall q :: q in RefreshOf(pl, b, cells) <==>
      exists j :: 0 <= j < |cells| && Touched(pl, cells[j], b) && q in CellNeighbours(pl.gridPosition, cells[j], pl.cellCount)
    decreases |cells|
  {
    if cells != [] {
      var init := cells[..|cells| - 1];
      RefreshOfSpec(pl, b, init);
      forall q | q in RefreshOf(pl, b, cells)
        ensures exists j :: 0 <= j < |cells| && Touched(pl, cells[j], b) && q in CellNeighbours(pl.gridPosition, cells[j], pl.cellCount)
      {
        if q in RefreshOf(pl, b, init) {
          var j :| 0 <= j < |init| && Touched(pl, init[j], b) && q in CellNeighbours(pl.gridPosition, init[j], pl.cellCount);
          assert cells[j] == init[j];
        }
      }
      forall q, j | 0 <= j < |cells| && Touched(pl, cells[j], b) && q in CellNeighbours(pl.gridPosition, cells[j], pl.cellCount)
        ensures q in RefreshOf(pl, b, cells)
      {
        if j < |init| {
          assert cells[j] == init[j];
        }
      }
    }
  }

  /** Every coordinate an edit asks to refresh is a face neighbour of the edited chunk */
  lemma ToRefreshAreFaceNeighbours(pl: Placement, b: Brush)
    ensures forall q :: q in ToRefresh(pl, b) ==> IsFaceNeighbour(pl.gridPosition, q)
  {
    RefreshOfSpec(pl, b, ChunkCells(pl));
    forall q | q in ToRefresh(pl, b) ensures IsFaceNeighbour(pl.gridPosition, q) {
      var cells := ChunkCells(pl);
      var j :| 0 <= j < |cells| && Touched(pl, cells[j], b) && q in CellNeighbours(pl.gridPosition, cells[j], pl.cellCount);
      CellNeighboursSpec(pl.gridPosition, cells[j], pl.cellCount);
    }
  }

  /** A chunk whose brush reaches no corner edits nothing and requests nothing */
  lemma {:induction false} UntouchedRequestsNothing(pl: Placement, b: Brush, cells: seq<IVec3>)
    requires forall j :: 0 <= j < |cells| ==> !Touched(pl, cells[j], b)
    ensures RefreshOf(pl, b, cells) == {}
    decreases |cells|
  {
    if cells != [] {
      UntouchedRequestsNothing(pl, b, cells[..|cells| - 1]);
    }
  }

  function PlacementOf(grid: Chunk): Placement
    reads grid
  {
    Placement(grid.GridPosition, grid.GridScale, grid.Data.CellCount)
  }

  /** The cells `ForeachCoordinate` walks in a chunk of n^3 cells: each cell of the cube, once */
  lemma CellWalk(n: nat)
    ensures forall c :: c in AllCoordinates(IVec3(n, n, n)) <==> InBox(c, IVec3(n, n, n))
    ensures NoDuplicates(AllCoordinates(IVec3(n, n, n)))
  {
    AllCoordinatesSpec(IVec3(n, n, n));
  }

  /** Every density of `c` went through the brush */
  twostate predicate BrushApplied(c: Chunk, b: Brush)
    reads c, c.densities
  {
    forall x, y, z, i :: InLattice(c.densities, x, y, z, i) && i < 8 ==>
      c.densities[x, y, z, i] == EditedValue(old(c.densities[x, y, z, i]), InBrush(PlacementOf(c), IVec3(x, y, z), i, b), b)
  }

  /**
   * The densities of every chunk of `grids` went through the brush exactly
   * when the chunk's coordinate is in `edited`, and are unchanged otherwise.
   */
  twostate predicate ChunksEdited(grids: map<IVec3, Chunk>, edited: seq<IVec3>, b: Brush)
    reads grids.Values, ArraysOf(grids)
  {
    forall k, x, y, z, i :: k in grids && InLattice(grids[k].densities, x, y, z, i) && i < 8 ==>
      grids[k].densities[x, y, z, i] ==
        EditedValue(old(grids[k].densities[x, y, z, i]), k in edited && InBrush(PlacementOf(grids[k]), IVec3(x, y, z), i, b), b)
  }

  /** `f` has the dimensions of the array `a` */
  ghost predicate Fits(f: Field, a: array4<real>)
  {
    |f| == a.Length0 &&
    forall x :: 0 <= x < |f| ==>
      (|f[x]| == a.Length1 &&
       forall y :: 0 <= y < |f[x]| ==>
         (|f[x][y]| == a.Length2 &&
          forall z :: 0 <= z < |f[x][y]| ==> |f[x][y][z]| == a.Length3))
  }

  /**
   * A recursive edit in progress, against `pristine`, the densities every
   * chunk had when the edit began: a chunk has gone through the brush
   * exactly when its coordinate is in `edited`.
   */
  ghost predicate Progress(grids: map<IVec3, Chunk>, pristine: map<IVec3, Field>, edited: seq<IVec3>, b: Brush)
    reads grids.Values, ArraysOf(grids)
  {
    (forall k :: k in grids ==> k in pristine && Fits(pristine[k], grids[k].densities)) &&
    forall k, x, y, z, i :: k in grids && InLattice(grids[k].densities, x, y, z, i) && i < 8 ==>
      grids[k].densities[x, y, z, i] ==
        EditedValue(pristine[k][x][y][z][i], k in edited && InBrush(PlacementOf(grids[k]), IVec3(x, y, z), i, b), b)
  }

  /** The densities of every chunk, as values */
  ghost function Snapshot(grids: map<IVec3, Chunk>): (r: map<IVec3, Field>)
    reads grids.Values, ArraysOf(grids)
    ensures r.Keys == grids.Keys
  {
    map k | k in grids :: grids[k].Field()
  }

  /** Before anything is edited, the snapshot is the edit's starting point */
  /** A chunk's densities as values have its lattice's shape and hold its values */
  lemma FieldMatches(c: Chunk)
    ensures Fits(c.Field(), c.densities)
    ensures forall x, y, z, i :: InLattice(c.densities, x, y, z, i) ==> c.Field()[x][y][z][i] == c.densities[x, y, z, i]
  {
  }

  lemma SnapshotStartsProgress(grids: map<IVec3, Chunk>, b: Brush)
    ensures Progress(grids, Snapshot(grids), [], b)
  {
    var pristine := Snapshot(grids);
    forall k | k in grids
      ensures k in pristine && Fits(pristine[k], grids[k].densities)
      ensures forall x, y, z, i :: InLattice(grids[k].densities, x, y, z, i) ==> pristine[k][x][y][z][i] == grids[k].densities[x, y, z, i]
    {
      assert pristine[k] == grids[k].Field();
      FieldMatches(grids[k]);
    }
  }

  /** An edit that progressed from a snapshot of the old state edited the chunks it lists */
  twostate lemma ProgressIsEdit(grids: map<IVec3, Chunk>, edited: seq<IVec3>, b: Brush)
    requires Progress(grids, old(Snapshot(grids)), edited, b)
    ensures ChunksEdited(grids, edited, b)
  {
    var pristine := old(Snapshot(grids));
    forall k, x, y, z, i | k in grids && InLattice(grids[k].densities, x, y, z, i) && i < 8
      ensures pristine[k][x][y][z][i] == old(grids[k].densities[x, y, z, i])
    {
      assert pristine[k] == old(grids[k].Field());
    }
  }

  /** The boundary tests of one touched corner, adding to the refresh set */
  method RequestNeighbours(gridPosition: IVec3, cellPos: IVec3, n: int, toRefresh: set<IVec3>) returns (toRefresh': set<IVec3>)
    ensures toRefresh' == toRefresh + CellNeighbours(gridPosition, cellPos, n)
  {
    toRefresh' := toRefresh;
    if cellPos.x == 0 {
      toRefresh' := toRefresh' + {gridPosition.Plus(IVec3(-1, 0, 0))};
    } else if cellPos.x == n - 1 {
      toRefresh' := toRefresh' + {gridPosition.Plus(IVec3(1, 0, 0))};
    }
    if cellPos.y == 0 {
      toRefresh' := toRefresh' + {gridPosition.Plus(IVec3(0, -1, 0))};
    } else if cellPos.y == n - 1 {
      toRefresh' := toRefresh' + {gridPosition.Plus(IVec3(0, 1, 0))};
    }
    if cellPos.z == 0 {
      toRefresh' := toRefresh' + {gridPosition.Plus(IVec3(0, 0, -1))};
    } else if cellPos.z == n - 1 {
      toRefresh' := toRefresh' + {gridPosition.Plus(IVec3(0, 0, 1))};
    }
  }

  /**
   * Entering a chunk that is not yet ignored leaves fewer chunks to enter:
   * the measure the recursion decreases.
   */
  lemma VisitShrinks(keys: set<IVec3>, before: set<IVec3>, now: set<IVec3>, origin: IVec3, next: IVec3)
    requires before + {origin} <= now && origin in keys
    ensures |keys - now| <= |keys - before|
    ensures origin !in before ==> |keys - now| < |keys - before|
  {
    SubsetCardinality(keys - now, keys - before);
    if origin !in before {
      assert origin in keys - before && origin !in keys - now;
    }
  }

  /**
   * The bookkeeping of one call: its own chunk first in the visiting order and
   * last in the refresh order, after everything the recursion added.
   */
  lemma CallBookkeeping(ignored: seq<IVec3>, gp: IVec3, vs: seq<IVec3>, cs: seq<IVec3>, q: seq<IVec3>, keys: set<IVec3>)
    requires NoDuplicates(vs) && gp !in ignored && gp in keys
    requires forall v :: v in vs ==> v !in ignored + [gp] && v in keys
    requires multiset(cs) == multiset(vs)
    ensures ignored + [gp] + vs == ignored + ([gp] + vs)
    ensures NoDuplicates([gp] + vs)
    ensures forall v :: v in [gp] + vs ==> v !in ignored && v in keys
    ensures EnqueueAbsent(EnqueueAllAbsent(q, cs), gp) == EnqueueAllAbsent(q, cs + [gp])
    ensures multiset(cs + [gp]) == multiset([gp] + vs)
  {
    ConcatAssociative(ignored, [gp], vs);
    NoDuplicatesConcat([gp], vs);
    EnqueueAllAbsentConcat(q, cs, [gp]);
    EnqueueAllAbsentSingle(EnqueueAllAbsent(q, cs), gp);
    forall v | v in [gp] + vs ensures v !in ignored && v in keys {
      if v != gp {
        assert v in vs;
      }
    }
  }

  /**
   * Every chunk refresh request of the visited chunks names a chunk that is
   * ignored by now or does not exist: the visit is closed under requests.
   */
  ghost predicate Closed(grids: map<IVec3, Chunk>, visited: seq<IVec3>, ignored: seq<IVec3>, b: Brush)
    reads grids.Values
  {
    forall v, q :: v in visited && v in grids && q in ToRefresh(PlacementOf(grids[v]), b) ==> q in ignored || q !in grids
  }

  lemma ClosedCons(grids: map<IVec3, Chunk>, gp: IVec3, vs: seq<IVec3>, ignored: seq<IVec3>, b: Brush)
    requires Closed(grids, vs, ignored, b)
    requires gp in grids ==> forall q :: q in ToRefresh(PlacementOf(grids[gp]), b) ==> q in ignored || q !in grids
    ensures Closed(grids, [gp] + vs, ignored, b)
  {
    forall v, q | v in [gp] + vs && v in grids && q in ToRefresh(PlacementOf(grids[v]), b)
      ensures q in ignored || q !in grids
    {
      if v != gp {
        assert v in vs;
      }
    }
  }

  lemma ClosedConcat(grids: map<IVec3, Chunk>, vs: seq<IVec3>, more: seq<IVec3>, before: seq<IVec3>, ignored: seq<IVec3>, b: Brush)
    requires Closed(grids, vs, before, b) && Closed(grids, more, ignored, b)
    requires forall q :: q in before ==> q in ignored
    ensures Closed(grids, vs + more, ignored, b)
  {
    forall v, q | v in vs + more && v in grids && q in ToRefresh(PlacementOf(grids[v]), b)
      ensures q in ignored || q !in grids
    {
      if v !in more {
        assert v in vs;
      }
    }
  }

  /**
   * What the chunk at each of `keys` asks to refresh when the brush reaches
   * it, for chunks of the given scale and cell count.
   */
  ghost function Requests(keys: set<IVec3>, gridScale: real, cellCount: nat, b: Brush): (r: map<IVec3, set<IVec3>>)
    ensures r.Keys == keys
    ensures forall k :: k in keys ==> r[k] == ToRefresh(Placement(k, gridScale, cellCount), b)
  {
    map k | k in keys :: ToRefresh(Placement(k, gridScale, cellCount), b)
  }

  /**
   * Each chunk of `vs` is named by `sources` or requested by a chunk that
   * comes before it in `vs`: nothing is entered that no edit asked for.
   */
  ghost predicate Requested(req: map<IVec3, set<IVec3>>, sources: set<IVec3>, vs: seq<IVec3>)
  {
    forall j :: 0 <= j < |vs| ==>
      vs[j] in sources || exists i :: 0 <= i < j && vs[i] in req && vs[j] in req[vs[i]]
  }

  /**
   * The visiting order of an edit from `origin`: the origin first, then only
   * chunks requested by a chunk visited before them.
   */
  ghost predicate Reached(req: map<IVec3, set<IVec3>>, origin: IVec3, visited: seq<IVec3>)
  {
    |visited| > 0 && visited[0] == origin &&
    forall j :: 0 < j < |visited| ==> RequestedBefore(req, visited, j)
  }

  /** Entry j of `vs` is requested by an entry before it */
  ghost predicate RequestedBefore(req: map<IVec3, set<IVec3>>, vs: seq<IVec3>, j: int)
    requires 0 <= j < |vs|
  {
    exists i :: 0 <= i < j && vs[i] in req && vs[j] in req[vs[i]]
  }

  /** The origin, followed by chunks requested by the origin or by chunks after it */
  lemma ReachedCons(req: map<IVec3, set<IVec3>>, origin: IVec3, vs: seq<IVec3>)
    requires origin in req && Requested(req, req[origin], vs)
    ensures Reached(req, origin, [origin] + vs)
  {
    var visited := [origin] + vs;
    forall j | 0 < j < |visited|
      ensures RequestedBefore(req, visited, j)
    {
      assert visited[j] == vs[j - 1];
      if vs[j - 1] in req[origin] {
        assert visited[0] == origin;
      } else {
        var i :| 0 <= i < j - 1 && vs[i] in req && vs[j - 1] in req[vs[i]];
        assert visited[i + 1] == vs[i];
      }
    }
  }

  /** An edit entered from one of the sources extends a requested sequence */
  lemma RequestedConcat(req: map<IVec3, set<IVec3>>, sources: set<IVec3>, vs: seq<IVec3>, origin: IVec3, more: seq<IVec3>)
    requires Requested(req, sources, vs) && origin in sources && Reached(req, origin, more)
    ensures Requested(req, sources, vs + more)
  {
    var all := vs + more;
    forall j | 0 <= j < |all|
      ensures all[j] in sources || exists i :: 0 <= i < j && all[i] in req && all[j] in req[all[i]]
    {
      if j < |vs| {
        assert all[j] == vs[j];
        if vs[j] !in sources {
          var i :| 0 <= i < j && vs[i] in req && vs[j] in req[vs[i]];
          assert all[i] == vs[i];
        }
      } else {
        var k := j - |vs|;
        assert all[j] == more[k];
        if k > 0 {
          assert RequestedBefore(req, more, k);
          var i :| 0 <= i < k && more[i] in req && more[k] in req[more[i]];
          assert all[|vs| + i] == more[i];
        }
      }
    }
  }

  /** Whether a corner is inside depends on the brush's centre and radius only */
  lemma InBrushIgnoresMode(pl: Placement, c: IVec3, i: nat, b: Brush, b': Brush)
    requires i < 8 && b'.pos == b.pos && b'.radius == b.radius
    ensures InBrush(pl, c, i, b') == InBrush(pl, c, i, b)
  {
  }

  /** So which corners of a cell a brush reaches depends on its centre and radius only, never on its mode or strength */
  lemma {:induction false} TouchedUpToIgnoresMode(pl: Placement, c: IVec3, b: Brush, b': Brush, n: nat)
    requires n <= 8 && b'.pos == b.pos && b'.radius == b.radius
    ensures TouchedUpTo(pl, c, b', n) == TouchedUpTo(pl, c, b, n)
  {
    if n > 0 {
      TouchedUpToIgnoresMode(pl, c, b, b', n - 1);
    }
  }

  /** So what a chunk asks to refresh depends on the brush's centre and radius only */
  lemma {:induction false} RefreshOfIgnoresMode(pl: Placement, b: Brush, b': Brush, cells: seq<IVec3>)
    requires b'.pos == b.pos && b'.radius == b.radius
    ensures RefreshOf(pl, b', cells) == RefreshOf(pl, b, cells)
    decreases |cells|
  {
    if cells != [] {
      RefreshOfIgnoresMode(pl, b, b', cells[..|cells| - 1]);
      TouchedUpToIgnoresMode(pl, cells[|cells| - 1], b, b', 8);
    }
  }

  /** The inverse brush makes every chunk ask for the same refreshes */
  lemma RequestsOfInverse(keys: set<IVec3>, gridScale: real, cellCount: nat, b: Brush)
    ensures Requests(keys, gridScale, cellCount, Inverse(b)) == Requests(keys, gridScale, cellCount, b)
  {
    forall k | k in keys
      ensures ToRefresh(Placement(k, gridScale, cellCount), Inverse(b)) == ToRefresh(Placement(k, gridScale, cellCount), b)
    {
      var pl := Placement(k, gridScale, cellCount);
      RefreshOfIgnoresMode(pl, b, Inverse(b), ChunkCells(pl));
    }
  }

  /**
   * `mid` is `pristine` after an edit with `b` over the chunks of `edited`:
   * both have the shape of every chunk's lattice, and `mid` holds exactly
   * the brushed values, chunk by chunk and corner by corner.
   */
  ghost predicate EditedFrom(grids: map<IVec3, Chunk>, pristine: map<IVec3, Field>, mid: map<IVec3, Field>, edited: seq<IVec3>, b: Brush)
    reads grids.Values
  {
    (forall k :: k in grids ==>
      k in pristine && k in mid && Fits(pristine[k], grids[k].densities) && Fits(mid[k], grids[k].densities)) &&
    forall k, x, y, z, i :: k in grids && InLattice(grids[k].densities, x, y, z, i) && i < 8 ==>
      mid[k][x][y][z][i] == EditedValue(pristine[k][x][y][z][i], k in edited && InBrush(PlacementOf(grids[k]), IVec3(x, y, z), i, b), b)
  }

  /** A recursive edit's progress, recorded as the values it produced */
  lemma ProgressRecorded(grids: map<IVec3, Chunk>, pristine: map<IVec3, Field>, edited: seq<IVec3>, b: Brush)
    requires Progress(grids, pristine, edited, b)
    ensures EditedFrom(grids, pristine, Snapshot(grids), edited, b)
  {
    forall k | k in grids
      ensures Fits(Snapshot(grids)[k], grids[k].densities)
      ensures forall x, y, z, i :: InLattice(grids[k].densities, x, y, z, i) ==>
        Snapshot(grids)[k][x][y][z][i] == grids[k].densities[x, y, z, i]
    {
      assert Snapshot(grids)[k] == grids[k].Field();
      FieldMatches(grids[k]);
    }
  }

  /**
   * Densities `mid` that an edit with `b` over the chunks of `e1` made from
   * `pristine`, then an edit with the inverse brush over the same chunks
   * starting from `mid`: every density is back at its `pristine` value.
   */
  lemma EditThenInverse(grids: map<IVec3, Chunk>, pristine: map<IVec3, Field>, mid: map<IVec3, Field>, b: Brush, e1: seq<IVec3>, e2: seq<IVec3>)
    requires EditedFrom(grids, pristine, mid, e1, b)
    requires Progress(grids, mid, e2, Inverse(b))
    requires forall v :: v in e1 <==> v in e2
    ensures forall k, x, y, z, i :: k in grids && InLattice(grids[k].densities, x, y, z, i) && i < 8 ==>
      grids[k].densities[x, y, z, i] == pristine[k][x][y][z][i]
    ensures Progress(grids, pristine, [], b)
  {
    forall k, x, y, z, i | k in grids && InLattice(grids[k].densities, x, y, z, i) && i < 8
      ensures grids[k].densities[x, y, z, i] == pristine[k][x][y][z][i]
    {
      var pl, c := PlacementOf(grids[k]), IVec3(x, y, z);
      var inside := k in e1 && InBrush(pl, c, i, b);
      InBrushIgnoresMode(pl, c, i, b, Inverse(b));
      assert k in e2 <==> k in e1;
      assert grids[k].densities[x, y, z, i] == EditedValue(mid[k][x][y][z][i], inside, Inverse(b));
      InverseRestores(pristine[k][x][y][z][i], inside, b);
    }
  }

  /** Every existing chunk that a chunk of `edited` requests is in `edited` too */
  ghost predicate ClosedUnder(req: map<IVec3, set<IVec3>>, keys: set<IVec3>, edited: seq<IVec3>)
  {
    forall v, q :: v in edited && v in req && q in req[v] && q in keys ==> q in edited
  }

  lemma {:induction false} ReachedEntryWithin(req: map<IVec3, set<IVec3>>, keys: set<IVec3>, origin: IVec3,
                                              visited: seq<IVec3>, other: seq<IVec3>, j: nat)
    requires Reached(req, origin, visited) && Reached(req, origin, other)
    requires ClosedUnder(req, keys, other) && forall v :: v in visited ==> v in keys
    requires j < |visited|
    ensures visited[j] in other
    decreases j
  {
    if j > 0 {
      assert RequestedBefore(req, visited, j);
      var i :| 0 <= i < j && visited[i] in req && visited[j] in req[visited[i]];
      ReachedEntryWithin(req, keys, origin, visited, other, i);
    }
  }

  /**
   * Two edits from the same origin, each reaching chunks through requests
   * only and each closed under requests, edit the same chunks: the edited
   * set is fixed by the origin and the requests.
   */
  lemma SameReachedSet(req: map<IVec3, set<IVec3>>, keys: set<IVec3>, origin: IVec3, e1: seq<IVec3>, e2: seq<IVec3>)
    requires Reached(req, origin, e1) && Reached(req, origin, e2)
    requires ClosedUnder(req, keys, e1) && ClosedUnder(req, keys, e2)
    requires (forall v :: v in e1 ==> v in keys) && (forall v :: v in e2 ==> v in keys)
    ensures forall v :: v in e1 <==> v in e2
  {
    forall j | 0 <= j < |e1| ensures e1[j] in e2 {
      ReachedEntryWithin(req, keys, origin, e1, e2, j);
    }
    forall j | 0 <= j < |e2| ensures e2[j] in e1 {
      ReachedEntryWithin(req, keys, origin, e2, e1, j);
    }
  }

  class TerraformTool {
    const gridGenerator: GridGenerator
    /** The chunks already edited by the current top-level edit */
    var ignoreGrids: seq<IVec3>

    /** The refresh requests of the manager's chunks, which all share its scale and cell count */
    ghost function RequestMap(b: Brush): map<IVec3, set<IVec3>>
      reads gridGenerator
    {
      Requests(gridGenerator.Grids.Keys, gridGenerator.gridScale, gridGenerator.cellCount, b)
    }

    constructor (gridGenerator: GridGenerator)
      ensures this.gridGenerator == gridGenerator && ignoreGrids == []
    {
      this.gridGenerator := gridGenerator;
      ignoreGrids := [];
    }

    /**
     * The walk over one chunk's cells: every corner strictly inside the
     * brush is edited in place, every other value is left as it was, and the
     * returned set is the chunk's refresh request.
     */
    method EditGrid(grid: Chunk, b: Brush) returns (toRefresh: set<IVec3>)
      requires grid.Valid()
      modifies grid.densities
      ensures toRefresh == ToRefresh(PlacementOf(grid), b)
      ensures BrushApplied(grid, b)
    {
      var n := grid.Data.CellCount;
      var cells := AllCoordinates(IVec3(n, n, n));
      CellWalk(n);
      toRefresh := {};
      for k := 0 to |cells|
        invariant toRefresh == RefreshOf(PlacementOf(grid), b, cells[..k])
        invariant forall x, y, z, i :: InLattice(grid.densities, x, y, z, i) ==>
          grid.densities[x, y, z, i] == EditedValue(old(grid.densities[x, y, z, i]),
            IVec3(x, y, z) in cells[..k] && InBrush(PlacementOf(grid), IVec3(x, y, z), i, b), b)
      {
        var cellPos := cells[k];
        assert cells[..k + 1] == cells[..k] + [cellPos];
        assert forall j :: 0 <= j < k ==> cells[..k][j] != cellPos;
        toRefresh := EditCell(grid, cellPos, b, toRefresh);
      }
      assert cells[..|cells|] == cells;
    }

    /**
     * The action applied to one cell: each of its corners inside the brush
     * is edited, and each such corner adds the cell's neighbour requests.
     */
    method EditCell(grid: Chunk, cellPos: IVec3, b: Brush, toRefresh: set<IVec3>) returns (toRefresh': set<IVec3>)
      requires grid.Valid()
      requires InBox(cellPos, IVec3(grid.Data.CellCount, grid.Data.CellCount, grid.Data.CellCount))
      modifies grid.densities
      ensures toRefresh' == toRefresh +
        if Touched(PlacementOf(grid), cellPos, b) then CellNeighbours(grid.GridPosition, cellPos, grid.Data.CellCount) else {}
      ensures forall x, y, z, j :: InLattice(grid.densities, x, y, z, j) && IVec3(x, y, z) != cellPos ==>
        grid.densities[x, y, z, j] == old(grid.densities[x, y, z, j])
      ensures forall j :: 0 <= j < 8 ==>
        grid.densities[cellPos.x, cellPos.y, cellPos.z, j] ==
          EditedValue(old(grid.densities[cellPos.x, cellPos.y, cellPos.z, j]), InBrush(PlacementOf(grid), cellPos, j, b), b)
    {
      var n := grid.Data.CellCount;
      var pl := PlacementOf(grid);
      toRefresh' := toRefresh;
      for i := 0 to 8
        invariant toRefresh' == if TouchedUpTo(pl, cellPos, b, i) then toRefresh + CellNeighbours(pl.gridPosition, cellPos, n) else toRefresh
        invariant forall x, y, z, j :: InLattice(grid.densities, x, y, z, j) && IVec3(x, y, z) != cellPos ==>
          grid.densities[x, y, z, j] == old(grid.densities[x, y, z, j])
        invariant forall j :: 0 <= j < i ==>
          grid.densities[cellPos.x, cellPos.y, cellPos.z, j] ==
            EditedValue(old(grid.densities[cellPos.x, cellPos.y, cellPos.z, j]), InBrush(pl, cellPos, j, b), b)
        invariant forall j :: i <= j < 8 ==>
          grid.densities[cellPos.x, cellPos.y, cellPos.z, j] == old(grid.densities[cellPos.x, cellPos.y, cellPos.z, j])
      {
        var valuePos := CornerWorldPos(pl, cellPos, i);
        var distanceSqrt := b.pos.Minus(valuePos).SqrMagnitude();
        assert InBrush(pl, cellPos, i, b) == (distanceSqrt < b.radius * b.radius);
        assert TouchedUpTo(pl, cellPos, b, i + 1) == (TouchedUpTo(pl, cellPos, b, i) || InBrush(pl, cellPos, i, b));
        if distanceSqrt < b.radius * b.radius {
          match b.mode {
            case Add =>
              grid.densities[cellPos.x, cellPos.y, cellPos.z, i] := grid.densities[cellPos.x, cellPos.y, cellPos.z, i] - b.strength;
            case Subtract =>
              grid.densities[cellPos.x, cellPos.y, cellPos.z, i] := grid.densities[cellPos.x, cellPos.y, cellPos.z, i] + b.strength;
          }
          toRefresh' := RequestNeighbours(grid.GridPosition, cellPos, n, toRefresh');
        }
      }
    }

    /**
     * The edit of one chunk and, through its faces, of every existing
     * neighbour it asks for that is not yet ignored, depth first; every
     * visited coordinate is queued for rebuilding after its neighbours.
     *
     * `visited` lists the chunks edited, in the order they were entered
     * (the order they join `ignoreGrids`); `calls` lists the coordinates
     * passed to `RefreshGrid`, in call order. The densities are tracked
     * against `pristine`, the values before the top-level edit began.
     */
    method Terraform(grid: Chunk, b: Brush, ghost pristine: map<IVec3, Field>) returns (ghost visited: seq<IVec3>, ghost calls: seq<IVec3>)
      requires gridGenerator.Valid()
      requires grid.GridPosition in gridGenerator.Grids && gridGenerator.Grids[grid.GridPosition] == grid
      requires grid.GridPosition !in ignoreGrids
      requires Progress(gridGenerator.Grids, pristine, ignoreGrids, b)
      modifies this, gridGenerator, gridGenerator.Arrays()
      decreases |gridGenerator.Grids.Keys - Elements(ignoreGrids)|, 0
      ensures gridGenerator.Grids == old(gridGenerator.Grids)
      ensures gridGenerator.Valid()
      ensures ignoreGrids == old(ignoreGrids) + visited
      ensures |visited| > 0 && visited[0] == grid.GridPosition
      ensures NoDuplicates(visited)
      ensures forall v :: v in visited ==> v !in old(ignoreGrids) && v in gridGenerator.Grids
      ensures Progress(gridGenerator.Grids, pristine, ignoreGrids, b)
      ensures Closed(gridGenerator.Grids, visited, ignoreGrids, b)
      ensures gridGenerator.refreshQueue == EnqueueAllAbsent(old(gridGenerator.refreshQueue), calls)
      ensures multiset(calls) == multiset(visited)
      ensures |calls| > 0 && calls[|calls| - 1] == grid.GridPosition
      ensures Reached(RequestMap(b), grid.GridPosition, visited)
    {
      var toRefresh := EditAndIgnore(grid, b, pristine);
      VisitShrinks(gridGenerator.Grids.Keys, Elements(old(ignoreGrids)), Elements(ignoreGrids), grid.GridPosition, grid.GridPosition);
      visited, calls := SpreadAndRefresh(grid.GridPosition, toRefresh, b, pristine, old(ignoreGrids));
    }

    /**
     * The recursion into the neighbours of the chunk just edited, then that
     * chunk's refresh; `before` is `ignoreGrids` as the call found it.
     */
    method SpreadAndRefresh(gridPos: IVec3, toRefresh: set<IVec3>, b: Brush, ghost pristine: map<IVec3, Field>, ghost before: seq<IVec3>)
      returns (ghost visited: seq<IVec3>, ghost calls: seq<IVec3>)
      requires gridGenerator.Valid()
      requires gridPos in gridGenerator.Grids && toRefresh == ToRefresh(PlacementOf(gridGenerator.Grids[gridPos]), b)
      requires gridPos !in before && ignoreGrids == before + [gridPos]
      requires Progress(gridGenerator.Grids, pristine, ignoreGrids, b)
      modifies this, gridGenerator, gridGenerator.Arrays()
      decreases |gridGenerator.Grids.Keys - Elements(ignoreGrids)|, 3
      ensures gridGenerator.Grids == old(gridGenerator.Grids)
      ensures gridGenerator.Valid()
      ensures ignoreGrids == before + visited
      ensures |visited| > 0 && visited[0] == gridPos
      ensures NoDuplicates(visited)
      ensures forall v :: v in visited ==> v !in before && v in gridGenerator.Grids
      ensures Progress(gridGenerator.Grids, pristine, ignoreGrids, b)
      ensures Closed(gridGenerator.Grids, visited, ignoreGrids, b)
      ensures gridGenerator.refreshQueue == EnqueueAllAbsent(old(gridGenerator.refreshQueue), calls)
      ensures multiset(calls) == multiset(visited)
      ensures |calls| > 0 && calls[|calls| - 1] == gridPos
      ensures Reached(RequestMap(b), gridPos, visited)
    {
      ghost var vs: seq<IVec3>, cs: seq<IVec3>;
      vs, cs := VisitAll(toRefresh, b, pristine);
      ClosedCons(gridGenerator.Grids, gridPos, vs, ignoreGrids, b);
      assert RequestMap(b)[gridPos] == toRefresh;
      ReachedCons(RequestMap(b), gridPos, vs);
      visited := [gridPos] + vs;
      RefreshOwn(gridPos, b, pristine, visited);
      CallBookkeeping(before, gridPos, vs, cs, old(gridGenerator.refreshQueue), gridGenerator.Grids.Keys);
      calls := cs + [gridPos];
      assert |calls| == |cs| + 1 && calls[|cs|] == gridPos;
    }

    /** `gridGenerator.RefreshGrid` on the chunk just edited, which touches nothing the edit tracks */
    method RefreshOwn(gridPos: IVec3, b: Brush, ghost pristine: map<IVec3, Field>, ghost visited: seq<IVec3>)
      requires gridGenerator.Valid()
      requires Progress(gridGenerator.Grids, pristine, ignoreGrids, b)
      requires Closed(gridGenerator.Grids, visited, ignoreGrids, b)
      modifies gridGenerator
      ensures gridGenerator.Grids == old(gridGenerator.Grids)
      ensures gridGenerator.Valid()
      ensures Progress(gridGenerator.Grids, pristine, ignoreGrids, b)
      ensures Closed(gridGenerator.Grids, visited, ignoreGrids, b)
      ensures gridGenerator.refreshQueue == EnqueueAbsent(old(gridGenerator.refreshQueue), gridPos)
    {
      gridGenerator.RefreshGrid(gridPos);
    }

    /** The edit of one chunk, and its coordinate added to `ignoreGrids` */
    method EditAndIgnore(grid: Chunk, b: Brush, ghost pristine: map<IVec3, Field>) returns (toRefresh: set<IVec3>)
      requires gridGenerator.Valid()
      requires grid.GridPosition in gridGenerator.Grids && gridGenerator.Grids[grid.GridPosition] == grid
      requires grid.GridPosition !in ignoreGrids
      requires Progress(gridGenerator.Grids, pristine, ignoreGrids, b)
      modifies this, grid.densities
      ensures toRefresh == ToRefresh(PlacementOf(grid), b)
      ensures ignoreGrids == old(ignoreGrids) + [grid.GridPosition]
      ensures Progress(gridGenerator.Grids, pristine, ignoreGrids, b)
    {
      toRefresh := EditGrid(grid, b);
      ghost var grids := gridGenerator.Grids;
      var edited := ignoreGrids + [grid.GridPosition];
      forall k, x, y, z, i | k in grids && InLattice(grids[k].densities, x, y, z, i) && i < 8
        ensures grids[k].densities[x, y, z, i] ==
          EditedValue(pristine[k][x][y][z][i], k in edited && InBrush(PlacementOf(grids[k]), IVec3(x, y, z), i, b), b)
      {
        assert old(grids[k].densities[x, y, z, i]) ==
          EditedValue(pristine[k][x][y][z][i], k in ignoreGrids && InBrush(PlacementOf(grids[k]), IVec3(x, y, z), i, b), b);
        if k != grid.GridPosition {
          assert grids[k].densities != grid.densities;
        }
      }
      ignoreGrids := edited;
    }

    /** The loop over one chunk's refresh set, in an order left open */
    method VisitAll(toRefresh: set<IVec3>, b: Brush, ghost pristine: map<IVec3, Field>) returns (ghost vs: seq<IVec3>, ghost cs: seq<IVec3>)
      requires gridGenerator.Valid()
      requires Progress(gridGenerator.Grids, pristine, ignoreGrids, b)
      modifies this, gridGenerator, gridGenerator.Arrays()
      decreases |gridGenerator.Grids.Keys - Elements(ignoreGrids)|, 2
      ensures gridGenerator.Grids == old(gridGenerator.Grids)
      ensures gridGenerator.Valid()
      ensures ignoreGrids == old(ignoreGrids) + vs
      ensures NoDuplicates(vs)
      ensures forall v :: v in vs ==> v !in old(ignoreGrids) && v in gridGenerator.Grids
      ensures forall q :: q in toRefresh ==> q in ignoreGrids || q !in gridGenerator.Grids
      ensures Progress(gridGenerator.Grids, pristine, ignoreGrids, b)
      ensures Closed(gridGenerator.Grids, vs, ignoreGrids, b)
      ensures gridGenerator.refreshQueue == EnqueueAllAbsent(old(gridGenerator.refreshQueue), cs)
      ensures multiset(cs) == multiset(vs)
      ensures Requested(RequestMap(b), toRefresh, vs)
    {
      vs, cs := [], [];
      var remaining := toRefresh;
      while remaining != {}
        decreases remaining
        invariant remaining <= toRefresh
        invariant gridGenerator.Grids == old(gridGenerator.Grids)
        invariant gridGenerator.Valid()
        invariant ignoreGrids == old(ignoreGrids) + vs
        invariant NoDuplicates(vs)
        invariant forall v :: v in vs ==> v !in old(ignoreGrids) && v in gridGenerator.Grids
        invariant forall q :: q in toRefresh && q !in remaining ==> q in ignoreGrids || q !in gridGenerator.Grids
        invariant Progress(gridGenerator.Grids, pristine, ignoreGrids, b)
        invariant Closed(gridGenerator.Grids, vs, ignoreGrids, b)
        invariant gridGenerator.refreshQueue == EnqueueAllAbsent(old(gridGenerator.refreshQueue), cs)
        invariant multiset(cs) == multiset(vs)
        invariant |gridGenerator.Grids.Keys - Elements(ignoreGrids)| <= |gridGenerator.Grids.Keys - Elements(old(ignoreGrids))|
        invariant Requested(RequestMap(b), toRefresh, vs)
      {
        var gridPos :| gridPos in remaining;
        remaining := remaining - {gridPos};
        vs, cs := VisitNeighbour(b, gridPos, pristine, vs, cs, old(ignoreGrids), old(gridGenerator.refreshQueue), toRefresh);
      }
    }

    /**
     * The body of that loop for one coordinate: skipped when already
     * ignored, entered when a chunk exists there, skipped otherwise.
     * `vs` and `cs` are what the loop has entered and queued so far, from
     * `ignored` and `queue` on entry to the loop; `vs'` and `cs'` extend
     * them with this coordinate's share.
     */
    method VisitNeighbour(b: Brush, gridPos: IVec3, ghost pristine: map<IVec3, Field>,
                          ghost vs: seq<IVec3>, ghost cs: seq<IVec3>, ghost ignored: seq<IVec3>, ghost queue: seq<IVec3>,
                          ghost sources: set<IVec3>)
      returns (ghost vs': seq<IVec3>, ghost cs': seq<IVec3>)
      requires gridGenerator.Valid()
      requires Progress(gridGenerator.Grids, pristine, ignoreGrids, b)
      requires ignoreGrids == ignored + vs
      requires NoDuplicates(vs)
      requires forall v :: v in vs ==> v !in ignored && v in gridGenerator.Grids
      requires Closed(gridGenerator.Grids, vs, ignoreGrids, b)
      requires gridGenerator.refreshQueue == EnqueueAllAbsent(queue, cs) && multiset(cs) == multiset(vs)
      requires gridPos in sources && Requested(RequestMap(b), sources, vs)
      modifies this, gridGenerator, gridGenerator.Arrays()
      decreases |gridGenerator.Grids.Keys - Elements(ignoreGrids)|, 1
      ensures gridGenerator.Grids == old(gridGenerator.Grids)
      ensures gridGenerator.Valid()
      ensures ignoreGrids == ignored + vs'
      ensures forall q :: q in old(ignoreGrids) ==> q in ignoreGrids
      ensures gridPos in ignoreGrids || gridPos !in gridGenerator.Grids
      ensures NoDuplicates(vs')
      ensures forall v :: v in vs' ==> v !in ignored && v in gridGenerator.Grids
      ensures Progress(gridGenerator.Grids, pristine, ignoreGrids, b)
      ensures Closed(gridGenerator.Grids, vs', ignoreGrids, b)
      ensures gridGenerator.refreshQueue == EnqueueAllAbsent(queue, cs') && multiset(cs') == multiset(vs')
      ensures |gridGenerator.Grids.Keys - Elements(ignoreGrids)| <= |gridGenerator.Grids.Keys - Elements(old(ignoreGrids))|
      ensures Requested(RequestMap(b), sources, vs')
    {
      if gridPos in ignoreGrids || gridPos !in gridGenerator.Grids {
        return vs, cs;
      }
      ghost var more: seq<IVec3>, queued: seq<IVec3>;
      more, queued := Terraform(gridGenerator.Grids[gridPos], b, pristine);
      SubsetCardinality(gridGenerator.Grids.Keys - Elements(ignoreGrids), gridGenerator.Grids.Keys - Elements(old(ignoreGrids)));
      ConcatAssociative(ignored, vs, more);
      NoDuplicatesConcat(vs, more);
      EnqueueAllAbsentConcat(queue, cs, queued);
      ClosedConcat(gridGenerator.Grids, vs, more, old(ignoreGrids), ignoreGrids, b);
      RequestedConcat(RequestMap(b), sources, vs, gridPos, more);
      vs', cs' := vs + more, cs + queued;
    }

    /**
     * The outcome of a whole edit from the chunk at `origin`, with `queue`
     * the refresh queue before it: the edited chunks are distinct keys,
     * visited from the origin through requests only and closed under them;
     * exactly they went through the brush; the queue received an
     * enqueue-if-absent of each, the origin last; `ignoreGrids` is empty again.
     */
    ghost predicate EditOutcome(origin: IVec3, edited: seq<IVec3>, calls: seq<IVec3>, queue: seq<IVec3>, pristine: map<IVec3, Field>, b: Brush)
      reads this, gridGenerator, gridGenerator.Grids.Values, gridGenerator.Arrays()
    {
      && gridGenerator.Valid() && ignoreGrids == []
      && Reached(RequestMap(b), origin, edited)
      && |calls| > 0 && calls[|calls| - 1] == origin
      && NoDuplicates(edited) && (forall v :: v in edited ==> v in gridGenerator.Grids)
      && |edited| <= |gridGenerator.Grids|
      && Progress(gridGenerator.Grids, pristine, edited, b)
      && Closed(gridGenerator.Grids, edited, edited, b)
      && gridGenerator.refreshQueue == EnqueueAllAbsent(queue, calls)
      && multiset(calls) == multiset(edited)
    }

    /**
     * The tool's step once the mouse button is held and the tick has come:
     * look the chunk under the brush centre up, terraform from it when there
     * is one, and clear `ignoreGrids`. A missing key raises, which leaves
     * everything as it was. `pristine` holds the densities as the step finds
     * them.
     */
    method ApplyTool(b: Brush, hasPosition: (IVec3, Vec3) -> bool, ghost pristine: map<IVec3, Field>)
      returns (lookup: Lookup, ghost edited: seq<IVec3>, ghost calls: seq<IVec3>)
      requires gridGenerator.Valid() && ignoreGrids == []
      requires Progress(gridGenerator.Grids, pristine, [], b)
      modifies this, gridGenerator, gridGenerator.Arrays()
      ensures lookup == Scan(AllCoordinates(gridGenerator.size), gridGenerator.Grids, hasPosition, b.pos)
      ensures gridGenerator.Grids == old(gridGenerator.Grids)
      ensures !lookup.Hit? ==>
        && edited == [] && calls == [] && gridGenerator.refreshQueue == old(gridGenerator.refreshQueue)
        && gridGenerator.Valid() && ignoreGrids == [] && Progress(gridGenerator.Grids, pristine, [], b)
      ensures lookup.Hit? ==> EditOutcome(lookup.grid.GridPosition, edited, calls, old(gridGenerator.refreshQueue), pristine, b)
    {
      lookup := gridGenerator.GetGridFromWorldPosition(b.pos, hasPosition);
      if !lookup.Hit? {
        return lookup, [], [];
      }
      ScanHitIsAChunk(AllCoordinates(gridGenerator.size), gridGenerator.Grids, hasPosition, b.pos);
      edited, calls := EditFrom(lookup.grid, b, pristine);
    }

    /** `Terraform` from one chunk of the manager with nothing ignored, then `ignoreGrids.Clear()` */
    method EditFrom(grid: Chunk, b: Brush, ghost pristine: map<IVec3, Field>) returns (ghost edited: seq<IVec3>, ghost calls: seq<IVec3>)
      requires gridGenerator.Valid() && ignoreGrids == []
      requires grid in gridGenerator.Grids.Values
      requires Progress(gridGenerator.Grids, pristine, [], b)
      modifies this, gridGenerator, gridGenerator.Arrays()
      ensures gridGenerator.Grids == old(gridGenerator.Grids)
      ensures EditOutcome(grid.GridPosition, edited, calls, old(gridGenerator.refreshQueue), pristine, b)
    {
      edited, calls := Terraform(grid, b, pristine);
      assert ignoreGrids == edited;
      DistinctCardinality(edited);
      SubsetCardinality(Elements(edited), gridGenerator.Grids.Keys);
      ClearIgnored(b, pristine, edited);
    }

    /** `ignoreGrids.Clear()`, which leaves the chunks and the queue alone */
    method ClearIgnored(b: Brush, ghost pristine: map<IVec3, Field>, ghost edited: seq<IVec3>)
      requires gridGenerator.Valid()
      requires Progress(gridGenerator.Grids, pristine, edited, b)
      requires Closed(gridGenerator.Grids, edited, edited, b)
      modifies this
      ensures ignoreGrids == []
      ensures gridGenerator.Grids == old(gridGenerator.Grids) && gridGenerator.refreshQueue == old(gridGenerator.refreshQueue)
      ensures gridGenerator.Valid()
      ensures Progress(gridGenerator.Grids, pristine, edited, b)
      ensures Closed(gridGenerator.Grids, edited, edited, b)
    {
      ignoreGrids := [];
    }

    /**
     * What an edit leaves behind, as values that later steps keep: the
     * densities it produced from `pristine`, and its edited chunks closed
     * under the refresh requests.
     */
    lemma EditRecorded(origin: IVec3, edited: seq<IVec3>, calls: seq<IVec3>, queue: seq<IVec3>, pristine: map<IVec3, Field>, b: Brush)
      requires EditOutcome(origin, edited, calls, queue, pristine, b)
      ensures EditedFrom(gridGenerator.Grids, pristine, Snapshot(gridGenerator.Grids), edited, b)
      ensures ClosedUnder(RequestMap(b), gridGenerator.Grids.Keys, edited)
    {
      var grids, req := gridGenerator.Grids, RequestMap(b);
      ProgressRecorded(grids, pristine, edited, b);
      forall v, q | v in edited && v in req && q in req[v] && q in grids.Keys ensures q in edited {
        assert PlacementOf(grids[v]) == Placement(v, gridGenerator.gridScale, gridGenerator.cellCount);
      }
    }

    /**
     * Undo: an edit with brush `b` from the chunk at `origin` produced `mid`
     * from `pristine` over the chunks `e1`. An edit with the inverse brush from
     * the same chunk, starting from `mid`, edits the same chunks and brings
     * every density back to its `pristine` value.
     */
    lemma InverseEditRestores(origin: IVec3, pristine: map<IVec3, Field>, mid: map<IVec3, Field>, b: Brush,
                              e1: seq<IVec3>, e2: seq<IVec3>, c2: seq<IVec3>, q2: seq<IVec3>)
      requires EditedFrom(gridGenerator.Grids, pristine, mid, e1, b)
      requires Reached(RequestMap(b), origin, e1) && ClosedUnder(RequestMap(b), gridGenerator.Grids.Keys, e1)
      requires forall v :: v in e1 ==> v in gridGenerator.Grids
      requires EditOutcome(origin, e2, c2, q2, mid, Inverse(b))
      ensures forall v :: v in e1 <==> v in e2
      ensures forall k, x, y, z, i :: k in gridGenerator.Grids && InLattice(gridGenerator.Grids[k].densities, x, y, z, i) && i < 8 ==>
        gridGenerator.Grids[k].densities[x, y, z, i] == pristine[k][x][y][z][i]
      ensures Progress(gridGenerator.Grids, pristine, [], b)
    {
      var grids, req := gridGenerator.Grids, RequestMap(b);
      RequestsOfInverse(grids.Keys, gridGenerator.gridScale, gridGenerator.cellCount, b);
      forall v, q | v in e2 && v in req && q in req[v] && q in grids.Keys ensures q in e2 {
        assert PlacementOf(grids[v]) == Placement(v, gridGenerator.gridScale, gridGenerator.cellCount);
      }
      SameReachedSet(req, grids.Keys, origin, e1, e2);
      EditThenInverse(grids, pristine, mid, b, e1, e2);
    }
  }
}
