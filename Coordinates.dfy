/**
 * The order in which both managers walk a box of chunk coordinates:
 * x outermost, then y, then z innermost (`for x { for y { for z } }`).
 * The enumeration is built the way the loops build it: a row of z values,
 * a plane of rows, a box of planes.
 */
module Coordinates {
  import opened Geometry

  predicate InBox(c: IVec3, size: IVec3)
  {
    0 <= c.x < size.x && 0 <= c.y < size.y && 0 <= c.z < size.z
  }

  /** Strict lexicographic order on (x, y, z) */
  predicate LexLess(a: IVec3, b: IVec3)
  {
    a.x < b.x || (a.x == b.x && (a.y < b.y || (a.y == b.y && a.z < b.z)))
  }

  predicate LexSorted(s: seq<IVec3>)
  {
    forall i, j :: 0 <= i < j < |s| ==> LexLess(s[i], s[j])
  }

  /** (x, y, 0), ..., (x, y, z - 1) */
  function Row(x: int, y: int, z: int): seq<IVec3>
    decreases z
  {
    if z <= 0 then [] else Row(x, y, z - 1) + [IVec3(x, y, z - 1)]
  }

  /** Rows 0 .. y - 1 of plane x */
  function Plane(x: int, y: int, size: IVec3): seq<IVec3>
    decreases y
  {
    if y <= 0 then [] else Plane(x, y - 1, size) + Row(x, y - 1, size.z)
  }

  /** Planes 0 .. x - 1 */
  function Box(x: int, size: IVec3): seq<IVec3>
    decreases x
  {
    if x <= 0 then [] else Box(x - 1, size) + Plane(x - 1, size.y, size)
  }

  /** Every coordinate of the box, in the loops' order */
  function AllCoordinates(size: IVec3): seq<IVec3>
  {
    Box(size.x, size)
  }

  lemma SortedConcat(a: seq<IVec3>, b: seq<IVec3>)
    requires LexSorted(a) && LexSorted(b)
    requires forall u, v :: u in a && v in b ==> LexLess(u, v)
    ensures LexSorted(a + b)
  {
    forall i, j | 0 <= i < j < |a + b| ensures LexLess((a + b)[i], (a + b)[j]) {
      if j < |a| {
      } else if i >= |a| {
        assert (a + b)[i] == b[i - |a|] && (a + b)[j] == b[j - |a|];
      } else {
        assert (a + b)[i] in a && (a + b)[j] in b;
      }
    }
  }

  lemma {:induction false} RowFacts(x: int, y: int, z: int)
    ensures forall c :: c in Row(x, y, z) <==> c.x == x && c.y == y && 0 <= c.z < z
    ensures LexSorted(Row(x, y, z))
    ensures |Row(x, y, z)| == if z <= 0 then 0 else z
    decreases z
  {
    if z > 0 {
      RowFacts(x, y, z - 1);
      SortedConcat(Row(x, y, z - 1), [IVec3(x, y, z - 1)]);
    }
  }

  lemma {:induction false} PlaneContents(x: int, y: int, size: IVec3)
    ensures forall c :: c in Plane(x, y, size) <==> c.x == x && 0 <= c.y < y && 0 <= c.z < size.z
    decreases y
  {
    if y > 0 {
      var earlier, last := Plane(x, y - 1, size), Row(x, y - 1, size.z);
      PlaneContents(x, y - 1, size);
      RowFacts(x, y - 1, size.z);
      forall c ensures c in Plane(x, y, size) <==> c in earlier || c in last {
        assert Plane(x, y, size) == earlier + last;
      }
    }
  }

  lemma {:induction false} PlaneSorted(x: int, y: int, size: IVec3)
    ensures LexSorted(Plane(x, y, size))
    decreases y
  {
    if y > 0 {
      PlaneSorted(x, y - 1, size);
      PlaneContents(x, y - 1, size);
      RowFacts(x, y - 1, size.z);
      SortedConcat(Plane(x, y - 1, size), Row(x, y - 1, size.z));
    }
  }

  lemma {:induction false} PlaneLength(x: int, y: int, size: IVec3)
    ensures |Plane(x, y, size)| == if y <= 0 || size.z <= 0 then 0 else y * size.z
    decreases y
  {
    if y > 0 {
      PlaneLength(x, y - 1, size);
      RowFacts(x, y - 1, size.z);
      if size.z > 0 {
        assert (y - 1) * size.z + size.z == y * size.z;
      }
    }
  }

  lemma {:induction false} BoxContents(x: int, size: IVec3)
    ensures forall c :: c in Box(x, size) <==> 0 <= c.x < x && 0 <= c.y < size.y && 0 <= c.z < size.z
    decreases x
  {
    if x > 0 {
      var earlier, last := Box(x - 1, size), Plane(x - 1, size.y, size);
      BoxContents(x - 1, size);
      PlaneContents(x - 1, size.y, size);
      forall c ensures c in Box(x, size) <==> c in earlier || c in last {
        assert Box(x, size) == earlier + last;
      }
    }
  }

  lemma {:induction false} BoxSorted(x: int, size: IVec3)
    ensures LexSorted(Box(x, size))
    decreases x
  {
    if x > 0 {
      BoxSorted(x - 1, size);
      BoxContents(x - 1, size);
      PlaneContents(x - 1, size.y, size);
      PlaneSorted(x - 1, size.y, size);
      SortedConcat(Box(x - 1, size), Plane(x - 1, size.y, size));
    }
  }

  lemma {:induction false} BoxLength(x: int, size: IVec3)
    ensures |Box(x, size)| == if x <= 0 || size.y <= 0 || size.z <= 0 then 0 else x * (size.y * size.z)
    decreases x
  {
    if x > 0 {
      BoxLength(x - 1, size);
      PlaneLength(x - 1, size.y, size);
      if size.y > 0 && size.z > 0 {
        assert (x - 1) * (size.y * size.z) + size.y * size.z == x * (size.y * size.z);
      }
    }
  }

  /**
   * The walk visits exactly the coordinates of the box, each once, in strictly
   * increasing lexicographic order, size.x * size.y * size.z of them.
   */
  lemma AllCoordinatesSpec(size: IVec3)
    ensures forall c :: c in AllCoordinates(size) <==> InBox(c, size)
    ensures LexSorted(AllCoordinates(size))
    ensures forall i, j :: 0 <= i < j < |AllCoordinates(size)| ==> AllCoordinates(size)[i] != AllCoordinates(size)[j]
    ensures |AllCoordinates(size)| == if size.x <= 0 || size.y <= 0 || size.z <= 0 then 0 else size.x * size.y * size.z
  {
    BoxContents(size.x, size);
    BoxSorted(size.x, size);
    BoxLength(size.x, size);
    if size.x > 0 && size.y > 0 && size.z > 0 {
      assert size.x * (size.y * size.z) == size.x * size.y * size.z;
    }
  }
}
