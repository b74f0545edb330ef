/**
 * Vector types shared by every component of the terrain core.
 * `Vec3` stands for Unity's `Vector3` (with exact reals instead of floats)
 * and `IVec3` for `Vector3Int`.
 */
module Geometry {

  datatype Vec3 = Vec3(x: real, y: real, z: real) {
    function Plus(o: Vec3): Vec3 { Vec3(x + o.x, y + o.y, z + o.z) }
    function Minus(o: Vec3): Vec3 { Vec3(x - o.x, y - o.y, z - o.z) }
    function Times(k: real): Vec3 { Vec3(x * k, y * k, z * k) }
    /** `Vector3.sqrMagnitude`: the squared length, no square root */
    function SqrMagnitude(): real { x * x + y * y + z * z }
  }

  datatype IVec3 = IVec3(x: int, y: int, z: int) {
    function Plus(o: IVec3): IVec3 { IVec3(x + o.x, y + o.y, z + o.z) }
    /** The implicit `(Vector3)` conversion of a `Vector3Int` */
    function ToVec(): Vec3 { Vec3(x as real, y as real, z as real) }
  }

  /** The six face directions; a chunk's face neighbours are its coordinate plus one of these */
  predicate IsUnitAxis(d: IVec3)
  {
    d in {IVec3(-1, 0, 0), IVec3(1, 0, 0), IVec3(0, -1, 0), IVec3(0, 1, 0), IVec3(0, 0, -1), IVec3(0, 0, 1)}
  }

  predicate IsFaceNeighbour(origin: IVec3, q: IVec3)
  {
    IsUnitAxis(IVec3(q.x - origin.x, q.y - origin.y, q.z - origin.z))
  }

  /** The three values of `t * w / d` that interpolation relies on */
  lemma CancelRatio(t: real, d: real, w: real)
    requires d != 0.0
    ensures t == 0.0 ==> t * w / d == 0.0
    ensures t == d ==> t * w / d == w
    ensures 2.0 * t == d ==> t * w / d == w / 2.0
  {
    if t == d {
      assert t * w == d * w;
    }
    if 2.0 * t == d {
      assert t * w * 2.0 == d * w;
    }
  }

  /** One coordinate of `A + t * (B - A) / d` */
  function Lerp(a: real, b: real, t: real, d: real): (r: real)
    requires d != 0.0
    ensures t == 0.0 ==> r == a
    ensures t == d ==> r == b
    ensures 2.0 * t == d ==> r == (a + b) / 2.0
  {
    CancelRatio(t, d, b - a);
    a + t * (b - a) / d
  }

  /**
   * A cube edge between two corners: the struct `Edge` of both cell classes.
   */
  datatype Edge = Edge(A: Vec3, B: Vec3) {

    /** The centre of the edge */
    function Midpoint(): Vec3
    {
      Vec3((A.x + B.x) / 2.0, (A.y + B.y) / 2.0, (A.z + B.z) / 2.0)
    }

    /**
     * The point where the field crosses `surfaceLevel`, assuming it varies
     * linearly from `v1` at A to `v2` at B. The source divides by `v2 - v1`
     * without a guard, so equal densities are excluded here.
     */
    function InterpolateMidpoint(v1: real, v2: real, surfaceLevel: real): (p: Vec3)
      requires v1 != v2
      ensures surfaceLevel == v1 ==> p == A
      ensures surfaceLevel == v2 ==> p == B
      ensures 2.0 * surfaceLevel == v1 + v2 ==> p == Midpoint()
    {
      var t, d := surfaceLevel - v1, v2 - v1;
      Vec3(Lerp(A.x, B.x, t, d), Lerp(A.y, B.y, t, d), Lerp(A.z, B.z, t, d))
    }
  }

  /** The midpoint is as far from A as B is from it */
  lemma MidpointEquidistant(e: Edge)
    ensures e.Midpoint().Minus(e.A) == e.B.Minus(e.Midpoint())
  {
  }
}
