// Frustum culling of a tile's bounding sphere, as the 3MXB streaming component does it: a
// PlaneClipMask remembers which of the frustum's planes a parent volume is already wholly inside,
// so that its children test only the others, and whether it is wholly outside any of them.
// Coordinates are real numbers: the float rounding of the dot product is not modelled.
module Culling {

  datatype IntersectionType = Outside | Inside | Intersecting

  /** `PlaneClipMask`, a struct. Its int `code` is kept as the set of its one bits: bit i is set
      when the volume is wholly inside plane i. */
  datatype PlaneClipMask = PlaneClipMask(code: set<nat>, anyOutside: bool)

  /** `MASK_INSIDE` as the source declares it, `0x3F << 6`: bits 6 to 11. */
  const MASK_INSIDE_AS_WRITTEN: set<nat> := {6, 7, 8, 9, 10, 11}
  /** Six bits for the six planes, `0x3F`: bits 0 to 5, the ones `Set` writes for them. */
  const MASK_INSIDE: set<nat> := {0, 1, 2, 3, 4, 5}

  /** `GetDefaultMask`, `new PlaneClipMask()`: no plane known, nothing outside. */
  const DEFAULT_MASK := PlaneClipMask({}, false)

  /** The bit `1 << planeIdx` stands for: C# takes the shift count modulo 32. */
  function Bit(planeIdx: nat): nat
  {
    planeIdx % 32
  }

  /** `Intersecting(planeIdx)`: the box still has to be compared with the plane. */
  predicate IsIntersecting(m: PlaneClipMask, planeIdx: nat)
  {
    Bit(planeIdx) !in m.code
  }

  /** `Set(planeIdx, intersection)`: `anyOutside = true`, `code |= 1 << planeIdx` or
      `code &= ~(1 << planeIdx)`. */
  function Set(m: PlaneClipMask, planeIdx: nat, t: IntersectionType): (r: PlaneClipMask)
    ensures r.anyOutside == (m.anyOutside || t == Outside)
    ensures t == Outside ==> r.code == m.code
    ensures t == Inside ==> !IsIntersecting(r, planeIdx)
    ensures t == Intersecting ==> IsIntersecting(r, planeIdx)
    ensures forall b :: b != Bit(planeIdx) ==> (b in r.code <==> b in m.code)
  {
    match t
    case Outside => m.(anyOutside := true)
    case Inside => m.(code := m.code + {Bit(planeIdx)})
    case Intersecting => m.(code := m.code - {Bit(planeIdx)})
  }

  /** `Set` changes the bit of its own plane only. */
  lemma SetKeepsOtherBits(m: PlaneClipMask, i: nat, j: nat, t: IntersectionType)
    requires i < 32 && j < 32 && i != j
    ensures IsIntersecting(Set(m, i, t), j) == IsIntersecting(m, j)
  {
  }

  /** The `Intersection` property with the mask as written. */
  function IntersectionAsWritten(m: PlaneClipMask): (r: IntersectionType)
    ensures r == Outside <==> m.anyOutside
  {
    if m.anyOutside then Outside
    else if m.code == MASK_INSIDE_AS_WRITTEN then Inside
    else Intersecting
  }

  /** `Intersection` with the six plane bits the comments describe. */
  function Intersection(m: PlaneClipMask): (r: IntersectionType)
    ensures r == Outside <==> m.anyOutside
  {
    if m.anyOutside then Outside
    else if m.code == MASK_INSIDE then Inside
    else Intersecting
  }

  /** A mask that only the six frustum planes have written to: no bit above bit 5. */
  predicate SixPlanes(m: PlaneClipMask)
  {
    m.code <= MASK_INSIDE
  }

  /** The default mask is intersecting, and `Set` with a frustum plane keeps to the six bits. */
  lemma SetKeepsSixPlanes(m: PlaneClipMask, i: nat, t: IntersectionType)
    requires SixPlanes(m) && i < 6
    ensures SixPlanes(Set(m, i, t))
    ensures Intersection(DEFAULT_MASK) == Intersecting && IntersectionAsWritten(DEFAULT_MASK) == Intersecting
  {
  }

  /** As written, `Intersection` never reports Inside for a mask built by the six planes. */
  lemma InsideUnreachableAsWritten(m: PlaneClipMask)
    requires SixPlanes(m)
    ensures IntersectionAsWritten(m) != Inside
  {
    assert 6 in MASK_INSIDE_AS_WRITTEN && 6 !in m.code;
  }

  /** The mask marked inside all six planes, one after another from the default mask: as written
      it is still intersecting. */
  lemma AllSixInsideAsWritten()
    ensures var m := Set(Set(Set(Set(Set(Set(DEFAULT_MASK, 0, Inside), 1, Inside), 2, Inside), 3, Inside), 4, Inside),
                         5, Inside);
      IntersectionAsWritten(m) == Intersecting && Intersection(m) == Inside
  {
    var m := Set(Set(Set(Set(Set(Set(DEFAULT_MASK, 0, Inside), 1, Inside), 2, Inside), 3, Inside), 4, Inside),
                 5, Inside);
    assert m.code == MASK_INSIDE;
    assert 6 in MASK_INSIDE_AS_WRITTEN;
  }

  /** With the six plane bits, a mask is Inside exactly when it is inside every one of the six
      planes and outside none. */
  lemma InsideIffAllSix(m: PlaneClipMask)
    requires SixPlanes(m)
    ensures Intersection(m) == Inside <==> !m.anyOutside && forall i :: 0 <= i < 6 ==> !IsIntersecting(m, i)
  {
    if !m.anyOutside && forall i :: 0 <= i < 6 ==> !IsIntersecting(m, i) {
      assert !IsIntersecting(m, 0) && !IsIntersecting(m, 1) && !IsIntersecting(m, 2);
      assert !IsIntersecting(m, 3) && !IsIntersecting(m, 4) && !IsIntersecting(m, 5);
      assert m.code == MASK_INSIDE;
    }
  }

  datatype Vector3 = Vector3(x: real, y: real, z: real)

  /** A plane `dot(normal, p) + distance == 0`, its inside on the side the normal points to. */
  datatype Plane = Plane(normal: Vector3, distance: real)

  datatype TileBoundingSphere = TileBoundingSphere(center: Vector3, radius: real)

  function Dot(a: Vector3, b: Vector3): real
  {
    a.x * b.x + a.y * b.y + a.z * b.z
  }

  /** The signed distance from the plane to the sphere's centre. */
  function DistanceToPlane(s: TileBoundingSphere, p: Plane): real
  {
    Dot(p.normal, s.center) + p.distance
  }

  /** `TileBoundingSphere.IntersectPlane`. */
  function IntersectPlane(s: TileBoundingSphere, p: Plane): (r: IntersectionType)
    ensures r == Outside <==> DistanceToPlane(s, p) < -s.radius
    ensures r == Intersecting <==> -s.radius <= DistanceToPlane(s, p) < s.radius
    ensures r == Inside <==> DistanceToPlane(s, p) >= s.radius && DistanceToPlane(s, p) >= -s.radius
  {
    var d := DistanceToPlane(s, p);
    if d < -s.radius then Outside
    else if d < s.radius then Intersecting
    else Inside
  }

  /** `TileBoundingSphere.DistanceTo(point)`; the distance from the centre to the point, which
      needs a square root, is given. */
  function DistanceTo(s: TileBoundingSphere, centreDistance: real): (r: real)
    ensures r >= 0.0 && r >= centreDistance - s.radius
    ensures r == 0.0 || r == centreDistance - s.radius
  {
    if centreDistance - s.radius > 0.0 then centreDistance - s.radius else 0.0
  }

  // ---------------------------------------------------------------------
  // What the plane and distance tests mean geometrically

  function Sub(a: Vector3, b: Vector3): Vector3
  {
    Vector3(a.x - b.x, a.y - b.y, a.z - b.z)
  }

  function AddScaled(a: Vector3, k: real, b: Vector3): Vector3
  {
    Vector3(a.x + k * b.x, a.y + k * b.y, a.z + k * b.z)
  }

  /** The point q lies in the ball the sphere bounds. */
  predicate InSphere(s: TileBoundingSphere, q: Vector3)
  {
    Dot(Sub(q, s.center), Sub(q, s.center)) <= s.radius * s.radius
  }

  /** The signed distance from the plane to the point q. */
  function Side(p: Plane, q: Vector3): real
  {
    Dot(p.normal, q) + p.distance
  }

  /** Frustum planes have unit normals. */
  predicate Unit(n: Vector3)
  {
    Dot(n, n) == 1.0
  }

  lemma CauchySchwarz(n: Vector3, v: Vector3)
    ensures Dot(n, v) * Dot(n, v) <= Dot(n, n) * Dot(v, v)
  {
    var a, b, c := n.x * v.y - n.y * v.x, n.y * v.z - n.z * v.y, n.z * v.x - n.x * v.z;
    assert Dot(n, n) * Dot(v, v) - Dot(n, v) * Dot(n, v) == a * a + b * b + c * c;
  }

  lemma SquareGrows(x: real, r: real)
    requires r >= 0.0
    ensures x > r || x < -r ==> x * x > r * r
  {
    var a := if x >= 0.0 then x else -x;
    if a > r {
      var e := a - r;
      assert a * a == r * r + 2.0 * r * e + e * e;
      PositiveProduct(e, e);
      assert x * x == a * a;
    }
  }

  lemma PositiveProduct(a: real, b: real)
    requires a > 0.0 && b > 0.0
    ensures a * b > 0.0
  {
  }

  /** A point of the ball is no further from a plane than the radius, on either side of the
      centre's distance. */
  lemma SideWithinRadius(s: TileBoundingSphere, p: Plane, q: Vector3)
    requires Unit(p.normal) && s.radius >= 0.0 && InSphere(s, q)
    ensures DistanceToPlane(s, p) - s.radius <= Side(p, q) <= DistanceToPlane(s, p) + s.radius
  {
    var v := Sub(q, s.center);
    CauchySchwarz(p.normal, v);
    SquareGrows(Dot(p.normal, v), s.radius);
    assert Side(p, q) == DistanceToPlane(s, p) + Dot(p.normal, v);
  }

  /** The points of the ball nearest to and furthest from the plane, along its normal. */
  lemma PolesInSphere(s: TileBoundingSphere, p: Plane, k: real)
    requires Unit(p.normal) && (k == s.radius || k == -s.radius)
    ensures InSphere(s, AddScaled(s.center, k, p.normal))
    ensures Side(p, AddScaled(s.center, k, p.normal)) == DistanceToPlane(s, p) + k
  {
    var n := p.normal;
    var v := Sub(AddScaled(s.center, k, n), s.center);
    assert v == Vector3(k * n.x, k * n.y, k * n.z);
    assert Dot(v, v) == k * k * Dot(n, n);
    assert Dot(n, AddScaled(s.center, k, n)) == Dot(n, s.center) + k * Dot(n, n);
  }

  /** `IntersectPlane` answers Inside exactly when the whole ball is on the inside of the plane. */
  lemma InsideIffContained(s: TileBoundingSphere, p: Plane)
    requires Unit(p.normal) && s.radius >= 0.0
    ensures IntersectPlane(s, p) == Inside <==> forall q :: InSphere(s, q) ==> Side(p, q) >= 0.0
  {
    if IntersectPlane(s, p) == Inside {
      forall q | InSphere(s, q) ensures Side(p, q) >= 0.0 {
        SideWithinRadius(s, p, q);
      }
    }
    PolesInSphere(s, p, -s.radius);
  }

  /** `IntersectPlane` answers Outside exactly when the whole ball is strictly on the outside. */
  lemma OutsideIffExcluded(s: TileBoundingSphere, p: Plane)
    requires Unit(p.normal) && s.radius >= 0.0
    ensures IntersectPlane(s, p) == Outside <==> forall q :: InSphere(s, q) ==> Side(p, q) < 0.0
  {
    if IntersectPlane(s, p) == Outside {
      forall q | InSphere(s, q) ensures Side(p, q) < 0.0 {
        SideWithinRadius(s, p, q);
      }
    }
    PolesInSphere(s, p, s.radius);
  }

  /** Intersecting means the ball has points on both sides: one on the inside (or on the plane)
      and one strictly outside. */
  lemma IntersectingStraddles(s: TileBoundingSphere, p: Plane)
    requires Unit(p.normal) && s.radius >= 0.0
    ensures IntersectPlane(s, p) == Intersecting <==>
      (exists q :: InSphere(s, q) && Side(p, q) >= 0.0) && (exists q :: InSphere(s, q) && Side(p, q) < 0.0)
  {
    InsideIffContained(s, p);
    OutsideIffExcluded(s, p);
    if IntersectPlane(s, p) == Intersecting {
      PolesInSphere(s, p, s.radius);
      PolesInSphere(s, p, -s.radius);
      var hi, lo := AddScaled(s.center, s.radius, p.normal), AddScaled(s.center, -s.radius, p.normal);
      assert InSphere(s, hi) && Side(p, hi) >= 0.0;
      assert InSphere(s, lo) && Side(p, lo) < 0.0;
    }
  }

  /** `DistanceTo` is zero exactly for the points within the radius of the centre, and grows
      with the point's distance from the centre beyond that. */
  lemma DistanceToZeroIff(s: TileBoundingSphere, d: real)
    ensures DistanceTo(s, d) == 0.0 <==> d <= s.radius
  {
  }

  lemma DistanceToMonotone(s: TileBoundingSphere, d1: real, d2: real)
    requires d1 <= d2
    ensures DistanceTo(s, d1) <= DistanceTo(s, d2)
    ensures DistanceTo(s, d2) - DistanceTo(s, d1) <= d2 - d1
  {
  }

  /** The plane loop of `IntersectPlanes` from plane i on: test the planes still intersecting, record
      each answer, and stop at the first plane the sphere is outside. */
  function ClipFrom(s: TileBoundingSphere, planes: seq<Plane>, i: nat, m: PlaneClipMask): PlaneClipMask
    requires i <= |planes|
    decreases |planes| - i
  {
    if i == |planes| then m
    else if IsIntersecting(m, i) then
      var v := IntersectPlane(s, planes[i]);
      if v == Outside then Set(m, i, v) else ClipFrom(s, planes, i + 1, Set(m, i, v))
    else ClipFrom(s, planes, i + 1, m)
  }

  /** `IntersectPlanes(planes, mask)`: a mask whose `Intersection` is not intersecting comes
      back as it is; `Intersection` reads the mask as the source declares it. */
  function Clipped(s: TileBoundingSphere, planes: seq<Plane>, mask: PlaneClipMask): PlaneClipMask
  {
    if IntersectionAsWritten(mask) != Intersecting then mask else ClipFrom(s, planes, 0, mask)
  }

  /** `IntersectPlanes` with the six plane bits in `Intersection`. */
  function ClippedIntended(s: TileBoundingSphere, planes: seq<Plane>, mask: PlaneClipMask): PlaneClipMask
  {
    if Intersection(mask) != Intersecting then mask else ClipFrom(s, planes, 0, mask)
  }

  /** From plane i on, a mask that has no plane left to test comes back as it is. */
  lemma {:induction false} ClipFromNothingToTest(s: TileBoundingSphere, planes: seq<Plane>, i: nat, m: PlaneClipMask)
    requires i <= |planes| && forall k :: i <= k < |planes| ==> !IsIntersecting(m, k)
    ensures ClipFrom(s, planes, i, m) == m
    decreases |planes| - i
  {
    if i < |planes| {
      ClipFromNothingToTest(s, planes, i + 1, m);
    }
  }

  /** The wrong inside mask does no harm in `IntersectPlanes` for a frustum's six planes: on
      a mask only those planes have written to, a mask inside all six is not returned early
      as written, but the loop then has no plane to test and returns it unchanged all the
      same. */
  lemma ClippedAgrees(s: TileBoundingSphere, planes: seq<Plane>, mask: PlaneClipMask)
    requires SixPlanes(mask) && |planes| <= 6
    ensures Clipped(s, planes, mask) == ClippedIntended(s, planes, mask)
  {
    InsideUnreachableAsWritten(mask);
    if !mask.anyOutside && mask.code == MASK_INSIDE {
      forall k | 0 <= k < |planes| ensures !IsIntersecting(mask, k) {
        assert Bit(k) == k;
      }
      ClipFromNothingToTest(s, planes, 0, mask);
    }
  }

  /** `IntersectPlanes(planes, mask)`, the loop with its `break`. */
  method IntersectPlanes(s: TileBoundingSphere, planes: seq<Plane>, mask: PlaneClipMask) returns (r: PlaneClipMask)
    ensures r == Clipped(s, planes, mask)
    ensures mask.anyOutside ==> r == mask
  {
    r := mask;
    if IntersectionAsWritten(r) != Intersecting {
      return;
    }
    var i := 0;
    while i < |planes|
      invariant i <= |planes|
      invariant ClipFrom(s, planes, i, r) == Clipped(s, planes, mask)
    {
      if IsIntersecting(r, i) {
        var value := IntersectPlane(s, planes[i]);
        r := Set(r, i, value);
        if value == Outside {
          break;
        }
      }
      i := i + 1;
    }
  }

  /** A plane the mask already has the volume inside stays so: the loop never clears a set bit. */
  lemma {:induction false} ClipKeepsInside(s: TileBoundingSphere, planes: seq<Plane>, i: nat, m: PlaneClipMask, j: nat)
    requires i <= |planes| && !IsIntersecting(m, j)
    ensures !IsIntersecting(ClipFrom(s, planes, i, m), j)
    decreases |planes| - i
  {
    if i < |planes| && IsIntersecting(m, i) {
      var v := IntersectPlane(s, planes[i]);
      SetKeepsSet(m, i, v, j);
      if v != Outside {
        ClipKeepsInside(s, planes, i + 1, Set(m, i, v), j);
      }
    } else if i < |planes| {
      ClipKeepsInside(s, planes, i + 1, m, j);
    }
  }

  /** `Set` never clears a bit unless it is told the plane is intersecting, and then only on a
      plane it tests, whose bit is clear already. */
  lemma SetKeepsSet(m: PlaneClipMask, i: nat, t: IntersectionType, j: nat)
    requires IsIntersecting(m, i) && !IsIntersecting(m, j)
    ensures !IsIntersecting(Set(m, i, t), j)
  {
  }

  /** With at most 32 planes, each on its own bit, the sphere ends up outside exactly when one of
      the planes the mask had still to test has it outside: the loop tests all of them up to the
      first such plane, and never a plane already passed. */
  lemma {:induction false} ClipOutsideIff(s: TileBoundingSphere, planes: seq<Plane>, i: nat, m: PlaneClipMask)
    requires i <= |planes| <= 32 && !m.anyOutside
    ensures ClipFrom(s, planes, i, m).anyOutside <==>
      exists k :: i <= k < |planes| && IsIntersecting(m, k) && IntersectPlane(s, planes[k]) == Outside
    decreases |planes| - i
  {
    if i < |planes| {
      var v := IntersectPlane(s, planes[i]);
      if IsIntersecting(m, i) && v != Outside {
        var m' := Set(m, i, v);
        ClipOutsideIff(s, planes, i + 1, m');
        forall k | i < k < |planes|
          ensures IsIntersecting(m', k) == IsIntersecting(m, k)
        {
          SetKeepsOtherBits(m, i, k, v);
        }
      } else if !IsIntersecting(m, i) {
        ClipOutsideIff(s, planes, i + 1, m);
      }
    }
  }
}
