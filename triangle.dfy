// Triangle: the three indices of one triangle, copied out of an index array
// and back, and the ordering `Array.Sort` puts triangles in. The element
// array is private and never changed after construction, so a triangle is a
// value here.
module Triangles {
  import opened Machine
  import opened Wrappers
  import MeshData
  import Sorting

  datatype Triangle = Triangle(e0: Int32, e1: Int32, e2: Int32)

  /** The argument of `CompareTo(object)` and `Equals(object)`: null, a triangle, or an object
      of another class. */
  datatype Argument = NullObject | TriangleObject(t: Triangle) | OtherObject

  /** `new Triangle(source, offset)`: the three indices at offset. */
  method FromArray(source: array<Int32>, offset: nat) returns (t: Triangle)
    requires offset + 3 <= source.Length
    ensures t == Triangle(source[offset], source[offset + 1], source[offset + 2])
  {
    t := Triangle(source[offset], source[offset + 1], source[offset + 2]);
  }

  /** `copyBack(dest, offset)`: the three indices written back at offset, nothing else changed. */
  method CopyBack(t: Triangle, dest: array<Int32>, offset: nat)
    requires offset + 3 <= dest.Length
    modifies dest
    ensures dest[..] == old(dest[..])[offset := t.e0][offset + 1 := t.e1][offset + 2 := t.e2]
  {
    dest[offset] := t.e0;
    dest[offset + 1] := t.e1;
    dest[offset + 2] := t.e2;
  }

  /** t comes strictly before o in lexicographic order of (e0, e1, e2). */
  predicate LexLess(t: Triangle, o: Triangle)
  {
    t.e0 < o.e0 || (t.e0 == o.e0 && (t.e1 < o.e1 || (t.e1 == o.e1 && t.e2 < o.e2)))
  }

  /** `compareTo(o)` as written: the difference of the first unequal elements, computed with
      wrapping `int` subtraction, so its sign is wrong when the difference overflows. */
  function CompareToAsWritten(t: Triangle, o: Triangle): (r: Int32)
    ensures r == 0 <==> t == o
  {
    if t.e0 != o.e0 then Wrap32(t.e0 - o.e0)
    else if t.e1 != o.e1 then Wrap32(t.e1 - o.e1)
    else Wrap32(t.e2 - o.e2)
  }

  /** The lexicographic comparison `compareTo` evidently intends: the sign of the first unequal
      pair of elements, without overflow. */
  function Compare(t: Triangle, o: Triangle): (r: int)
    ensures r < 0 <==> LexLess(t, o)
    ensures r == 0 <==> t == o
    ensures r > 0 <==> LexLess(o, t)
  {
    if t.e0 != o.e0 then (if t.e0 < o.e0 then -1 else 1)
    else if t.e1 != o.e1 then (if t.e1 < o.e1 then -1 else 1)
    else if t.e2 != o.e2 then (if t.e2 < o.e2 then -1 else 1)
    else 0
  }

  predicate NonNegative(t: Triangle) { t.e0 >= 0 && t.e1 >= 0 && t.e2 >= 0 }

  /** On vertex indices, which are never negative, no difference overflows and the written
      comparison has the intended sign. */
  lemma CompareToAsWrittenOnIndices(t: Triangle, o: Triangle)
    requires NonNegative(t) && NonNegative(o)
    ensures CompareToAsWritten(t, o) < 0 <==> Compare(t, o) < 0
    ensures CompareToAsWritten(t, o) > 0 <==> Compare(t, o) > 0
  {
  }

  /** (int.MinValue, 0, 0) comes first lexicographically, yet the written comparison calls it
      greater than (1, 0, 0): int.MinValue - 1 wraps to int.MaxValue. */
  lemma CompareToAsWrittenOverflows()
    ensures LexLess(Triangle(INT_MIN, 0, 0), Triangle(1, 0, 0))
    ensures CompareToAsWritten(Triangle(INT_MIN, 0, 0), Triangle(1, 0, 0)) == INT_MAX
  {
  }

  /** The written comparison is not an order once an index is negative: (int.MinValue, 0, 0)
      comes before (0, 0, 0), which comes before (1, 0, 0), which comes before
      (int.MinValue, 0, 0) again. */
  lemma CompareToAsWrittenCycles()
    ensures var a, b, c := Triangle(INT_MIN, 0, 0), Triangle(0, 0, 0), Triangle(1, 0, 0);
            CompareToAsWritten(a, b) < 0 && CompareToAsWritten(b, c) < 0 && CompareToAsWritten(c, a) < 0
  {
  }

  /** `CompareTo(obj)`: 1 for null, the written comparison for a triangle, and an
      ArgumentException for anything else. On triangles without negative indices its sign is
      the lexicographic order. */
  function CompareToObject(t: Triangle, obj: Argument): (r: Result<Int32>)
    ensures obj.NullObject? ==> r == Success(1)
    ensures obj.OtherObject? ==> r == Failure(Argument)
    ensures obj.TriangleObject? ==> r.Success? && (r.value == 0 <==> obj.t == t)
    ensures obj.TriangleObject? && NonNegative(t) && NonNegative(obj.t) ==>
              (r.value < 0 <==> LexLess(t, obj.t)) && (r.value > 0 <==> LexLess(obj.t, t))
  {
    match obj
    case NullObject => Success(1)
    case TriangleObject(o) => Success(CompareToAsWritten(t, o))
    case OtherObject => Failure(Argument)
  }

  /** `Equals(obj)`: only a triangle with the same three elements, compared with `ArrayEquals`. */
  function TriangleEquals(t: Triangle, obj: Argument): (r: bool)
    ensures r <==> obj == TriangleObject(t)
    ensures obj.TriangleObject? ==> (r <==> Compare(t, obj.t) == 0)
  {
    match obj
    case TriangleObject(o) =>
      var eq := (x: Int32, y: Int32) => x == y;
      var a, b := [t.e0, t.e1, t.e2], [o.e0, o.e1, o.e2];
      var same := MeshData.ArrayEquals(Some(a), Some(b), eq);
      assert same == Success(true) <==> t == o by {
        if MeshData.Agree(a, b, 3, eq) {
          assert eq(a[0], b[0]) && eq(a[1], b[1]) && eq(a[2], b[2]);
        }
      }
      same == Success(true)
    case _ => false
  }

  /** The order `Array.Sort` arranges triangles in when no index is negative: t is not after
      o. */
  function Le(t: Triangle, o: Triangle): (r: bool)
    ensures r <==> Compare(t, o) <= 0
  {
    !LexLess(o, t)
  }

  /** Le is a total order on triangles: total, transitive, and only a triangle is equivalent to
      itself, so sorting has one possible result. */
  lemma LeTotalOrder()
    ensures Sorting.TotalPreorder(Le)
    ensures Sorting.Antisymmetric(Le)
  {
  }
}
