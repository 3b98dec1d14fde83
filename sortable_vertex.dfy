// SortableVertex: what the MG2 encoder sorts vertices by. A vertex carries
// its X coordinate, the index of the grid cell it lies in and its position
// in the mesh; the three fields are readonly, so a sortable vertex is a value
// here.
module SortableVertices {
  import opened Machine
  import opened Wrappers
  import Sorting

  datatype SortableVertex = SortableVertex(x: Float32, gridIndex: Int32, originalIndex: Int32)

  /** The argument of `CompareTo(object)` and `Equals(object)`: null, a sortable vertex, or an
      object of another class. */
  datatype Argument = NullObject | VertexObject(v: SortableVertex) | OtherObject

  /** v comes strictly before o: a lower grid cell, or the same cell and a smaller X. */
  predicate Before(v: SortableVertex, o: SortableVertex)
  {
    v.gridIndex < o.gridIndex || (v.gridIndex == o.gridIndex && Less(v.x, o.x))
  }

  /** The comparison of the X coordinates: -1, 1, or 0 when neither is below the other (which
      includes +0 against -0 and any comparison with NaN). */
  function CompareX(x: Float32, y: Float32): (r: int)
    ensures r == -1 <==> Less(x, y)
    ensures r == 1 <==> Less(y, x)
    ensures r == 0 <==> !Less(x, y) && !Less(y, x)
  {
    if Less(x, y) then -1 else if Less(y, x) then 1 else 0
  }

  /** `compareTo(o)` as written: the grid indices' difference, computed with wrapping `int`
      subtraction, when they differ; otherwise the comparison of X. */
  function CompareToAsWritten(v: SortableVertex, o: SortableVertex): (r: Int32)
    ensures v.gridIndex != o.gridIndex ==> r != 0
    ensures v.gridIndex == o.gridIndex ==> r == CompareX(v.x, o.x)
  {
    if v.gridIndex != o.gridIndex then Wrap32(v.gridIndex as int - o.gridIndex as int)
    else CompareX(v.x, o.x) as Int32
  }

  /** The comparison `compareTo` evidently intends: the sign of the grid indices' difference,
      without overflow, and then the comparison of X. */
  function Compare(v: SortableVertex, o: SortableVertex): (r: int)
    ensures r < 0 <==> Before(v, o)
    ensures r > 0 <==> Before(o, v)
    ensures r == 0 <==> v.gridIndex == o.gridIndex && !Less(v.x, o.x) && !Less(o.x, v.x)
  {
    if v.gridIndex < o.gridIndex then -1
    else if v.gridIndex > o.gridIndex then 1
    else CompareX(v.x, o.x)
  }

  /** Grid indices from `pointToGridIdx` are never negative, and on them no difference
      overflows: the written comparison has the intended sign. */
  lemma CompareToAsWrittenOnGridIndices(v: SortableVertex, o: SortableVertex)
    requires v.gridIndex >= 0 && o.gridIndex >= 0
    ensures CompareToAsWritten(v, o) < 0 <==> Compare(v, o) < 0
    ensures CompareToAsWritten(v, o) > 0 <==> Compare(v, o) > 0
  {
  }

  /** `CompareTo(obj)`: 1 for null, the comparison for a sortable vertex, and an
      ArgumentException for anything else. */
  function CompareToObject(v: SortableVertex, obj: Argument): (r: Result<Int32>)
    ensures obj.NullObject? ==> r == Success(1)
    ensures obj.OtherObject? ==> r == Failure(Argument)
    ensures obj.VertexObject? ==> r == Success(CompareToAsWritten(v, obj.v))
  {
    match obj
    case NullObject => Success(1)
    case VertexObject(o) => Success(CompareToAsWritten(v, o))
    case OtherObject => Failure(Argument)
  }

  /** `Equals(obj)`: a sortable vertex in the same grid cell with an X that compares equal; the
      original index is ignored, and anything else (null included) is unequal. */
  function VertexEquals(v: SortableVertex, obj: Argument): (r: bool)
    ensures r <==> obj.VertexObject? && obj.v.gridIndex == v.gridIndex && NumEq(v.x, obj.v.x)
  {
    match obj
    case VertexObject(o) => v.gridIndex == o.gridIndex && NumEq(v.x, o.x)
    case _ => false
  }

  /** For X coordinates that are not NaN, equality and a zero comparison agree. */
  lemma EqualsIffCompareZero(v: SortableVertex, o: SortableVertex)
    requires !IsNaN(v.x) && !IsNaN(o.x)
    ensures VertexEquals(v, VertexObject(o)) <==> Compare(v, o) == 0
    ensures VertexEquals(v, VertexObject(o)) <==> CompareToAsWritten(v, o) == 0
  {
  }

  /** The order `Array.Sort` arranges sortable vertices in: v is not after o, by grid cell and
      then by X (NaN placed by its bits, +0 and -0 together). */
  function Le(v: SortableVertex, o: SortableVertex): (r: bool)
    ensures !IsNaN(v.x) && !IsNaN(o.x) ==> (r <==> Compare(v, o) <= 0)
  {
    v.gridIndex < o.gridIndex || (v.gridIndex == o.gridIndex && OrderKey(v.x) <= OrderKey(o.x))
  }

  /** Le is total and transitive; vertices that tie are equivalent but not equal, so it is not
      antisymmetric and a sort may order them either way. */
  lemma LeTotalPreorder()
    ensures Sorting.TotalPreorder(Le)
    ensures !Sorting.Antisymmetric(Le)
  {
    var a, b := SortableVertex(Float32(0), 0, 0), SortableVertex(Float32(0), 0, 1);
    assert Le(a, b) && Le(b, a) && a != b;
  }
}
