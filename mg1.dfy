// MG1 index coding. The encoder canonicalises the triangle list (each
// triangle rotated so a strictly smallest index comes first, then the
// triangles sorted) and replaces the indices by deltas, working back to
// front in place; the decoder restores them front to back in place. All
// arithmetic is C# `int` arithmetic, which wraps.
module Mg1Indices {
  import opened Machine
  import opened Wrappers
  import opened Triangles
  import Sorting

  // ---------------------------------------------------------------------
  // An index array seen as triangles

  function TriangleAt(s: seq<Int32>, i: nat): Triangle
    requires 3 * i + 3 <= |s|
  {
    Triangle(s[3 * i], s[3 * i + 1], s[3 * i + 2])
  }

  /** The whole triangles of an index array, in order. */
  function Tris(s: seq<Int32>): (ts: seq<Triangle>)
    ensures |ts| == |s| / 3
  {
    if |s| < 3 then [] else [TriangleAt(s, 0)] + Tris(s[3..])
  }

  function Flatten(ts: seq<Triangle>): (s: seq<Int32>)
    ensures |s| == 3 * |ts|
  {
    if ts == [] then [] else [ts[0].e0, ts[0].e1, ts[0].e2] + Flatten(ts[1..])
  }

  lemma {:induction false} TrisAt(s: seq<Int32>, i: nat)
    requires i < |s| / 3
    ensures Tris(s)[i] == TriangleAt(s, i)
  {
    if i > 0 {
      TrisAt(s[3..], i - 1);
    }
  }

  /** Two arrays with the same triangles are seen as the same triangle list. */
  lemma TrisExt(s: seq<Int32>, ts: seq<Triangle>)
    requires |s| / 3 == |ts|
    requires forall j :: 0 <= j < |ts| ==> TriangleAt(s, j) == ts[j]
    ensures Tris(s) == ts
  {
    forall j | 0 <= j < |ts| ensures Tris(s)[j] == ts[j] {
      TrisAt(s, j);
    }
  }

  lemma {:induction false} TrisFlatten(ts: seq<Triangle>)
    ensures Tris(Flatten(ts)) == ts
  {
    if ts != [] {
      TrisFlatten(ts[1..]);
      assert Flatten(ts)[3..] == Flatten(ts[1..]);
    }
  }

  lemma {:induction false} FlattenTris(s: seq<Int32>)
    requires |s| % 3 == 0
    ensures Flatten(Tris(s)) == s
  {
    if |s| >= 3 {
      FlattenTris(s[3..]);
      assert s == s[..3] + s[3..];
    }
  }

  /** Writing the cells of triangle i leaves every other triangle as it was. */
  lemma OtherTrianglesUnchanged(s: seq<Int32>, s': seq<Int32>, i: nat)
    requires |s| == |s'| && 3 * i + 3 <= |s|
    requires forall p :: 0 <= p < |s| && (p < 3 * i || 3 * i + 3 <= p) ==> s'[p] == s[p]
    ensures forall j :: 0 <= j < |s| / 3 && j != i ==> TriangleAt(s', j) == TriangleAt(s, j)
  {
    forall j | 0 <= j < |s| / 3 && j != i ensures TriangleAt(s', j) == TriangleAt(s, j) {
      assert 3 * j + 3 <= 3 * i || 3 * i + 3 <= 3 * j;
    }
  }

  // ---------------------------------------------------------------------
  // Step 1 of rearrangeTriangles: rotation

  /** The rotation of step 1: a second index smaller than both others moves to the front with
      the third following it; likewise a third index smaller than both others. */
  function Rotate(t: Triangle): (r: Triangle)
    ensures r == t || r == Triangle(t.e1, t.e2, t.e0) || r == Triangle(t.e2, t.e0, t.e1)
    ensures t.e1 < t.e0 && t.e1 < t.e2 ==> r.e0 == t.e1
    ensures t.e2 < t.e0 && t.e2 < t.e1 ==> r.e0 == t.e2
    ensures !(t.e1 < t.e0 && t.e1 < t.e2) && !(t.e2 < t.e0 && t.e2 < t.e1) ==> r == t
  {
    if t.e1 < t.e0 && t.e1 < t.e2 then Triangle(t.e1, t.e2, t.e0)
    else if t.e2 < t.e0 && t.e2 < t.e1 then Triangle(t.e2, t.e0, t.e1)
    else t
  }

  /** Rotating is a cyclic shift, so a triangle keeps its winding; its first index is the
      smallest unless the two others tie for smallest. */
  lemma RotateKeepsWinding(t: Triangle)
    ensures Rotate(t) in {t, Triangle(t.e1, t.e2, t.e0), Triangle(t.e2, t.e0, t.e1)}
    ensures var r := Rotate(t); (r.e0 <= r.e1 && r.e0 <= r.e2) || (t.e1 == t.e2 && t.e1 < t.e0)
  {
  }

  lemma RotateIdempotent(t: Triangle)
    ensures Rotate(Rotate(t)) == Rotate(t)
  {
  }

  function RotateAll(ts: seq<Triangle>): (r: seq<Triangle>)
    ensures |r| == |ts| && forall i :: 0 <= i < |ts| ==> r[i] == Rotate(ts[i])
  {
    seq(|ts|, i requires 0 <= i < |ts| => Rotate(ts[i]))
  }

  /** What rearrangeTriangles makes of a triangle list: rotated, then sorted. */
  function Arranged(ts: seq<Triangle>): seq<Triangle>
  {
    Sorting.InsertionSort(RotateAll(ts), Le)
  }

  /** The rearranged triangles are in lexicographic order and are the rotated triangles,
      each as often as before. */
  lemma ArrangedSortedPermutation(ts: seq<Triangle>)
    ensures Sorting.Sorted(Arranged(ts), Le)
    ensures multiset(Arranged(ts)) == multiset(RotateAll(ts))
    ensures forall i, j :: 0 <= i < j < |Arranged(ts)| ==> !LexLess(Arranged(ts)[j], Arranged(ts)[i])
  {
    LeTotalOrder();
    Sorting.InsertionSortCorrect(RotateAll(ts), Le);
  }

  /** With no negative index the rearranged triangles are in the order of the written
      `compareTo`: no pair compares greater than a pair after it. */
  lemma ArrangedAsWritten(ts: seq<Triangle>)
    requires forall i :: 0 <= i < |ts| ==> NonNegative(ts[i])
    ensures forall i, j :: 0 <= i < j < |Arranged(ts)| ==> CompareToAsWritten(Arranged(ts)[i], Arranged(ts)[j]) <= 0
  {
    var a := Arranged(ts);
    ArrangedSortedPermutation(ts);
    forall i, j | 0 <= i < j < |a| ensures CompareToAsWritten(a[i], a[j]) <= 0 {
      RotatedNonNegative(ts, a, i);
      RotatedNonNegative(ts, a, j);
      CompareToAsWrittenOnIndices(a[i], a[j]);
    }
  }

  /** Every triangle of a permutation of the rotated triangles keeps non-negative indices. */
  lemma RotatedNonNegative(ts: seq<Triangle>, a: seq<Triangle>, i: nat)
    requires forall k :: 0 <= k < |ts| ==> NonNegative(ts[k])
    requires multiset(a) == multiset(RotateAll(ts)) && i < |a|
    ensures NonNegative(a[i])
  {
    assert a[i] in multiset(RotateAll(ts));
    var k :| 0 <= k < |ts| && RotateAll(ts)[k] == a[i];
    RotateKeepsWinding(ts[k]);
  }

  /** Rearranging twice is rearranging once. */
  lemma ArrangedIdempotent(ts: seq<Triangle>)
    ensures Arranged(Arranged(ts)) == Arranged(ts)
  {
    var a := Arranged(ts);
    ArrangedSortedPermutation(ts);
    forall t | t in multiset(a) ensures Rotate(t) == t {
      assert t in multiset(RotateAll(ts));
      var i :| 0 <= i < |ts| && RotateAll(ts)[i] == t;
      RotateIdempotent(ts[i]);
    }
    assert RotateAll(a) == a by {
      forall i | 0 <= i < |a| ensures RotateAll(a)[i] == a[i] {
        assert a[i] in multiset(a);
      }
    }
    LeTotalOrder();
    Sorting.SortSorted(a, Le);
  }

  // ---------------------------------------------------------------------
  // makeIndexDeltas and restoreIndices

  /** The deltas of triangle t given the original previous triangle (none for the first):
      the first index relative to the previous first; the second relative to the previous
      second when both firsts are equal, else to its own first; the third relative to its
      own first. */
  function DeltaOne(t: Triangle, prev: Option<Triangle>): Triangle
  {
    var second := if prev.Some? && t.e0 == prev.value.e0 then Wrap32(t.e1 as int - prev.value.e1 as int)
                  else Wrap32(t.e1 as int - t.e0 as int);
    var first := if prev.Some? then Wrap32(t.e0 as int - prev.value.e0 as int) else t.e0;
    Triangle(first, second, Wrap32(t.e2 as int - t.e0 as int))
  }

  function Previous(ts: seq<Triangle>, i: nat): Option<Triangle>
    requires i <= |ts|
  {
    if i == 0 then None else Some(ts[i - 1])
  }

  function Deltas(ts: seq<Triangle>): (ds: seq<Triangle>)
    ensures |ds| == |ts|
  {
    seq(|ts|, i requires 0 <= i < |ts| => DeltaOne(ts[i], Previous(ts, i)))
  }

  /** Triangle d restored given the already restored previous triangle: the first index, then
      the third from it, then the second from the previous second when the restored firsts
      are equal, else from its own first. */
  function RestoreOne(d: Triangle, prev: Option<Triangle>): Triangle
  {
    var first := if prev.Some? then Wrap32(d.e0 as int + prev.value.e0 as int) else d.e0;
    var third := Wrap32(d.e2 as int + first as int);
    var second := if prev.Some? && first == prev.value.e0 then Wrap32(d.e1 as int + prev.value.e1 as int)
                  else Wrap32(d.e1 as int + first as int);
    Triangle(first, second, third)
  }

  /** Triangle i of the restored list. */
  function RestoredAt(ds: seq<Triangle>, i: nat): Triangle
    requires i < |ds|
  {
    RestoreOne(ds[i], if i == 0 then None else Some(RestoredAt(ds, i - 1)))
  }

  function Restored(ds: seq<Triangle>): (ts: seq<Triangle>)
    ensures |ts| == |ds|
  {
    seq(|ds|, i requires 0 <= i < |ds| => RestoredAt(ds, i))
  }

  lemma RestoreDeltaOne(t: Triangle, prev: Option<Triangle>)
    ensures RestoreOne(DeltaOne(t, prev), prev) == t
  {
    RestoreDeltaFirst(t, prev);
    RestoreDeltaThird(t, prev);
    RestoreDeltaSecond(t, prev);
  }

  lemma RestoreDeltaFirst(t: Triangle, prev: Option<Triangle>)
    ensures RestoreOne(DeltaOne(t, prev), prev).e0 == t.e0
  {
    if prev.Some? {
      WrapSubAdd(t.e0, prev.value.e0);
    }
  }

  lemma RestoreDeltaThird(t: Triangle, prev: Option<Triangle>)
    ensures RestoreOne(DeltaOne(t, prev), prev).e2 == t.e2
  {
    RestoreDeltaFirst(t, prev);
    WrapSubAdd(t.e2, t.e0);
  }

  lemma RestoreDeltaSecond(t: Triangle, prev: Option<Triangle>)
    ensures RestoreOne(DeltaOne(t, prev), prev).e1 == t.e1
  {
    RestoreDeltaFirst(t, prev);
    var d := DeltaOne(t, prev);
    if prev.Some? && t.e0 == prev.value.e0 {
      assert d.e1 == Wrap32(t.e1 as int - prev.value.e1 as int);
      WrapSubAdd(t.e1, prev.value.e1);
    } else {
      assert d.e1 == Wrap32(t.e1 as int - t.e0 as int);
      WrapSubAdd(t.e1, t.e0);
    }
  }

  lemma DeltaRestoreOne(d: Triangle, prev: Option<Triangle>)
    ensures DeltaOne(RestoreOne(d, prev), prev) == d
  {
    DeltaRestoreFirst(d, prev);
    DeltaRestoreThird(d, prev);
    DeltaRestoreSecond(d, prev);
  }

  lemma DeltaRestoreFirst(d: Triangle, prev: Option<Triangle>)
    ensures DeltaOne(RestoreOne(d, prev), prev).e0 == d.e0
  {
    if prev.Some? {
      WrapAddSub(d.e0, prev.value.e0);
    }
  }

  lemma DeltaRestoreThird(d: Triangle, prev: Option<Triangle>)
    ensures DeltaOne(RestoreOne(d, prev), prev).e2 == d.e2
  {
    var t := RestoreOne(d, prev);
    assert t.e2 == Wrap32(d.e2 as int + t.e0 as int);
    WrapAddSub(d.e2, t.e0);
  }

  lemma DeltaRestoreSecond(d: Triangle, prev: Option<Triangle>)
    ensures DeltaOne(RestoreOne(d, prev), prev).e1 == d.e1
  {
    var t := RestoreOne(d, prev);
    if prev.Some? && t.e0 == prev.value.e0 {
      assert t.e1 == Wrap32(d.e1 as int + prev.value.e1 as int);
      WrapAddSub(d.e1, prev.value.e1);
    } else {
      assert t.e1 == Wrap32(d.e1 as int + t.e0 as int);
      WrapAddSub(d.e1, t.e0);
    }
  }

  lemma {:induction false} RestoredDeltasAt(ts: seq<Triangle>, i: nat)
    requires i < |ts|
    ensures RestoredAt(Deltas(ts), i) == ts[i]
  {
    if i > 0 {
      RestoredDeltasAt(ts, i - 1);
    }
    RestoreDeltaOne(ts[i], Previous(ts, i));
  }

  /** restoreIndices inverts makeIndexDeltas on every triangle list, wrap-around included. */
  lemma RestoredDeltas(ts: seq<Triangle>)
    ensures Restored(Deltas(ts)) == ts
  {
    forall i | 0 <= i < |ts| ensures Restored(Deltas(ts))[i] == ts[i] {
      RestoredDeltasAt(ts, i);
    }
  }

  /** ... and makeIndexDeltas inverts restoreIndices: every delta list comes from exactly one
      triangle list. */
  lemma DeltasRestored(ds: seq<Triangle>)
    ensures Deltas(Restored(ds)) == ds
  {
    forall i | 0 <= i < |ds| ensures Deltas(Restored(ds))[i] == ds[i] {
      DeltasRestoredAt(ds, i);
    }
  }

  lemma DeltasRestoredAt(ds: seq<Triangle>, i: nat)
    requires i < |ds|
    ensures Deltas(Restored(ds))[i] == ds[i]
  {
    var ts := Restored(ds);
    var prev := if i == 0 then None else Some(RestoredAt(ds, i - 1));
    assert Previous(ts, i) == prev;
    DeltaRestoreOne(ds[i], prev);
  }

  // ---------------------------------------------------------------------
  // The in-place methods

  /** One iteration of step 1 of rearrangeTriangles: the triangle at off = 3i rotated in place. */
  method RotateTriangle(a: array<Int32>, off: nat, ghost i: nat)
    requires off == 3 * i && off + 3 <= a.Length
    modifies a
    ensures TriangleAt(a[..], i) == Rotate(TriangleAt(old(a[..]), i))
    ensures forall p :: 0 <= p < a.Length && (p < off || off + 3 <= p) ==> a[p] == old(a[p])
  {
    if a[off + 1] < a[off] && a[off + 1] < a[off + 2] {
      var tmp := a[off];
      a[off] := a[off + 1];
      a[off + 1] := a[off + 2];
      a[off + 2] := tmp;
    } else if a[off + 2] < a[off] && a[off + 2] < a[off + 1] {
      var tmp := a[off];
      a[off] := a[off + 2];
      a[off + 2] := a[off + 1];
      a[off + 1] := tmp;
    }
  }

  /** `rearrangeTriangles(indices)`: a length that is not a multiple of three throws; otherwise
      every triangle is rotated in place, the triangles are copied out, sorted, and copied
      back. */
  method RearrangeTriangles(a: array<Int32>) returns (ok: Outcome)
    modifies a
    ensures ok.Pass? <==> a.Length % 3 == 0
    ensures ok.Pass? ==> Tris(a[..]) == Arranged(Tris(old(a[..])))
    ensures ok.Fail? ==> ok.error == General && a[..] == old(a[..])
  {
    if a.Length % 3 != 0 {
      return Fail(General);
    }
    ghost var orig := Tris(a[..]);
    var n := a.Length / 3;
    forall j | 0 <= j < n ensures TriangleAt(a[..], j) == orig[j] {
      TrisAt(a[..], j);
    }
    // Step 1: rotate each triangle so that a strictly smallest index comes first
    var off := 0;
    ghost var k := 0;
    while off < a.Length
      invariant off == 3 * k && off <= a.Length
      invariant forall j :: 0 <= j < n ==> TriangleAt(a[..], j) == if j < k then Rotate(orig[j]) else orig[j]
    {
      ghost var before := a[..];
      RotateTriangle(a, off, k);
      OtherTrianglesUnchanged(before, a[..], k);
      off := off + 3;
      k := k + 1;
    }
    // Step 2: copy the triangles out, sort them, and copy them back
    ghost var rotated := a[..];
    var tris: seq<Triangle> := [];
    var i := 0;
    while i < n
      invariant i <= n && |tris| == i
      invariant a[..] == rotated
      invariant forall j :: 0 <= j < i ==> tris[j] == Rotate(orig[j])
    {
      var t := FromArray(a, 3 * i);
      tris := tris + [t];
      i := i + 1;
    }
    assert tris == RotateAll(orig);
    tris := Sorting.InsertionSort(tris, Le);
    i := 0;
    while i < n
      invariant i <= n
      invariant forall j :: 0 <= j < i ==> TriangleAt(a[..], j) == tris[j]
    {
      ghost var before := a[..];
      CopyBack(tris[i], a, 3 * i);
      OtherTrianglesUnchanged(before, a[..], i);
      i := i + 1;
    }
    TrisExt(a[..], tris);
    return Pass;
  }

  /** One iteration of makeIndexDeltas: triangle i replaced by its deltas against triangle
      i - 1 (none for the first), which still holds its original values. */
  method DeltaTriangle(a: array<Int32>, i: nat)
    requires 3 * i + 3 <= a.Length
    modifies a
    ensures TriangleAt(a[..], i) ==
      DeltaOne(TriangleAt(old(a[..]), i), if i == 0 then None else Some(TriangleAt(old(a[..]), i - 1)))
    ensures forall p :: 0 <= p < a.Length && (p < 3 * i || 3 * i + 3 <= p) ==> a[p] == old(a[p])
  {
    ghost var t := TriangleAt(a[..], i);
    ghost var prev := if i == 0 then None else Some(TriangleAt(a[..], i - 1));
    ghost var r := DeltaOne(t, prev);
    // Step 1: the second index
    if i >= 1 && a[i * 3] == a[(i - 1) * 3] {
      a[i * 3 + 1] := Wrap32(a[i * 3 + 1] as int - a[(i - 1) * 3 + 1] as int);
    } else {
      a[i * 3 + 1] := Wrap32(a[i * 3 + 1] as int - a[i * 3] as int);
    }
    assert a[i * 3 + 1] == r.e1;
    // Step 2: the third index
    a[i * 3 + 2] := Wrap32(a[i * 3 + 2] as int - a[i * 3] as int);
    assert a[i * 3 + 2] == r.e2;
    // Step 3: the first index
    if i >= 1 {
      a[i * 3] := Wrap32(a[i * 3] as int - a[(i - 1) * 3] as int);
    }
    assert a[i * 3] == r.e0;
  }

  /** `makeIndexDeltas(indices)`: a length that is not a multiple of three throws; otherwise the
      triangles are replaced by their deltas from the last to the first, so that each one is
      taken against the original previous triangle. */
  method MakeIndexDeltas(a: array<Int32>) returns (ok: Outcome)
    modifies a
    ensures ok.Pass? <==> a.Length % 3 == 0
    ensures ok.Pass? ==> Tris(a[..]) == Deltas(Tris(old(a[..])))
    ensures ok.Fail? ==> ok.error == General && a[..] == old(a[..])
  {
    if a.Length % 3 != 0 {
      return Fail(General);
    }
    ghost var orig := Tris(a[..]);
    var n := a.Length / 3;
    forall j | 0 <= j < n ensures TriangleAt(a[..], j) == orig[j] {
      TrisAt(a[..], j);
    }
    var i := n - 1;
    while i >= 0
      invariant -1 <= i < n
      invariant forall j :: 0 <= j <= i ==> TriangleAt(a[..], j) == orig[j]
      invariant forall j :: i < j < n ==> TriangleAt(a[..], j) == DeltaOne(orig[j], Previous(orig, j))
    {
      ghost var before := a[..];
      DeltaTriangle(a, i);
      OtherTrianglesUnchanged(before, a[..], i);
      i := i - 1;
    }
    TrisExt(a[..], Deltas(orig));
    return Pass;
  }

  /** One iteration of restoreIndices: triangle i restored against the already restored
      triangle i - 1 (none for the first), in the source's order of updates. */
  method RestoreTriangle(a: array<Int32>, i: nat)
    requires 3 * i + 3 <= a.Length
    modifies a
    ensures TriangleAt(a[..], i) ==
      RestoreOne(TriangleAt(old(a[..]), i), if i == 0 then None else Some(TriangleAt(old(a[..]), i - 1)))
    ensures forall p :: 0 <= p < a.Length && (p < 3 * i || 3 * i + 3 <= p) ==> a[p] == old(a[p])
  {
    ghost var d := TriangleAt(a[..], i);
    ghost var prev := if i == 0 then None else Some(TriangleAt(a[..], i - 1));
    ghost var r := RestoreOne(d, prev);
    var off := i * 3;
    // Step 1: the first index
    if i >= 1 {
      a[off] := Wrap32(a[off] as int + a[off - 3] as int);
    }
    assert a[off] == r.e0;
    // Step 2: the third index
    a[off + 2] := Wrap32(a[off + 2] as int + a[off] as int);
    assert a[off + 2] == r.e2;
    // Step 3: the second index
    if i >= 1 && a[off] == a[off - 3] {
      a[off + 1] := Wrap32(a[off + 1] as int + a[off - 2] as int);
    } else {
      a[off + 1] := Wrap32(a[off + 1] as int + a[off] as int);
    }
    assert a[off + 1] == r.e1;
    assert a[off] == r.e0 && a[off + 2] == r.e2;
  }

  /** `restoreIndices(triangleCount, indices)`: the first triangleCount triangles are restored
      from the first to the last, each against the already restored previous one; the rest of
      the array is left alone. */
  method RestoreIndices(triangleCount: Int32, a: array<Int32>)
    requires 3 * triangleCount <= a.Length
    modifies a
    ensures triangleCount <= 0 ==> a[..] == old(a[..])
    ensures triangleCount > 0 ==>
      Tris(a[..3 * triangleCount]) == Restored(Tris(old(a[..3 * triangleCount]))) &&
      a[3 * triangleCount..] == old(a[3 * triangleCount..])
  {
    if triangleCount <= 0 {
      return;
    }
    ghost var n := triangleCount as nat;
    ghost var ds := Tris(a[..3 * n]);
    forall j | 0 <= j < n ensures TriangleAt(a[..], j) == ds[j] {
      TrisAt(a[..3 * n], j);
      assert TriangleAt(a[..3 * n], j) == TriangleAt(a[..], j);
    }
    var i := 0;
    while i < triangleCount
      invariant 0 <= i <= triangleCount
      invariant forall j :: 0 <= j < i ==> TriangleAt(a[..], j) == RestoredAt(ds, j)
      invariant forall j :: i <= j < n ==> TriangleAt(a[..], j) == ds[j]
      invariant forall p :: 3 * n <= p < a.Length ==> a[p] == old(a[p])
    {
      ghost var before := a[..];
      RestoreTriangle(a, i);
      OtherTrianglesUnchanged(before, a[..], i);
      i := i + 1;
    }
    assert a[3 * n..] == old(a[3 * n..]);
    forall j | 0 <= j < n ensures TriangleAt(a[..3 * n], j) == Restored(ds)[j] {
      assert TriangleAt(a[..3 * n], j) == TriangleAt(a[..], j);
    }
    TrisExt(a[..3 * n], Restored(ds));
  }
}
