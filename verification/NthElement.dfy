/** The library contract of std::nth_element on part of a point vector, as BuildTree uses it
    (ikd_Tree.cpp:710-724), with a plain selection in place of the library's algorithm. */
module NthElement {
  import opened Geometry

  /** a[mid] is the element a full sort by `axis` would put there. */
  ghost predicate Divided(s: seq<Point>, l: int, mid: int, r: int, axis: int)
    requires 0 <= l <= mid <= r < |s|
  {
    && (forall i :: l <= i < mid ==> Coord(s[i].at, axis) <= Coord(s[mid].at, axis))
    && (forall i :: mid < i <= r ==> Coord(s[i].at, axis) >= Coord(s[mid].at, axis))
  }

  method Swap(a: array<Point>, l: int, i: int, j: int, r: int)
    requires 0 <= l <= i <= j <= r < a.Length
    modifies a
    ensures a[..] == old(a[..])[i := old(a[j])][j := old(a[i])]
    ensures multiset(a[l..r + 1]) == old(multiset(a[l..r + 1]))
  {
    ghost var s := a[l..r + 1];
    a[i], a[j] := a[j], a[i];
    assert a[l..r + 1] == s[i - l := s[j - l]][j - l := s[i - l]];
  }

  method NthElement(a: array<Point>, l: int, mid: int, r: int, axis: int)
    requires 0 <= l <= mid <= r < a.Length
    modifies a
    ensures multiset(a[l..r + 1]) == old(multiset(a[l..r + 1]))
    ensures forall i :: 0 <= i < a.Length && !(l <= i <= r) ==> a[i] == old(a[i])
    ensures Divided(a[..], l, mid, r, axis)
  {
    var k := l;
    while k <= mid
      invariant l <= k <= mid + 1
      invariant multiset(a[l..r + 1]) == old(multiset(a[l..r + 1]))
      invariant forall i :: 0 <= i < a.Length && !(l <= i <= r) ==> a[i] == old(a[i])
      invariant forall i, j :: l <= i < k && i < j <= r ==>
                  Coord(a[i].at, axis) <= Coord(a[j].at, axis)
    {
      var m := k;
      for j := k + 1 to r + 1
        invariant k <= m <= r
        invariant forall i :: k <= i < j ==> Coord(a[m].at, axis) <= Coord(a[i].at, axis)
      {
        if Coord(a[j].at, axis) < Coord(a[m].at, axis) { m := j; }
      }
      Swap(a, l, k, m, r);
      k := k + 1;
    }
  }
}
