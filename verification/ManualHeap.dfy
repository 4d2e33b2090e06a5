/** MANUAL_HEAP: the bounded max-heap of search candidates (ikd_Tree.h:93-201). */
module ManualHeap {
  import opened Geometry

  /** PointType_CMP. */
  datatype Cand = Cand(point: Point, dist: int)

  /** PointType_CMP::operator<, on grid distances. */
  predicate Less(a: Cand, b: Cand) {
    if a.dist == b.dist then a.point.at.x < b.point.at.x else a.dist < b.dist
  }

  function Parent(i: int): int { (i - 1) / 2 }

  /** No element is above its parent. */
  ghost predicate Ordered(h: seq<Cand>) {
    forall i :: 0 < i < |h| ==> !Less(h[Parent(i)], h[i])
  }

  /** Heap order except between position i and its parent, which position i may exceed. */
  ghost predicate OrderedButUp(h: seq<Cand>, i: int)
    requires 0 <= i < |h|
  {
    && (forall j :: 0 < j < |h| && j != i ==> !Less(h[Parent(j)], h[j]))
    && (forall j :: 0 < j < |h| && Parent(j) == i && i > 0 ==> !Less(h[Parent(i)], h[j]))
  }

  /** Heap order except between position i and its children, which may exceed it. */
  ghost predicate OrderedButDown(h: seq<Cand>, i: int)
    requires 0 <= i < |h|
  {
    && (forall j :: 0 < j < |h| && Parent(j) != i ==> !Less(h[Parent(j)], h[j]))
    && (forall j :: 0 < j < |h| && Parent(j) == i && i > 0 ==> !Less(h[Parent(i)], h[j]))
  }

  function Swapped(h: seq<Cand>, i: int, j: int): seq<Cand>
    requires 0 <= i < |h| && 0 <= j < |h|
  {
    h[i := h[j]][j := h[i]]
  }

  lemma SwapKeeps(h: seq<Cand>, i: int, j: int)
    requires 0 <= i < |h| && 0 <= j < |h|
    ensures multiset(Swapped(h, i, j)) == multiset(h)
  {
  }

  lemma UpStep(h: seq<Cand>, i: int)
    requires 0 < i < |h| && OrderedButUp(h, i) && Less(h[Parent(i)], h[i])
    ensures OrderedButUp(Swapped(h, i, Parent(i)), Parent(i))
  {
    var a, g := Parent(i), Swapped(h, i, Parent(i));
    forall j | 0 < j < |g| && j != a ensures !Less(g[Parent(j)], g[j]) {
      assert j == i || g[j] == h[j];
    }
  }

  lemma UpDone(h: seq<Cand>, i: int)
    requires 0 <= i < |h| && OrderedButUp(h, i)
    requires i > 0 ==> !Less(h[Parent(i)], h[i])
    ensures Ordered(h)
  {
  }

  /** l is a child of i, and not below its sibling. */
  ghost predicate GreaterChild(h: seq<Cand>, i: int, l: int) {
    && 0 <= i < l < |h| && (l == 2 * i + 1 || l == 2 * i + 2)
    && !Less(h[l], h[2 * i + 1])
    && (2 * i + 2 < |h| ==> !Less(h[l], h[2 * i + 2]))
  }

  lemma Children(i: int, j: int)
    requires 0 <= i && 0 < j
    ensures Parent(j) == i <==> j == 2 * i + 1 || j == 2 * i + 2
  {
  }

  lemma DownStep(h: seq<Cand>, i: int, l: int)
    requires GreaterChild(h, i, l) && OrderedButDown(h, i) && Less(h[i], h[l])
    ensures OrderedButDown(Swapped(h, i, l), l)
  {
    var g := Swapped(h, i, l);
    forall j | 0 < j < |g| ensures Parent(j) != l ==> !Less(g[Parent(j)], g[j]) {
      Children(i, j);
    }
    Children(i, l);
  }

  lemma DownDone(h: seq<Cand>, i: int)
    requires 0 <= i < |h| && OrderedButDown(h, i)
    requires 2 * i + 1 < |h| ==> exists l :: GreaterChild(h, i, l) && !Less(h[i], h[l])
    ensures Ordered(h)
  {
    forall j | 0 < j < |h| ensures !Less(h[Parent(j)], h[j]) {
      Children(i, j);
    }
  }

  /** The root of a heap is a maximum. */
  lemma {:induction false} TopIsMax(h: seq<Cand>, i: int)
    requires Ordered(h) && 0 <= i < |h|
    ensures !Less(h[0], h[i])
    decreases i
  {
    if i > 0 { TopIsMax(h, Parent(i)); }
  }

  class Heap {
    var heap: array<Cand>
    var heapSize: int
    const cap: int

    ghost predicate Valid()
      reads this, heap
    {
      0 <= heapSize <= cap == heap.Length && Ordered(heap[..heapSize])
    }

    ghost function Contents(): multiset<Cand>
      reads this, heap
      requires Valid()
    {
      multiset(heap[..heapSize])
    }

    constructor (maxCapacity: nat)
      ensures Valid() && Contents() == multiset{} && cap == maxCapacity && fresh(heap)
    {
      cap := maxCapacity;
      heap := new Cand[maxCapacity](_ => Cand(Point(Vec(0, 0, 0), 0), 0));
      heapSize := 0;
    }

    method Size() returns (n: int)
      requires Valid()
      ensures n == |Contents()|
    {
      n := heapSize;
    }

    method Clear()
      requires Valid()
      modifies this`heapSize
      ensures Valid() && Contents() == multiset{}
    {
      heapSize := 0;
    }

    /** top: a greatest element in the (distance, x) order. */
    method Top() returns (c: Cand)
      requires Valid() && Contents() != multiset{}
      ensures c == heap[0] && c in Contents()
      ensures forall e :: e in Contents() ==> !Less(c, e)
    {
      c := heap[0];
      ghost var h := heap[..heapSize];
      assert h[0] in h;
      forall e | e in Contents() ensures !Less(c, e) {
        var i :| 0 <= i < |h| && h[i] == e;
        TopIsMax(h, i);
      }
    }

    /** push: a full heap ignores the element. */
    method Push(c: Cand)
      requires Valid()
      modifies this`heapSize, heap
      ensures Valid() && heap == old(heap)
      ensures Contents() ==
        if old(heapSize) >= cap then old(Contents()) else old(Contents()) + multiset{c}
    {
      if heapSize >= cap { return; }
      heap[heapSize] := c;
      assert heap[..heapSize + 1] == old(heap[..heapSize]) + [c];
      assert OrderedButUp(heap[..heapSize + 1], heapSize) by {
        assert heap[..heapSize] == old(heap[..heapSize]);
      }
      FloatUp(heapSize);
      heapSize := heapSize + 1;
    }

    method FloatUp(start: int)
      requires heap.Length == cap && 0 <= start == heapSize < cap
      requires OrderedButUp(heap[..start + 1], start)
      modifies heap
      ensures Ordered(heap[..start + 1])
      ensures multiset(heap[..start + 1]) == old(multiset(heap[..start + 1]))
    {
      hide OrderedButUp, Ordered, Less, Holed, Swapped;
      var i := start;
      var tmp := heap[i];
      ghost var v := heap[..start + 1];
      HoleStart(v, i);
      while i > 0
        invariant 0 <= i <= start
        invariant |v| == start + 1 && v[i] == tmp && Holed(heap[..start + 1], v, i, tmp)
        invariant OrderedButUp(v, i)
        invariant multiset(v) == old(multiset(heap[..start + 1]))
      {
        var ancestor := (i - 1) / 2;
        HoleAway(heap[..start + 1], v, i, ancestor, tmp);
        assert heap[..start + 1][ancestor] == heap[ancestor];
        if Less(heap[ancestor], tmp) {
          SwapKeeps(v, i, ancestor);
          UpStep(v, i);
          HoleStep(heap[..start + 1], v, i, ancestor, tmp);
          ghost var h := heap[..start + 1];
          heap[i] := heap[ancestor];
          assert heap[..start + 1] == h[i := v[ancestor]];
          v := Swapped(v, i, ancestor);
          i := ancestor;
        } else {
          break;
        }
      }
      UpDone(v, i);
      HoleFilled(heap[..start + 1], v, i, tmp);
      ghost var h := heap[..start + 1];
      heap[i] := tmp;
      assert heap[..start + 1] == h[i := tmp];
    }

    /** pop: removes the top. */
    method Pop()
      requires Valid()
      modifies this`heapSize, heap
      ensures Valid() && heap == old(heap)
      ensures old(heapSize) == 0 ==> Contents() == multiset{}
      ensures old(heapSize) > 0 ==> Contents() == old(Contents()) - multiset{old(heap[0])}
    {
      if heapSize == 0 { return; }
      ghost var h := heap[..heapSize];
      heap[0] := heap[heapSize - 1];
      heapSize := heapSize - 1;
      RemovedTop(h, heap[..heapSize]);
      if heapSize > 0 {
        MoveDown();
      }
    }

    /** MoveDown(0); with no element left it only stores heap[0] back. */
    method MoveDown()
      requires heap.Length == cap && 0 < heapSize <= cap
      requires OrderedButDown(heap[..heapSize], 0)
      modifies heap
      ensures Ordered(heap[..heapSize])
      ensures multiset(heap[..heapSize]) == old(multiset(heap[..heapSize]))
    {
      hide OrderedButDown, Ordered, Less, Holed, GreaterChild, Swapped;
      var i, l := 0, 1;
      var tmp := heap[i];
      ghost var v := heap[..heapSize];
      HoleStart(v, i);
      while l < heapSize
        invariant 0 <= i < heapSize && l == 2 * i + 1
        invariant |v| == heapSize && v[i] == tmp && Holed(heap[..heapSize], v, i, tmp)
        invariant OrderedButDown(v, i)
        invariant multiset(v) == old(multiset(heap[..heapSize]))
        decreases heapSize - l
      {
        l := PickChild(l, v, i, tmp);
        if Less(tmp, heap[l]) {
          SwapKeeps(v, i, l);
          DownStep(v, i, l);
          HoleStep(heap[..heapSize], v, i, l, tmp);
          ghost var h := heap[..heapSize];
          heap[i] := heap[l];
          assert heap[..heapSize] == h[i := v[l]];
          v := Swapped(v, i, l);
          i := l;
          l := i * 2 + 1;
        } else {
          break;
        }
      }
      DownDone(v, i);
      HoleFilled(heap[..heapSize], v, i, tmp);
      ghost var h := heap[..heapSize];
      heap[i] := tmp;
      assert heap[..heapSize] == h[i := tmp];
    }

    /** The greater one of the children of position i. */
    method PickChild(l: int, ghost v: seq<Cand>, ghost i: int, ghost tmp: Cand) returns (c: int)
      requires heap.Length == cap && 0 < heapSize <= cap
      requires 0 <= i && l == 2 * i + 1 < heapSize && Holed(heap[..heapSize], v, i, tmp)
      ensures i < c < heapSize == |v|
      ensures GreaterChild(v, i, c) && heap[c] == v[c]
    {
      assert heap[l] == heap[..heapSize][l] == v[l];
      c := l;
      if l + 1 < heapSize {
        assert heap[l + 1] == heap[..heapSize][l + 1] == v[l + 1];
        if Less(heap[l], heap[l + 1]) { c := l + 1; }
      }
    }
  }

  /** v is h with the element in transit written at position i. */
  ghost predicate Holed(h: seq<Cand>, v: seq<Cand>, i: int, tmp: Cand) {
    && 0 <= i < |h| == |v| && v[i] == tmp
    && (forall j :: 0 <= j < |h| && j != i ==> h[j] == v[j])
  }

  lemma HoleStart(h: seq<Cand>, i: int)
    requires 0 <= i < |h|
    ensures Holed(h, h, i, h[i])
  {
  }

  lemma HoleAway(h: seq<Cand>, v: seq<Cand>, i: int, j: int, tmp: Cand)
    requires Holed(h, v, i, tmp) && 0 <= j < |h| && i != j
    ensures |v| == |h| && h[j] == v[j]
  {
  }

  lemma HoleStep(h: seq<Cand>, v: seq<Cand>, i: int, j: int, tmp: Cand)
    requires Holed(h, v, i, tmp) && 0 <= j < |h| && i != j
    ensures |v| == |h| && Holed(h[i := v[j]], Swapped(v, i, j), j, tmp)
    ensures |Swapped(v, i, j)| == |v| && Swapped(v, i, j)[j] == tmp
  {
  }

  lemma HoleFilled(h: seq<Cand>, v: seq<Cand>, i: int, tmp: Cand)
    requires Holed(h, v, i, tmp)
    ensures h[i := tmp] == v
  {
  }

  /** Moving the last element to the root of a heap and dropping its old place. */
  lemma RemovedTop(h: seq<Cand>, g: seq<Cand>)
    requires |h| > 0 && Ordered(h) && |g| == |h| - 1
    requires forall j :: 0 < j < |g| ==> g[j] == h[j]
    requires |g| > 0 ==> g[0] == h[|g|]
    ensures |g| > 0 ==> OrderedButDown(g, 0)
    ensures multiset(g) == multiset(h) - multiset{h[0]}
  {
    if |g| > 0 {
      assert g == [h[|g|]] + h[1..|g|];
      assert h == [h[0]] + h[1..|g|] + [h[|g|]];
    } else {
      assert h == [h[0]];
    }
  }
}
