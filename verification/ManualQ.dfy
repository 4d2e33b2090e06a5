/** MANUAL_Q: the ring buffer that holds the operations missed by a tree under
    reconstruction (ikd_Tree.h:203-255). */
module ManualQ {

  class Queue<T> {
    const cap: nat
    const q: array<T>
    var head: int
    var tail: int
    var counter: int
    var isEmpty: bool

    ghost predicate Valid()
      reads this, q
    {
      && q.Length == cap > 0
      && 0 <= head < cap && 0 <= tail < cap && 0 <= counter <= cap
      && tail == Slot(counter)
      && (isEmpty <==> counter == 0)
    }

    /** The slot of the i-th entry from the front, 0 <= i <= cap. */
    ghost function Slot(i: int): int
      reads this
    {
      if head + i < cap then head + i else head + i - cap
    }

    ghost function Contents(): (s: seq<T>)
      reads this, q
      requires Valid()
      ensures |s| == counter
    {
      if head + counter <= cap then q[head..head + counter]
      else q[head..] + q[..head + counter - cap]
    }

    constructor (capacity: nat, blank: T)
      requires capacity > 0
      ensures Valid() && Contents() == [] && cap == capacity && fresh(q)
    {
      cap := capacity;
      q := new T[capacity](_ => blank);
      head, tail, counter, isEmpty := 0, 0, 0, true;
    }

    method Clear()
      requires q.Length == cap > 0
      modifies this
      ensures Valid() && Contents() == []
    {
      head, tail, counter, isEmpty := 0, 0, 0, true;
    }

    method Empty() returns (b: bool)
      requires Valid()
      ensures b <==> Contents() == []
    {
      b := isEmpty;
    }

    method Front() returns (t: T)
      requires Valid() && Contents() != []
      ensures t == Contents()[0]
    {
      t := q[head];
      assert t == Contents()[0];
    }

    method Pop()
      requires Valid()
      modifies this
      ensures Valid()
      ensures Contents() == if old(Contents()) == [] then [] else old(Contents())[1..]
    {
      if counter == 0 { return; }
      ghost var c := Contents();
      assert c[0] == q[head];
      Wrap(head + 1);
      head := head + 1;
      head := head % cap;
      counter := counter - 1;
      if counter == 0 { isEmpty := true; }
      assert Contents() == c[1..];
    }

    lemma Wrap(i: int)
      requires 0 < i <= cap
      ensures i % cap == if i < cap then i else 0
    {
    }

    /** push does not look at the capacity: it appends below it; on a full buffer it destroys
        the oldest entry and leaves a state that is no queue any more. */
    method Push(op: T)
      requires Valid()
      modifies this, q
      ensures old(counter) < cap ==> Valid() && Contents() == old(Contents()) + [op]
      ensures old(counter) == cap ==> !Valid() && q[old(head)] == op
    {
      ghost var c := Contents();
      q[tail] := op;
      counter := counter + 1;
      if isEmpty { isEmpty := false; }
      Wrap(tail + 1);
      tail := tail + 1;
      tail := tail % cap;
      assert old(counter) < cap ==> Contents() == c + [op];
    }
  }
}
