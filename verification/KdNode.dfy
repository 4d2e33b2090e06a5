/** KD_TREE_NODE as an object, with the node-local steps Push_Down and Update.

    Each node carries, for the proof only, the value of its subtree (`tree`) and the set of
    nodes it is made of (`repr`). */
module KdNode {
  import opened Prelude
  import opened Geometry
  import opened LazyTree

  class Node {
    /** The scalar fields, kept together. */
    var d: Rec
    var left: Node?
    var right: Node?
    ghost var repr: set<Node>
    ghost var tree: Tree

    static ghost function TreeOf(n: Node?): Tree
      reads n
    {
      if n == null then Nil else n.tree
    }

    static ghost function Repr(n: Node?): set<Node>
      reads n
    {
      if n == null then {} else n.repr
    }

    /** The sons are proper trees on nodes of their own. */
    ghost predicate Linked()
      reads this, repr
      decreases repr, 0
    {
      && this in repr
      && (left != null ==>
            left in repr && left.repr <= repr && this !in left.repr && left.Valid())
      && (right != null ==>
            right in repr && right.repr <= repr && this !in right.repr && right.Valid())
      && (left != null && right != null ==> left.repr !! right.repr)
    }

    ghost predicate Valid()
      reads this, repr
      ensures Valid() ==> this in repr
      decreases repr, 1
    {
      Linked() && tree == Bin(d, TreeOf(left), TreeOf(right))
    }

    function Son(toLeft: bool): Node?
      reads this
    {
      if toLeft then left else right
    }

    /** Nothing of n's nodes is part of this node or of its son on the given side. */
    ghost predicate Apart(toLeft: bool, n: Node?)
      reads this, repr, n
    {
      && this in repr
      && (n != null ==> this !in n.repr)
      && var other := Son(toLeft);
         other != null ==>
           && other in repr && other.repr <= repr && this !in other.repr && other.Valid()
           && (n != null ==> other.repr !! n.repr)
    }

    /** Store a son pointer and refresh the ghost view of this node. */
    method SetSon(toLeft: bool, s: Node?)
      requires s != null ==> s.Valid()
      requires Apart(!toLeft, s)
      modifies this
      ensures Valid() && d == old(d)
      ensures Son(toLeft) == s && Son(!toLeft) == old(Son(!toLeft))
      ensures repr == {this} + Repr(left) + Repr(right)
      ensures tree == Bin(d, TreeOf(left), TreeOf(right))
    {
      if toLeft { left := s; } else { right := s; }
      repr := {this} + Repr(left) + Repr(right);
      tree := Bin(d, TreeOf(left), TreeOf(right));
    }

    /** new KD_TREE_NODE followed by InitTreeNode. */
    constructor InitTreeNode()
      ensures Valid() && fresh(repr) && repr == {this}
      ensures left == null && right == null
      ensures d == BlankRec()
    {
      d := BlankRec();
      left, right := null, null;
      repr := {this};
      tree := Bin(BlankRec(), Nil, Nil);
    }

    /** What Push_Down does to one son; the source has four copies of these lines. */
    method Receive(f: Rec)
      requires Valid()
      modifies this
      ensures Valid() && repr == old(repr) && left == old(left) && right == old(right)
      ensures tree == Bin(Received(f, old(tree.d)), old(tree.l), old(tree.r))
    {
      var treeDown := d.treeDown || f.treeDown;
      var pointDown := d.pointDown || f.treeDown;
      var treeDeleted := f.treeDeleted || treeDown;
      var pointDeleted := treeDeleted || pointDown;
      var downNum := if f.treeDown then d.size else d.downNum;
      d := d.(treeDown := treeDown, pointDown := pointDown, treeDeleted := treeDeleted,
              pointDeleted := pointDeleted, downNum := downNum,
              invalid := if f.treeDeleted then d.size else downNum,
              pushLeft := true, pushRight := true);
      tree := Bin(d, tree.l, tree.r);
    }

    method PushDown()
      requires Valid()
      modifies this, left, right
      ensures Valid() && repr == old(repr) && left == old(left) && right == old(right)
      ensures left != null ==> left.repr == old(left.repr)
      ensures right != null ==> right.repr == old(right.repr)
      ensures tree == LazyTree.PushDown(old(tree))
    {
      if d.pushLeft && left != null {
        left.Receive(d);
        d := d.(pushLeft := false);
      }
      if d.pushRight && right != null {
        right.Receive(d);
        d := d.(pushRight := false);
      }
      tree := Bin(d, TreeOf(left), TreeOf(right));
    }

    /** The branch of Update for two sons. */
    static method UpdateFromBoth(d: Rec, a: Rec, b: Rec) returns (n: Rec)
      ensures n == UpdatedBoth(d, a, b)
    {
      hide Join;
      var treeDeleted := a.treeDeleted && b.treeDeleted && d.pointDeleted;
      var acc: Option<Range> := None;
      if treeDeleted || (!a.treeDeleted && !b.treeDeleted && !d.pointDeleted) {
        acc := Some(Join(Join(a.range, b.range), Single(d.point.at)));
      } else {
        acc := Grow(acc, !a.treeDeleted, a.range);
        acc := Grow(acc, !b.treeDeleted, b.range);
        acc := Grow(acc, !d.pointDeleted, Single(d.point.at));
      }
      n := d.(size := a.size + b.size + 1,
              invalid := a.invalid + b.invalid + (if d.pointDeleted then 1 else 0),
              downNum := a.downNum + b.downNum + (if d.pointDown then 1 else 0),
              treeDown := a.treeDown && b.treeDown && d.pointDown,
              treeDeleted := treeDeleted, range := acc.value);
    }

    /** The branch of Update for one son; the source writes it out for either side. */
    static method UpdateFromOne(d: Rec, a: Rec) returns (n: Rec)
      ensures n == UpdatedOne(d, a)
    {
      hide Join;
      var treeDeleted := a.treeDeleted && d.pointDeleted;
      var acc: Option<Range> := None;
      if treeDeleted || (!a.treeDeleted && !d.pointDeleted) {
        acc := Some(Join(a.range, Single(d.point.at)));
      } else {
        acc := Grow(acc, !a.treeDeleted, a.range);
        acc := Grow(acc, !d.pointDeleted, Single(d.point.at));
      }
      n := d.(size := a.size + 1,
              invalid := a.invalid + (if d.pointDeleted then 1 else 0),
              downNum := a.downNum + (if d.pointDown then 1 else 0),
              treeDown := a.treeDown && d.pointDown,
              treeDeleted := treeDeleted, range := acc.value);
    }

    /** Update: recompute the cached fields from the sons. */
    method Update()
      requires Linked()
      modifies this
      ensures Valid() && repr == old(repr) && left == old(left) && right == old(right)
      ensures tree == LazyTree.Update(old(Bin(d, TreeOf(left), TreeOf(right))))
    {
      hide UpdatedBoth, UpdatedOne;
      var n: Rec;
      if left != null && right != null {
        n := UpdateFromBoth(d, left.d, right.d);
      } else if left != null {
        n := UpdateFromOne(d, left.d);
      } else if right != null {
        n := UpdateFromOne(d, right.d);
      } else {
        n := d.(size := 1, invalid := if d.pointDeleted then 1 else 0,
                downNum := if d.pointDown then 1 else 0);
        n := n.(treeDown := n.pointDown, treeDeleted := n.pointDeleted);
        n := n.(range := Single(n.point.at));
      }
      d := n;
      tree := Bin(d, TreeOf(left), TreeOf(right));
    }
  }
}
