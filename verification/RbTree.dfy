/** The red-black tree operations that include/tree.h generates. */
module RbTree {
  import opened Basics
  import opened UidOrder
  import opened RbShape
  import opened RbLinks
  import opened RbRepair
  import opened RbSearch

  class RuleHead {
    var root: Rule?
    ghost var repr: set<Rule>
    ghost var tree: Tree

    /** `RB_INIT`. */
    constructor ()
      ensures Valid() && tree == Leaf && repr == {}
    {
      root, repr, tree := null, {}, Leaf;
    }

    /** The link fields of the rules in the tree. */
    ghost function Snapshot(): (m: Memory)
      reads this`repr, repr
      ensures m.Keys == repr
    {
      map n | n in repr :: Links(n.left, n.right, n.parent, n.color)
    }

    /** The tree in memory is `t` in the hole of `p`, and its rules are those in `repr`. */
    ghost predicate At(t: Tree, p: Path)
      reads this`root, this`repr, repr
    {
      repr == Nodes(t) + PathNodes(p) && Holds(Snapshot(), t, p, root)
    }

    /** The rule `n` is stored in the tree, or is null. */
    ghost predicate Stored(n: Rule?)
      reads this`repr
    {
      n != null ==> n in repr
    }

    /** `RB_ROTATE_LEFT`, field by field. */
    method TurnLeft(elm: Rule) returns (tmp: Rule)
      requires elm in repr && elm.right != null && elm.right in repr && elm.right != elm
      requires Stored(elm.right.left) && elm.right.left !in {elm, elm.right}
      requires Stored(elm.parent) && (elm.parent != null ==> elm.parent !in {elm, elm.right, elm.right.left})
      modifies this`root, repr
      ensures tmp == old(elm.right)
      ensures elm.left == old(elm.left) && elm.right == old(tmp.left)
      ensures elm.parent == tmp && elm.color == old(elm.color)
      ensures tmp.left == elm && tmp.right == old(tmp.right)
      ensures tmp.parent == old(elm.parent) && tmp.color == old(tmp.color)
      ensures elm.right != null ==> Snapshot()[elm.right] == old(Snapshot())[elm.right].(parent := elm)
      ensures tmp.parent != null ==>
          Snapshot()[tmp.parent] == Relinked(old(Snapshot()), tmp.parent, elm, tmp)[tmp.parent]
      ensures root == if tmp.parent == null then tmp else old(root)
      ensures Same(old(Snapshot()), Snapshot(), repr - {elm, tmp} - {elm.right, tmp.parent})
    {
      tmp := elm.right;
      elm.right := tmp.left;
      if elm.right != null {
        tmp.left.parent := elm;
      }
      tmp.parent := elm.parent;
      if tmp.parent != null {
        if elm == elm.parent.left {
          elm.parent.left := tmp;
        } else {
          elm.parent.right := tmp;
        }
      } else {
        root := tmp;
      }
      tmp.left := elm;
      elm.parent := tmp;
    }

    /** A left rotation at the focus. */
    method RotateLeft(elm: Rule, ghost t: Tree, ghost p: Path) returns (tmp: Rule)
      requires At(t, p) && t.Node? && t.rule == elm && t.right.Node?
      modifies this`root, repr
      ensures tmp == t.right.rule
      ensures At(RotatedLeft(t), p)
    {
      ghost var m, root0 := Snapshot(), root;
      assert Nodes(RotatedLeft(t)) == Nodes(t);
      hide Holds, Relinked, Nodes, RotatedLeft;
      RotateLeftLinks(m, t, p, root);
      tmp := TurnLeft(elm);
      RotateLeftHolds(m, Snapshot(), t, p, root0);
    }

    /** `RB_ROTATE_RIGHT`, field by field. */
    method TurnRight(elm: Rule) returns (tmp: Rule)
      requires elm in repr && elm.left != null && elm.left in repr && elm.left != elm
      requires Stored(elm.left.right) && elm.left.right !in {elm, elm.left}
      requires Stored(elm.parent) && (elm.parent != null ==> elm.parent !in {elm, elm.left, elm.left.right})
      modifies this`root, repr
      ensures tmp == old(elm.left)
      ensures elm.right == old(elm.right) && elm.left == old(tmp.right)
      ensures elm.parent == tmp && elm.color == old(elm.color)
      ensures tmp.right == elm && tmp.left == old(tmp.left)
      ensures tmp.parent == old(elm.parent) && tmp.color == old(tmp.color)
      ensures elm.left != null ==> Snapshot()[elm.left] == old(Snapshot())[elm.left].(parent := elm)
      ensures tmp.parent != null ==>
          Snapshot()[tmp.parent] == Relinked(old(Snapshot()), tmp.parent, elm, tmp)[tmp.parent]
      ensures root == if tmp.parent == null then tmp else old(root)
      ensures Same(old(Snapshot()), Snapshot(), repr - {elm, tmp} - {elm.left, tmp.parent})
    {
      tmp := elm.left;
      elm.left := tmp.right;
      if elm.left != null {
        tmp.right.parent := elm;
      }
      tmp.parent := elm.parent;
      if tmp.parent != null {
        if elm == elm.parent.left {
          elm.parent.left := tmp;
        } else {
          elm.parent.right := tmp;
        }
      } else {
        root := tmp;
      }
      tmp.right := elm;
      elm.parent := tmp;
    }

    /** A right rotation at the focus. */
    method RotateRight(elm: Rule, ghost t: Tree, ghost p: Path) returns (tmp: Rule)
      requires At(t, p) && t.Node? && t.rule == elm && t.left.Node?
      modifies this`root, repr
      ensures tmp == t.left.rule
      ensures At(RotatedRight(t), p)
    {
      ghost var m, root0 := Snapshot(), root;
      assert Nodes(RotatedRight(t)) == Nodes(t);
      hide Holds, Relinked, Nodes, RotatedRight;
      RotateRightLinks(m, t, p, root);
      tmp := TurnRight(elm);
      RotateRightHolds(m, Snapshot(), t, p, root0);
    }

    /** `RB_COLOR(n) = c` for the rule at the focus. */
    method Paint(n: Rule, c: Color, ghost t: Tree, ghost p: Path)
      requires At(t, p) && t.Node? && t.rule == n
      modifies repr
      ensures At(t.(color := c), p)
    {
      ghost var m := Snapshot();
      n.color := c;
      PaintHolds(m, Snapshot(), t, p, root, c);
    }

    lemma FocusUp(t: Tree, p: Path)
      requires At(t, p) && !p.Top?
      ensures At(Zip(p, t), p.up)
    {
    }

    lemma FocusLeft(t: Tree, p: Path)
      requires At(t, p) && t.Node?
      ensures At(t.left, LeftOf(t.color, p, t.rule, t.right))
    {
    }

    lemma FocusRight(t: Tree, p: Path)
      requires At(t, p) && t.Node?
      ensures At(t.right, RightOf(t.color, t.left, t.rule, p))
    {
    }

    /** What the fields of the rule at the focus say. */
    lemma FocusFields(t: Tree, p: Path)
      requires At(t, p) && t.Node?
      ensures t.rule in repr && t.rule.left == Ptr(t.left) && t.rule.right == Ptr(t.right)
      ensures t.rule.parent == ParentOf(p) && t.rule.color == t.color
      ensures t.rule !in {Ptr(t.left), Ptr(t.right)}
      ensures Ptr(t.left) == Ptr(t.right) ==> Ptr(t.left) == null
    {
    }

    /** The branch of `RB_INSERT_COLOR` for a parent that is a left child with a red sibling. */
    method RecolorLeft(uncle: Rule, parent: Rule, gparent: Rule, ghost t: Tree, ghost p: Path)
      requires !p.Top? && p.up.LeftOf? && p.up.right.Node?
      requires At(Zip(p.up, Zip(p, t)), p.up.up)
      requires p.rule == parent && p.up.rule == gparent && p.up.right.rule == uncle
      modifies repr
      ensures At(Recolored(t, p), p.up.up)
    {
      hide At;
      ghost var s, q, g, u, c := Zip(p, t), p.up.up, p.up.rule, p.up.right, p.up.color;
      FocusRight(Node(c, s, g, u), q);
      Paint(uncle, Black, u, RightOf(c, s, g, q));
      FocusUp(Blacken(u), RightOf(c, s, g, q));
      FocusLeft(Node(c, s, g, Blacken(u)), q);
      Paint(parent, Black, s, LeftOf(c, q, g, Blacken(u)));
      FocusUp(Blacken(s), LeftOf(c, q, g, Blacken(u)));
      Paint(gparent, Red, Node(c, Blacken(s), g, Blacken(u)), q);
    }

    /** The branch of `RB_INSERT_COLOR` for a parent that is a left child without a red sibling. */
    method StraightenLeft(elm: Rule, parent: Rule, gparent: Rule, ghost t: Tree, ghost p: Path, ghost h: int)
      returns (next: Rule)
      requires !p.Top? && p.up.LeftOf? && p.color.Red? && t.Node?
      requires At(t, p) && InsertFlaw(t, p, h) && !IsRed(Uncle(p))
      requires t.rule == elm && p.rule == parent && p.up.rule == gparent
      modifies this`root, repr
      ensures At(Turned(t, p), p.up.up) && Turned(t, p).left.Node? && Turned(t, p).left.rule == next
    {
      hide At, Balanced, PathBalanced, NoRedRed, PathOk;
      ghost var s := Zip(p, t);
      FocusUp(t, p);
      FocusFields(s, p.up);
      var parent', elm', tmp := parent, elm, null;
      if parent.right == elm {
        tmp := RotateLeft(parent, s, p.up);
        parent', elm' := elm, parent;
      }
      StraightenedOk(t, p, h);
      s := Straightened(t, p);
      Paint(parent', Black, s, p.up);
      FocusUp(Blacken(s), p.up);
      Paint(gparent, Red, Zip(p.up, Blacken(s)), p.up.up);
      tmp := RotateRight(gparent, Node(Red, Blacken(s), gparent, p.up.right), p.up.up);
      next := elm';
    }

    /** The branch of `RB_INSERT_COLOR` in which the parent is a left child. */
    method InsertColorLeft(elm: Rule, parent: Rule, gparent: Rule, ghost t: Tree, ghost p: Path, ghost h: int)
      returns (next: Rule, ghost t': Tree, ghost p': Path, ghost h': int)
      requires !p.Top? && p.up.LeftOf? && p.color.Red? && t.Node?
      requires At(t, p) && InsertFlaw(t, p, h)
      requires t.rule == elm && p.rule == parent && p.up.rule == gparent
      modifies this`root, repr
      ensures t'.Node? && At(t', p') && InsertFlaw(t', p', h') && t'.rule == next
      ensures Whole(t', p') == Whole(t, p) && Climb(p') < Climb(p)
    {
      hide At, Whole, InsertFlaw;
      ghost var s, q := Zip(p, t), p.up.up;
      assert Length(p) == 2 + Length(q);
      ghost var g := Zip(p.up, s);
      FocusUp(t, p);
      FocusUp(s, p.up);
      FocusFields(g, q);
      FocusRight(g, q);
      var tmp := gparent.right;
      if tmp != null { FocusFields(g.right, RightOf(g.color, g.left, g.rule, q)); }
      if tmp != null && tmp.color == Red {
        RecolorLeft(tmp, parent, gparent, t, p);
        RecoloredFlaw(t, p, h);
        RecoloredWhole(t, p);
        next, t', p', h' := gparent, Recolored(t, p), q, h + 1;
      } else {
        next := StraightenLeft(elm, parent, gparent, t, p, h);
        TurnedFlaw(t, p, h);
        ghost var r := Turned(t, p);
        FocusLeft(r, q);
        t', p', h' := r.left, LeftOf(Black, q, r.rule, r.right), h;
      }
    }

    /** The branch of `RB_INSERT_COLOR` for a parent that is a right child with a red sibling. */
    method RecolorRight(uncle: Rule, parent: Rule, gparent: Rule, ghost t: Tree, ghost p: Path)
      requires !p.Top? && p.up.RightOf? && p.up.left.Node?
      requires At(Zip(p.up, Zip(p, t)), p.up.up)
      requires p.rule == parent && p.up.rule == gparent && p.up.left.rule == uncle
      modifies repr
      ensures At(Recolored(t, p), p.up.up)
    {
      hide At;
      ghost var s, q, g, u, c := Zip(p, t), p.up.up, p.up.rule, p.up.left, p.up.color;
      FocusLeft(Node(c, u, g, s), q);
      Paint(uncle, Black, u, LeftOf(c, q, g, s));
      FocusUp(Blacken(u), LeftOf(c, q, g, s));
      FocusRight(Node(c, Blacken(u), g, s), q);
      Paint(parent, Black, s, RightOf(c, Blacken(u), g, q));
      FocusUp(Blacken(s), RightOf(c, Blacken(u), g, q));
      Paint(gparent, Red, Node(c, Blacken(u), g, Blacken(s)), q);
    }

    /** The branch of `RB_INSERT_COLOR` for a parent that is a right child without a red sibling. */
    method StraightenRight(elm: Rule, parent: Rule, gparent: Rule, ghost t: Tree, ghost p: Path, ghost h: int)
      returns (next: Rule)
      requires !p.Top? && p.up.RightOf? && p.color.Red? && t.Node?
      requires At(t, p) && InsertFlaw(t, p, h) && !IsRed(Uncle(p))
      requires t.rule == elm && p.rule == parent && p.up.rule == gparent
      modifies this`root, repr
      ensures At(Turned(t, p), p.up.up) && Turned(t, p).right.Node? && Turned(t, p).right.rule == next
    {
      hide At, Balanced, PathBalanced, NoRedRed, PathOk;
      ghost var s := Zip(p, t);
      FocusUp(t, p);
      FocusFields(s, p.up);
      var parent', elm', tmp := parent, elm, null;
      if parent.left == elm {
        tmp := RotateRight(parent, s, p.up);
        parent', elm' := elm, parent;
      }
      StraightenedOk(t, p, h);
      s := Straightened(t, p);
      Paint(parent', Black, s, p.up);
      FocusUp(Blacken(s), p.up);
      Paint(gparent, Red, Zip(p.up, Blacken(s)), p.up.up);
      tmp := RotateLeft(gparent, Node(Red, p.up.left, gparent, Blacken(s)), p.up.up);
      next := elm';
    }

    /** The branch of `RB_INSERT_COLOR` in which the parent is a right child. */
    method InsertColorRight(elm: Rule, parent: Rule, gparent: Rule, ghost t: Tree, ghost p: Path, ghost h: int)
      returns (next: Rule, ghost t': Tree, ghost p': Path, ghost h': int)
      requires !p.Top? && p.up.RightOf? && p.color.Red? && t.Node?
      requires At(t, p) && InsertFlaw(t, p, h)
      requires t.rule == elm && p.rule == parent && p.up.rule == gparent
      modifies this`root, repr
      ensures t'.Node? && At(t', p') && InsertFlaw(t', p', h') && t'.rule == next
      ensures Whole(t', p') == Whole(t, p) && Climb(p') < Climb(p)
    {
      hide At, Whole, InsertFlaw;
      ghost var s, q := Zip(p, t), p.up.up;
      assert Length(p) == 2 + Length(q);
      ghost var g := Zip(p.up, s);
      FocusUp(t, p);
      FocusUp(s, p.up);
      FocusFields(g, q);
      FocusLeft(g, q);
      var tmp := gparent.left;
      if tmp != null { FocusFields(g.left, LeftOf(g.color, q, g.rule, g.right)); }
      if tmp != null && tmp.color == Red {
        RecolorRight(tmp, parent, gparent, t, p);
        RecoloredFlaw(t, p, h);
        RecoloredWhole(t, p);
        next, t', p', h' := gparent, Recolored(t, p), q, h + 1;
      } else {
        next := StraightenRight(elm, parent, gparent, t, p, h);
        TurnedFlaw(t, p, h);
        ghost var r := Turned(t, p);
        FocusRight(r, q);
        t', p', h' := r.right, RightOf(Black, r.left, r.rule, q), h;
      }
    }

    lemma FocusTop(t: Tree, p: Path)
      requires At(t, p)
      ensures At(Plug(p, t), Top)
    {
      GraftTop(p);
      PlugHolds(Snapshot(), p, t, Top, root);
      PlugNodes(p, t);
    }

    lemma FocusRoot(t: Tree)
      requires At(t, Top)
      ensures root == Ptr(t) && repr == Nodes(t)
    {
    }

    /** What the fields of the parent of the focus say. */
    lemma ParentFields(t: Tree, p: Path)
      requires At(t, p) && !p.Top?
      ensures p.rule in repr && p.rule.color == p.color && p.rule.parent == ParentOf(p.up)
      ensures (p.rule.left == Ptr(t) && p.rule.right == Ptr(p.right) <== p.LeftOf?)
      ensures (p.rule.right == Ptr(t) && p.rule.left == Ptr(p.left) <== p.RightOf?)
      ensures t.Node? ==> t.rule != Ptr(Sibling(p))
    {
      FocusUp(t, p);
      FocusFields(Zip(p, t), p.up);
    }

    /** `RB_INSERT_COLOR` restores every red-black condition above a freshly linked red rule. */
    method InsertColor(elm0: Rule, ghost t0: Tree, ghost p0: Path, ghost h0: int) returns (ghost whole: Tree)
      requires t0.Node? && At(t0, p0) && InsertFlaw(t0, p0, h0) && t0.rule == elm0
      modifies this`root, repr
      ensures At(whole, Top) && RedBlack(whole) && Inorder(whole) == Whole(t0, p0)
    {
      hide At, Whole, InsertFlaw, RedBlack, Inorder;
      var elm := elm0;
      ghost var t, p, h := t0, p0, h0;
      FocusFields(t, p);
      if !p.Top? { ParentFields(t, p); }
      var parent := elm.parent;
      while parent != null && parent.color == Red
        invariant t.Node? && At(t, p) && InsertFlaw(t, p, h) && Whole(t, p) == Whole(t0, p0)
        invariant elm == t.rule && parent == ParentOf(p) && (parent != null ==> parent.color == p.color)
        decreases Climb(p)
      {
        GrandparentExists(t, p, h);
        ParentFields(t, p);
        FocusUp(t, p);
        ParentFields(Zip(p, t), p.up);
        var gparent := parent.parent;
        if parent == gparent.left {
          elm, t, p, h := InsertColorLeft(elm, parent, gparent, t, p, h);
        } else {
          elm, t, p, h := InsertColorRight(elm, parent, gparent, t, p, h);
        }
        FocusFields(t, p);
        if !p.Top? { ParentFields(t, p); }
        parent := elm.parent;
      }
      InsertDone(t, p, h);
      FocusTop(t, p);
      FocusRoot(Plug(p, t));
      PlugNode(p, t);
      Paint(root, Black, Plug(p, t), Top);
      whole := Blacken(Plug(p, t));
    }

    /** `RB_REMOVE_COLOR`: a red sibling on the right goes above the parent. */
    method LowerLeft(parent: Rule, tmp0: Rule, ghost t: Tree, ghost p: Path)
      requires p.LeftOf? && IsRed(p.right) && At(t, p) && p.rule == parent && p.right.rule == tmp0
      modifies this`root, repr
      ensures At(t, Lowered(p))
    {
      hide At;
      ghost var c, up, n, w := p.color, p.up, p.rule, p.right;
      FocusUp(t, p);
      FocusRight(Node(c, t, n, w), up);
      Paint(tmp0, Black, w, RightOf(c, t, n, up));
      FocusUp(Blacken(w), RightOf(c, t, n, up));
      Paint(parent, Red, Node(c, t, n, Blacken(w)), up);
      var tmp := RotateLeft(parent, Node(Red, t, n, Blacken(w)), up);
      FocusLeft(Node(Black, Node(Red, t, n, w.left), w.rule, w.right), up);
      FocusLeft(Node(Red, t, n, w.left), LeftOf(Black, up, w.rule, w.right));
    }

    /** `RB_REMOVE_COLOR`: the inner red child of a sibling on the right goes above the sibling. */
    method OuterLeft(tmp: Rule, ghost w: Tree, ghost p: Path)
      requires w.Node? && IsRed(w.left) && At(w, p) && w.rule == tmp
      modifies this`root, repr
      ensures At(RotatedRight(Node(Red, Blacken(w.left), w.rule, w.right)), p)
    {
      hide At;
      FocusFields(w, p);
      FocusLeft(w, p);
      var oleft := tmp.left;
      if oleft != null {
        Paint(oleft, Black, w.left, LeftOf(w.color, p, w.rule, w.right));
      }
      FocusUp(Blacken(w.left), LeftOf(w.color, p, w.rule, w.right));
      Paint(tmp, Red, w.(left := Blacken(w.left)), p);
      oleft := RotateRight(tmp, Node(Red, Blacken(w.left), w.rule, w.right), p);
    }

    /** `RB_REMOVE_COLOR`: the last rotation, for a sibling on the right whose outer child is red. */
    method RefillLeft(parent: Rule, tmp: Rule, ghost t: Tree, ghost w: Tree, ghost c: Color, ghost up: Path)
      requires w.Node? && IsRed(w.right) && At(Node(c, t, parent, w), up) && w.rule == tmp
      modifies this`root, repr
      ensures At(RotatedLeft(Node(Black, t, parent, Node(c, w.left, w.rule, Blacken(w.right)))), up)
    {
      hide At;
      FocusFields(Node(c, t, parent, w), up);
      FocusRight(Node(c, t, parent, w), up);
      ghost var p, w' := RightOf(c, t, parent, up), w.(color := c);
      Paint(tmp, parent.color, w, p);
      FocusUp(w', p);
      Paint(parent, Black, Node(c, t, parent, w'), up);
      FocusRight(Node(Black, t, parent, w'), up);
      p := RightOf(Black, t, parent, up);
      FocusFields(w', p);
      FocusRight(w', p);
      if tmp.right != null {
        Paint(tmp.right, Black, w.right, RightOf(c, w.left, tmp, p));
      }
      FocusUp(Blacken(w.right), RightOf(c, w.left, tmp, p));
      FocusUp(Node(c, w.left, tmp, Blacken(w.right)), p);
      var tmp' := RotateLeft(parent, Node(Black, t, parent, Node(c, w.left, tmp, Blacken(w.right))), up);
    }

    /** `RB_REMOVE_COLOR`: both rotations for a black sibling on the right with a red child. */
    method FillLeft(parent: Rule, tmp0: Rule, ghost t: Tree, ghost p: Path)
      requires p.LeftOf? && p.right.Node? && (IsRed(p.right.left) || IsRed(p.right.right))
      requires At(t, p) && p.rule == parent && p.right.rule == tmp0
      modifies this`root, repr
      ensures At(Refilled(t, p), p.up)
    {
      hide At;
      var tmp := tmp0;
      ghost var c, n, w := p.color, p.rule, p.right;
      ghost var q := RightOf(c, t, n, p.up);
      FocusUp(t, p);
      FocusRight(Node(c, t, n, w), p.up);
      FocusFields(w, q);
      FocusRight(w, q);
      if w.right.Node? { FocusFields(w.right, RightOf(w.color, w.left, tmp0, q)); }
      if tmp.right == null || tmp.right.color == Black {
        OuterLeft(tmp, w, q);
        w := OuterRed(p);
        ParentFields(w, q);
        tmp := parent.right;
      }
      FocusUp(w, q);
      RefillLeft(parent, tmp, t, w, c, p.up);
    }

    /** The branch of `RB_REMOVE_COLOR` in which the focus is a left child. */
    method RemoveColorLeft(parent0: Rule, elm0: Rule?, ghost t: Tree, ghost p0: Path, ghost h: int)
      returns (done: bool, elm: Rule?, parent: Rule?, ghost t': Tree, ghost p': Path, ghost h': int)
      requires p0.LeftOf? && At(t, p0) && RemoveFlaw(t, p0, h) && !IsRed(t) && p0.rule == parent0
      modifies this`root, repr
      ensures elm == Ptr(t') && At(t', p') && parent == ParentOf(p')
      ensures !done ==> RemoveFlaw(t', p', h') && Whole(t', p') == Whole(t, p0) && Deficit(t', p') < Deficit(t, p0)
      ensures done ==> p'.Top? && RedBlack(t') && Inorder(t') == Whole(t, p0)
    {
      hide At, Whole, RemoveFlaw, RedBlack, Inorder;
      ghost var p := p0;
      SiblingExists(t, p, h);
      ParentFields(t, p);
      SiblingFields(t, p);
      var tmp := parent0.right;
      if tmp.color == Red {
        LowerLeft(parent0, tmp, t, p);
        LoweredFlaw(t, p, h);
        LoweredWhole(t, p);
        p := Lowered(p);
        SiblingExists(t, p, h);
        ParentFields(t, p);
        SiblingFields(t, p);
        tmp := parent0.right;
      }
      if (tmp.left == null || tmp.left.color == Black) && (tmp.right == null || tmp.right.color == Black) {
        TurnSiblingRed(tmp, t, p);
        SiblingRedFlaw(t, p, h);
        elm := parent0;
        FocusFields(SiblingRed(t, p), p.up);
        parent := elm.parent;
        done, t', p', h' := false, SiblingRed(t, p), p.up, h + Step(p.color);
        assert Length(p) == Length(p.up) + 1 && Length(p0) == Length(p0.up) + 1;
      } else {
        FillLeft(parent0, tmp, t, p);
        RefilledOk(t, p, h);
        FocusTop(Refilled(t, p), p.up);
        done, parent, t', p', h' := true, null, Plug(p.up, Refilled(t, p)), Top, 0;
        FocusRoot(t');
        elm := root;
      }
    }

    /** `RB_REMOVE_COLOR`: a red sibling on the left goes above the parent. */
    method LowerRight(parent: Rule, tmp0: Rule, ghost t: Tree, ghost p: Path)
      requires p.RightOf? && IsRed(p.left) && At(t, p) && p.rule == parent && p.left.rule == tmp0
      modifies this`root, repr
      ensures At(t, Lowered(p))
    {
      hide At;
      ghost var c, up, n, w := p.color, p.up, p.rule, p.left;
      FocusUp(t, p);
      FocusLeft(Node(c, w, n, t), up);
      Paint(tmp0, Black, w, LeftOf(c, up, n, t));
      FocusUp(Blacken(w), LeftOf(c, up, n, t));
      Paint(parent, Red, Node(c, Blacken(w), n, t), up);
      var tmp := RotateRight(parent, Node(Red, Blacken(w), n, t), up);
      FocusRight(Node(Black, w.left, w.rule, Node(Red, w.right, n, t)), up);
      FocusRight(Node(Red, w.right, n, t), RightOf(Black, w.left, w.rule, up));
    }

    /** `RB_REMOVE_COLOR`: the inner red child of a sibling on the left goes above the sibling. */
    method OuterRight(tmp: Rule, ghost w: Tree, ghost p: Path)
      requires w.Node? && IsRed(w.right) && At(w, p) && w.rule == tmp
      modifies this`root, repr
      ensures At(RotatedLeft(Node(Red, w.left, w.rule, Blacken(w.right))), p)
    {
      hide At;
      FocusFields(w, p);
      FocusRight(w, p);
      var oright := tmp.right;
      if oright != null {
        Paint(oright, Black, w.right, RightOf(w.color, w.left, w.rule, p));
      }
      FocusUp(Blacken(w.right), RightOf(w.color, w.left, w.rule, p));
      Paint(tmp, Red, w.(right := Blacken(w.right)), p);
      oright := RotateLeft(tmp, Node(Red, w.left, w.rule, Blacken(w.right)), p);
    }

    /** `RB_REMOVE_COLOR`: the last rotation, for a sibling on the left whose outer child is red. */
    method RefillRight(parent: Rule, tmp: Rule, ghost t: Tree, ghost w: Tree, ghost c: Color, ghost up: Path)
      requires w.Node? && IsRed(w.left) && At(Node(c, w, parent, t), up) && w.rule == tmp
      modifies this`root, repr
      ensures At(RotatedRight(Node(Black, Node(c, Blacken(w.left), w.rule, w.right), parent, t)), up)
    {
      hide At;
      FocusFields(Node(c, w, parent, t), up);
      FocusLeft(Node(c, w, parent, t), up);
      ghost var p, w' := LeftOf(c, up, parent, t), w.(color := c);
      Paint(tmp, parent.color, w, p);
      FocusUp(w', p);
      Paint(parent, Black, Node(c, w', parent, t), up);
      FocusLeft(Node(Black, w', parent, t), up);
      p := LeftOf(Black, up, parent, t);
      FocusFields(w', p);
      FocusLeft(w', p);
      if tmp.left != null {
        Paint(tmp.left, Black, w.left, LeftOf(c, p, tmp, w.right));
      }
      FocusUp(Blacken(w.left), LeftOf(c, p, tmp, w.right));
      FocusUp(Node(c, Blacken(w.left), tmp, w.right), p);
      var tmp' := RotateRight(parent, Node(Black, Node(c, Blacken(w.left), tmp, w.right), parent, t), up);
    }

    /** `RB_REMOVE_COLOR`: both rotations for a black sibling on the left with a red child. */
    method FillRight(parent: Rule, tmp0: Rule, ghost t: Tree, ghost p: Path)
      requires p.RightOf? && p.left.Node? && (IsRed(p.left.right) || IsRed(p.left.left))
      requires At(t, p) && p.rule == parent && p.left.rule == tmp0
      modifies this`root, repr
      ensures At(Refilled(t, p), p.up)
    {
      hide At;
      var tmp := tmp0;
      ghost var c, n, w := p.color, p.rule, p.left;
      ghost var q := LeftOf(c, p.up, n, t);
      FocusUp(t, p);
      FocusLeft(Node(c, w, n, t), p.up);
      FocusFields(w, q);
      FocusLeft(w, q);
      if w.left.Node? { FocusFields(w.left, LeftOf(w.color, q, tmp0, w.right)); }
      if tmp.left == null || tmp.left.color == Black {
        OuterRight(tmp, w, q);
        w := OuterRed(p);
        ParentFields(w, q);
        tmp := parent.left;
      }
      FocusUp(w, q);
      RefillRight(parent, tmp, t, w, c, p.up);
    }

    /** The branch of `RB_REMOVE_COLOR` in which the focus is a right child. */
    method RemoveColorRight(parent0: Rule, elm0: Rule?, ghost t: Tree, ghost p0: Path, ghost h: int)
      returns (done: bool, elm: Rule?, parent: Rule?, ghost t': Tree, ghost p': Path, ghost h': int)
      requires p0.RightOf? && At(t, p0) && RemoveFlaw(t, p0, h) && !IsRed(t) && p0.rule == parent0
      modifies this`root, repr
      ensures elm == Ptr(t') && At(t', p') && parent == ParentOf(p')
      ensures !done ==> RemoveFlaw(t', p', h') && Whole(t', p') == Whole(t, p0) && Deficit(t', p') < Deficit(t, p0)
      ensures done ==> p'.Top? && RedBlack(t') && Inorder(t') == Whole(t, p0)
    {
      hide At, Whole, RemoveFlaw, RedBlack, Inorder;
      ghost var p := p0;
      SiblingExists(t, p, h);
      ParentFields(t, p);
      SiblingFields(t, p);
      var tmp := parent0.left;
      if tmp.color == Red {
        LowerRight(parent0, tmp, t, p);
        LoweredFlaw(t, p, h);
        LoweredWhole(t, p);
        p := Lowered(p);
        SiblingExists(t, p, h);
        ParentFields(t, p);
        SiblingFields(t, p);
        tmp := parent0.left;
      }
      if (tmp.right == null || tmp.right.color == Black) && (tmp.left == null || tmp.left.color == Black) {
        TurnSiblingRed(tmp, t, p);
        SiblingRedFlaw(t, p, h);
        elm := parent0;
        FocusFields(SiblingRed(t, p), p.up);
        parent := elm.parent;
        done, t', p', h' := false, SiblingRed(t, p), p.up, h + Step(p.color);
        assert Length(p) == Length(p.up) + 1 && Length(p0) == Length(p0.up) + 1;
      } else {
        FillRight(parent0, tmp, t, p);
        RefilledOk(t, p, h);
        FocusTop(Refilled(t, p), p.up);
        done, parent, t', p', h' := true, null, Plug(p.up, Refilled(t, p)), Top, 0;
        FocusRoot(t');
        elm := root;
      }
    }

    /** What the fields of the sibling of the focus say. */
    lemma SiblingFields(t: Tree, p: Path)
      requires At(t, p) && !p.Top? && Sibling(p).Node?
      ensures var w := Sibling(p);
        && w.rule in repr && w.rule.left == Ptr(w.left) && w.rule.right == Ptr(w.right) && w.rule.color == w.color
        && (w.left.Node? ==> w.rule.left.color == w.left.color)
        && (w.right.Node? ==> w.rule.right.color == w.right.color)
    {
      hide At;
      var s := Zip(p, t);
      FocusUp(t, p);
      if p.LeftOf? { FocusRight(s, p.up); } else { FocusLeft(s, p.up); }
      var w, q := Sibling(p), if p.LeftOf? then RightOf(p.color, t, p.rule, p.up) else LeftOf(p.color, p.up, p.rule, t);
      FocusFields(w, q);
      FocusLeft(w, q);
      FocusRight(w, q);
      if w.left.Node? { FocusFields(w.left, LeftOf(w.color, q, w.rule, w.right)); }
      if w.right.Node? { FocusFields(w.right, RightOf(w.color, w.left, w.rule, q)); }
    }

    /** `RB_REMOVE_COLOR`: the sibling turns red. */
    method TurnSiblingRed(tmp: Rule, ghost t: Tree, ghost p: Path)
      requires At(t, p) && !p.Top? && Sibling(p).Node? && Sibling(p).rule == tmp
      modifies repr
      ensures At(SiblingRed(t, p), p.up)
    {
      hide At;
      ghost var s, w := Zip(p, t), Sibling(p);
      FocusUp(t, p);
      ghost var q := if p.LeftOf? then RightOf(p.color, t, p.rule, p.up) else LeftOf(p.color, p.up, p.rule, t);
      if p.LeftOf? { FocusRight(s, p.up); } else { FocusLeft(s, p.up); }
      Paint(tmp, Red, w, q);
      FocusUp(w.(color := Red), q);
    }

    /** `RB_REMOVE_COLOR` restores every red-black condition when the focus lacks a black node. */
    method RemoveColor(parent0: Rule?, elm0: Rule?, ghost t0: Tree, ghost p0: Path, ghost h0: int)
      returns (ghost whole: Tree)
      requires At(t0, p0) && RemoveFlaw(t0, p0, h0) && elm0 == Ptr(t0) && parent0 == ParentOf(p0)
      modifies this`root, repr
      ensures At(whole, Top) && RedBlack(whole) && Inorder(whole) == Whole(t0, p0)
    {
      hide At, Whole, RemoveFlaw, RedBlack, Inorder;
      var elm, parent, done := elm0, parent0, false;
      ghost var t, p, h := t0, p0, h0;
      if t.Node? { FocusFields(t, p); }
      RootFocus(t, p);
      while (elm == null || elm.color == Black) && elm != root
        invariant At(t, p) && RemoveFlaw(t, p, h) && Whole(t, p) == Whole(t0, p0)
        invariant elm == Ptr(t) && parent == ParentOf(p) && (elm == root <==> p.Top?)
        invariant t.Node? ==> t.rule in repr && t.rule.color == t.color
        decreases Deficit(t, p)
      {
        ParentFields(t, p);
        SiblingExists(t, p, h);
        if parent.left == elm {
          done, elm, parent, t, p, h := RemoveColorLeft(parent, elm, t, p, h);
        } else {
          done, elm, parent, t, p, h := RemoveColorRight(parent, elm, t, p, h);
        }
        if done {
          break;
        }
        if t.Node? { FocusFields(t, p); }
        RootFocus(t, p);
      }
      if elm != null {
        Paint(elm, Black, t, p);
      }
      FocusTop(Blacken(t), p);
      whole := Plug(p, Blacken(t));
      if done {
        RedBlackRoot(t);
      } else {
        RemoveDone(t, p, h);
      }
    }

    /** The focus is the root exactly when its path is empty. */
    lemma RootFocus(t: Tree, p: Path)
      requires At(t, p)
      ensures Ptr(t) == root <==> p.Top?
    {
      if !p.Top? {
        RootOnPath(Snapshot(), p, Ptr(t), root);
      }
    }

    lemma FocusDown(t: Tree, p: Path)
      requires At(Plug(p, t), Top)
      ensures At(t, p)
    {
      GraftTop(p);
      PlugHolds(Snapshot(), p, t, Top, root);
      PlugNodes(p, t);
    }

    /** The tree is a red-black search tree, and the link fields of its rules spell it out. */
    ghost predicate Valid()
      reads this, repr
    {
      At(tree, Top) && RedBlack(tree) && Sorted(Inorder(tree))
    }

    /** `RB_FIND`; `steps` counts the rules that the search visits. */
    method Find(key: Uid) returns (r: Rule?, ghost steps: nat)
      requires Valid()
      ensures r != null ==> r in repr && r.uid == key
      ensures r == null ==> forall n :: n in repr ==> n.uid != key
      ensures Pow2(steps) <= (|Inorder(tree)| + 1) * (|Inorder(tree)| + 1)
    {
      hide At, RedBlack, Whole, Between, Sorted;
      var tmp := root;
      ghost var t, p := tree, Top;
      SearchStart(tree, key);
      FocusRoot(tree);
      steps := 0;
      while tmp != null
        invariant At(t, p) && tmp == Ptr(t) && Whole(t, p) == Inorder(tree) && Between(p, key)
        invariant steps + Height(t) <= Height(tree)
        decreases t
      {
        steps := steps + 1;
        FocusFields(t, p);
        StrcmpTrichotomy(key, tmp.uid);
        var comp := Strcmp(key, tmp.uid);
        if comp < 0 {
          tmp := tmp.left;
          SearchLeft(t, p, key);
          FocusLeft(t, p);
          t, p := t.left, LeftOf(t.color, p, t.rule, t.right);
        } else if comp > 0 {
          tmp := tmp.right;
          SearchRight(t, p, key);
          FocusRight(t, p);
          t, p := t.right, RightOf(t.color, t.left, t.rule, p);
        } else {
          PathBound(steps);
          return tmp, steps;
        }
      }
      SearchMiss(p, key);
      forall n | n in repr ensures n.uid != key {
        NodesAreInorder(tree, n);
      }
      PathBound(steps);
      r := null;
    }

    /** A path no longer than the tree is high has at most `2 lg (n + 1)` rules. */
    lemma PathBound(steps: nat)
      requires RedBlack(tree) && steps <= Height(tree)
      ensures Pow2(steps) <= (|Inorder(tree)| + 1) * (|Inorder(tree)| + 1)
    {
      Pow2Monotone(steps, Height(tree));
      HeightBound(tree);
    }

    /** `RB_SET` and the link from the parent: a red rule hangs in the empty hole of `p`. */
    method Attach(elm: Rule, parent: Rule?, comp: int, ghost p: Path)
      requires At(Leaf, p) && elm !in repr && parent == ParentOf(p)
      requires !p.Top? ==> (comp < 0 <==> p.LeftOf?)
      modifies this`root, this`repr, repr, elm
      ensures At(Node(Red, Leaf, elm, Leaf), p) && repr == old(repr) + {elm}
    {
      ghost var m, root0 := Snapshot(), root;
      assert Nodes(Node(Red, Leaf, elm, Leaf)) == {elm} && Nodes(Leaf) == {};
      assert !p.Top? ==> p.rule in PathNodes(p);
      hide Holds, Nodes, PathNodes;
      HangLeaf(elm, parent, comp);
      AttachHolds(m, Snapshot(), elm, p, root0);
    }

    /** `RB_SET` and the linking of `elm` below `parent`, field by field. */
    method HangLeaf(elm: Rule, parent: Rule?, comp: int)
      requires elm !in repr && Stored(parent)
      modifies this`root, this`repr, repr, elm
      ensures repr == old(repr) + {elm} && Snapshot()[elm] == Links(null, null, parent, Red)
      ensures parent != null && comp < 0 ==> Snapshot()[parent] == old(Snapshot())[parent].(left := elm)
      ensures parent != null && comp >= 0 ==> Snapshot()[parent] == old(Snapshot())[parent].(right := elm)
      ensures root == if parent == null then elm else old(root)
      ensures Same(old(Snapshot()), Snapshot(), old(repr) - {parent})
    {
      elm.parent := parent;
      elm.left, elm.right := null, null;
      elm.color := Red;
      if parent != null {
        if comp < 0 {
          parent.left := elm;
        } else {
          parent.right := elm;
        }
      } else {
        root := elm;
      }
      repr := repr + {elm};
    }

    /**
     * `RB_INSERT`: a rule with the same uid is returned and nothing changes; otherwise `elm` is added
     * at position `k` of the ordered sequence of rules.
     */
    method Insert(elm: Rule) returns (r: Rule?, ghost k: nat)
      requires Valid() && elm !in repr
      modifies this, repr, elm
      ensures Valid()
      ensures r != null ==> r in repr && r.uid == elm.uid && repr == old(repr) && tree == old(tree) && root == old(root)
      ensures r == null ==> repr == old(repr) + {elm} && forall n :: n in old(repr) ==> n.uid != elm.uid
      ensures r == null ==> k <= |old(Inorder(tree))|
      ensures r == null ==> Inorder(tree) == old(Inorder(tree))[..k] + [elm] + old(Inorder(tree))[k..]
    {
      hide At, RedBlack, Whole, Between, Sorted, InsertFlaw;
      var tmp, parent, comp := root, null, 0;
      ghost var t, p := tree, Top;
      SearchStart(tree, elm.uid);
      FocusRoot(tree);
      while tmp != null
        invariant At(t, p) && tmp == Ptr(t) && Whole(t, p) == Inorder(tree) && Between(p, elm.uid)
        invariant Plug(p, t) == tree
        invariant parent == ParentOf(p) && (!p.Top? ==> (comp < 0 <==> p.LeftOf?))
        modifies {}
        decreases t
      {
        FocusFields(t, p);
        parent := tmp;
        StrcmpTrichotomy(elm.uid, parent.uid);
        comp := Strcmp(elm.uid, parent.uid);
        if comp < 0 {
          tmp := tmp.left;
          SearchLeft(t, p, elm.uid);
          FocusLeft(t, p);
          t, p := t.left, LeftOf(t.color, p, t.rule, t.right);
        } else if comp > 0 {
          tmp := tmp.right;
          SearchRight(t, p, elm.uid);
          FocusRight(t, p);
          t, p := t.right, RightOf(t.color, t.left, t.rule, p);
        } else {
          return tmp, 0;
        }
      }
      SearchMiss(p, elm.uid);
      forall n | n in repr ensures n.uid != elm.uid {
        NodesAreInorder(tree, n);
      }
      NewRuleFlaw(p, tree, elm);
      NewRuleSorted(p, tree, elm);
      k := |Before(p)|;
      Attach(elm, parent, comp, p);
      tree := InsertColor(elm, Node(Red, Leaf, elm, Leaf), p, 0);
      r := null;
    }

    /** The part of `RB_REMOVE` that takes a rule with at most one child out of the tree, field by field. */
    method Unlink(elm: Rule, child: Rule?, parent: Rule?)
      requires elm in repr && Stored(child) && Stored(parent) && elm !in {child, parent}
      requires parent != null ==> parent != child
      modifies this`root, repr
      ensures child != null ==> Snapshot()[child] == old(Snapshot())[child].(parent := parent)
      ensures parent != null ==> Snapshot()[parent] == Relinked(old(Snapshot()), parent, elm, child)[parent]
      ensures root == if parent == null then child else old(root)
      ensures Same(old(Snapshot()), Snapshot(), repr - {child, parent})
    {
      if child != null {
        child.parent := parent;
      }
      if parent != null {
        if parent.left == elm {
          parent.left := child;
        } else {
          parent.right := child;
        }
      } else {
        root := child;
      }
    }

    /** Taking the rule at the focus out of the tree. */
    method Splice(elm: Rule, child: Rule?, parent: Rule?, ghost t: Tree, ghost ct: Tree, ghost p: Path)
      requires At(t, p) && OnlyChild(t, ct) && t.rule == elm && child == Ptr(ct) && parent == ParentOf(p)
      modifies this`root, this`repr, repr
      ensures repr == old(repr) - {elm} && At(ct, p)
      ensures elm.parent == old(elm.parent)
    {
      ghost var m, root0 := Snapshot(), root;
      NeighbourLinks(m, t, p, root);
      SplicedNodes(m, t, ct, p, root);
      hide Holds, Nodes, PathNodes, Relinked;
      Unlink(elm, child, parent);
      assert elm.parent == m[elm].parent;
      SpliceHolds(m, Snapshot(), t, ct, p, root0);
      Forget(elm, ct, p);
    }

    /** The tree keeps its layout when `repr` drops a rule outside it. */
    ghost method Forget(elm: Rule, t: Tree, p: Path)
      requires elm in repr && elm !in Nodes(t) + PathNodes(p)
      requires repr - {elm} == Nodes(t) + PathNodes(p) && Holds(Snapshot(), t, p, root)
      modifies this`repr
      ensures repr == old(repr) - {elm} && At(t, p)
    {
      ghost var m := Snapshot();
      repr := repr - {elm};
      LinkedFrame(m, Snapshot(), t, ParentOf(p));
      PathFrame(m, Snapshot(), p, Ptr(t), root);
    }

    /** The part of `RB_REMOVE` that copies the fields of `old0` and links `elm` in its place, field by field. */
    method Copy(old0: Rule, elm: Rule)
      requires old0 in repr && elm in repr && elm != old0
      requires Stored(old0.left) && Stored(old0.right) && Stored(old0.parent) && old0.left != null
      requires old0.left !in {elm, old0} && old0.right !in {elm, old0, old0.left}
      requires old0.parent != null ==> old0.parent !in {elm, old0, old0.left, old0.right}
      modifies this`root, repr
      ensures Snapshot()[elm] == old(Snapshot())[old0]
      ensures var l := old(old0.left); Snapshot()[l] == old(Snapshot())[l].(parent := elm)
      ensures var r := old(old0.right); r != null ==> Snapshot()[r] == old(Snapshot())[r].(parent := elm)
      ensures var q := old(old0.parent); q != null ==> Snapshot()[q] == Relinked(old(Snapshot()), q, old0, elm)[q]
      ensures root == if old(old0.parent) == null then elm else old(root)
      ensures Same(old(Snapshot()), Snapshot(), repr - {elm} - {old(old0.left), old(old0.right), old(old0.parent)})
    {
      elm.left, elm.right, elm.parent, elm.color := old0.left, old0.right, old0.parent, old0.color;
      if old0.parent != null {
        if old0.parent.left == old0 {
          old0.parent.left := elm;
        } else {
          old0.parent.right := elm;
        }
      } else {
        root := elm;
      }
      old0.left.parent := elm;
      if old0.right != null {
        old0.right.parent := elm;
      }
    }

    /** The tree keeps its layout when `repr` gains a rule outside it. */
    ghost method Remember(elm: Rule, t: Tree, p: Path)
      requires At(t, p) && elm !in repr
      modifies this`repr
      ensures repr == Nodes(t) + PathNodes(p) + {elm} && elm !in Nodes(t) + PathNodes(p)
      ensures Holds(Snapshot(), t, p, root)
    {
      ghost var m := Snapshot();
      repr := repr + {elm};
      LinkedFrame(m, Snapshot(), t, ParentOf(p));
      PathFrame(m, Snapshot(), p, Ptr(t), root);
    }

    /** Linking `elm` in the place of the rule at the focus. */
    method CopyAt(old0: Rule, elm: Rule, ghost t: Tree, ghost p: Path)
      requires t.Node? && t.rule == old0 && t.left.Node?
      requires repr == Nodes(t) + PathNodes(p) + {elm} && elm !in Nodes(t) + PathNodes(p)
      requires Holds(Snapshot(), t, p, root)
      modifies this`root, repr
      ensures Holds(Snapshot(), t.(rule := elm), p, root)
    {
      hide Linked, PathLinked;
      ghost var m, root0 := Snapshot(), root;
      NeighbourLinks(m, t, p, root);
      Copy(old0, elm);
      ReplaceHolds(m, Snapshot(), t, elm, p, root0);
    }

    /** Putting `elm` in the place of the rule at the focus. */
    method Replace(old0: Rule, elm: Rule, ghost t: Tree, ghost p: Path)
      requires At(t, p) && t.Node? && t.rule == old0 && t.left.Node? && elm !in repr
      modifies this`root, this`repr, repr, elm
      ensures repr == old(repr) - {old0} + {elm} && At(t.(rule := elm), p)
    {
      hide At, Holds;
      FocusNodes(t, p);
      Remember(elm, t, p);
      CopyAt(old0, elm, t, p);
      Forget(old0, t.(rule := elm), p);
    }

    lemma FocusNodes(t: Tree, p: Path)
      requires At(t, p)
      ensures repr == Nodes(t) + PathNodes(p) && Nodes(t) !! PathNodes(p)
      ensures t.Node? ==> t.rule !in Nodes(t.left) + Nodes(t.right)
    {
    }

    lemma FocusOut(q: Path, t: Tree, base: Path)
      requires At(t, Graft(q, base))
      ensures At(Plug(q, t), base)
    {
      PlugHolds(Snapshot(), q, t, base, root);
      PlugNodes(q, t);
      GraftParts(q, base);
    }

    lemma FocusIn(q: Path, t: Tree, base: Path)
      requires At(Plug(q, t), base)
      ensures At(t, Graft(q, base))
    {
      PlugHolds(Snapshot(), q, t, base, root);
      PlugNodes(q, t);
      GraftParts(q, base);
    }

    lemma PathRulesDiffer(q: Path, t: Tree, base: Path)
      requires At(t, Graft(q, base)) && !q.Top? && !base.Top?
      ensures q.rule != base.rule
    {
      GraftParts(q.up, base);
    }

    /** The part of `RB_REMOVE` for a rule with two children: its successor takes its place. */
    method SwapOut(old0: Rule, ghost t: Tree, ghost p: Path)
      returns (child: Rule?, parent: Rule?, color: Color, ghost st: Tree, ghost q: Path)
      requires At(t, p) && t.Node? && t.rule == old0 && t.left.Node? && t.right.Node?
      modifies this`root, this`repr, repr
      ensures repr == old(repr) - {old0}
      ensures Leftmost(t.right, st, q) && st.left.Leaf? && color == st.color
      ensures At(st.right, Graft(q, RightOf(t.color, t.left, st.rule, p)))
      ensures child == Ptr(st.right) && parent == ParentOf(Graft(q, RightOf(t.color, t.left, st.rule, p)))
    {
      hide At;
      ghost var base := RightOf(t.color, t.left, t.rule, p);
      FocusFields(t, p);
      FocusRight(t, p);
      var elm := old0.right;
      st, q := t.right, Top;
      FocusFields(st, Graft(q, base));
      var left := elm.left;
      while left != null
        invariant At(st, Graft(q, base)) && Leftmost(t.right, st, q) && elm == st.rule && left == Ptr(st.left)
        modifies {}
        decreases st
      {
        elm := left;
        FocusLeft(st, Graft(q, base));
        st, q := st.left, LeftOf(st.color, q, st.rule, st.right);
        FocusFields(st, Graft(q, base));
        left := elm.left;
      }
      FocusFields(st, Graft(q, base));
      if !q.Top? { PathRulesDiffer(q, st, base); }
      child, parent, color := elm.right, elm.parent, elm.color;
      Splice(elm, child, parent, st, st.right, Graft(q, base));
      if elm.parent == old0 {
        parent := elm;
      }
      FocusOut(q, st.right, base);
      FocusUp(Plug(q, st.right), base);
      ghost var r := Plug(q, st.right);
      Replace(old0, elm, Node(t.color, t.left, old0, r), p);
      FocusRight(Node(t.color, t.left, elm, r), p);
      FocusIn(q, st.right, RightOf(t.color, t.left, elm, p));
    }

    /** `RB_REMOVE`: exactly `elm` goes, the order of the others is kept, and the tree stays red-black. */
    method Remove(elm: Rule) returns (old0: Rule, ghost k: nat)
      requires Valid() && elm in repr
      modifies this, repr
      ensures Valid() && old0 == elm && repr == old(repr) - {elm}
      ensures k < |old(Inorder(tree))| && old(Inorder(tree))[k] == elm
      ensures Inorder(tree) == old(Inorder(tree))[..k] + old(Inorder(tree))[k + 1..]
    {
      hide At, RedBlack, Whole, Sorted, RemoveFlaw, Inorder;
      FocusRoot(tree);
      ghost var t, p := Locate(tree, Top, elm);
      FocusDown(t, p);
      FocusFields(t, p);
      RemovalPoint(tree, t, p);
      k := |Front(t, p)|;
      ghost var ct, cp, h;
      var child, parent, color;
      if elm.left == null || elm.right == null {
        child := if elm.left == null then elm.right else elm.left;
        ct, cp := if t.left.Leaf? then t.right else t.left, p;
        parent, color := elm.parent, elm.color;
        SplicedOut(t, p, ct, tree);
        SplicedWhole(t, p, ct);
        Splice(elm, child, parent, t, ct, p);
        h := BlackHeight(t) - 1;
      } else {
        ghost var st, q;
        child, parent, color, st, q := SwapOut(elm, t, p);
        ct, cp, h := st.right, Graft(q, RightOf(t.color, t.left, st.rule, p)), BlackHeight(st) - 1;
        ReplacedFlaw(t, p, st, q, tree);
        ReplacedWhole(t, p, st, q);
      }
      if color == Black {
        tree := RemoveColor(parent, child, ct, cp, h);
      } else {
        FocusTop(ct, cp);
        PlugWhole(cp, ct);
        tree := Plug(cp, ct);
      }
      old0 := elm;
    }

    /** The innermost loop of `RB_NEXT` and `RB_MIN`: down to the first rule below the focus. */
    method Descend(elm0: Rule, ghost t: Tree, ghost p: Path) returns (elm: Rule)
      requires At(t, p) && t.Node? && t.rule == elm0
      ensures elm == Inorder(t)[0]
    {
      hide At;
      elm := elm0;
      ghost var st, q := t, Top;
      FocusFields(st, Graft(q, p));
      while elm.left != null
        invariant At(st, Graft(q, p)) && Leftmost(t, st, q) && elm == st.rule && elm.left == Ptr(st.left)
        decreases st
      {
        elm := elm.left;
        FocusLeft(st, Graft(q, p));
        st, q := st.left, LeftOf(st.color, q, st.rule, st.right);
        FocusFields(st, Graft(q, p));
      }
      LeftmostFirst(t, st, q);
    }

    /** `RB_NEXT`: the rule after `elm0`, which is at position `k` of the ordered sequence, or null after the last. */
    method Next(elm0: Rule, ghost k: nat) returns (r: Rule?)
      requires Valid() && k < |Inorder(tree)| && Inorder(tree)[k] == elm0
      ensures r == if k + 1 < |Inorder(tree)| then Inorder(tree)[k + 1] else null
    {
      hide At, RedBlack, Sorted, Inorder, Before, After, Rear, Front;
      FocusRoot(tree);
      NodesAreInorder(tree, elm0);
      ghost var t, p := Locate(tree, Top, elm0);
      FocusDown(t, p);
      FocusFields(t, p);
      RemovalPoint(tree, t, p);
      SortedDistinct(Inorder(tree), k, |Front(t, p)|);
      RearFirst(t, p);
      if elm0.right != null {
        FocusRight(t, p);
        r := Descend(elm0.right, t.right, RightOf(t.color, t.left, t.rule, p));
      } else {
        r := Ascend(elm0, t, p);
      }
    }

    /** The part of `RB_NEXT` for a rule without a right child. */
    method Ascend(elm0: Rule, ghost t0: Tree, ghost p0: Path) returns (r: Rule?)
      requires At(t0, p0) && t0.Node? && t0.rule == elm0
      ensures r == if After(p0) == [] then null else After(p0)[0]
    {
      hide At;
      ghost var t, p := t0, p0;
      FocusFields(t, p);
      if !p.Top? { ParentFields(t, p); }
      if elm0.parent != null && elm0 == elm0.parent.left {
        return elm0.parent;
      }
      var elm := elm0;
      while elm.parent != null && elm == elm.parent.right
        invariant t.Node? && At(t, p) && elm == t.rule && elm.parent == ParentOf(p) && After(p) == After(p0)
        invariant !p.Top? ==> (elm == p.rule.right <==> p.RightOf?)
        decreases p
      {
        elm := elm.parent;
        FocusUp(t, p);
        t, p := Zip(p, t), p.up;
        FocusFields(t, p);
        if !p.Top? { ParentFields(t, p); }
      }
      r := elm.parent;
    }

    /** `RB_MINMAX`: the first rule for a negative `val`, the last one otherwise, null in an empty tree. */
    method MinMax(val: int) returns (r: Rule?)
      requires Valid()
      ensures tree == Leaf <==> r == null
      ensures r != null ==> Inorder(tree) != [] && r == Inorder(tree)[if val < 0 then 0 else |Inorder(tree)| - 1]
    {
      hide At, RedBlack, Sorted;
      FocusRoot(tree);
      var tmp := root;
      r := null;
      ghost var t, p := tree, Top;
      while tmp != null
        invariant At(t, p) && tmp == Ptr(t) && r == ParentOf(p) && Plug(p, t) == tree
        invariant val < 0 ==> Before(p) == [] && (!p.Top? ==> p.LeftOf?)
        invariant val >= 0 ==> After(p) == [] && (!p.Top? ==> p.RightOf?)
        decreases t
      {
        r := tmp;
        FocusFields(t, p);
        if val < 0 {
          tmp := tmp.left;
          FocusLeft(t, p);
          t, p := t.left, LeftOf(t.color, p, t.rule, t.right);
        } else {
          tmp := tmp.right;
          FocusRight(t, p);
          t, p := t.right, RightOf(t.color, t.left, t.rule, p);
        }
      }
      PlugInorder(p, t);
    }
  }

  /** An upper bound on the turns that are left in the loop of `RB_INSERT_COLOR`. */
  ghost function Climb(p: Path): nat {
    if p.Top? || p.color.Black? then 0 else Length(p)
  }

  /** An upper bound on the turns that are left in the loop of `RB_REMOVE_COLOR`. */
  ghost function Deficit(t: Tree, p: Path): nat {
    if IsRed(t) then 0 else 1 + Length(p)
  }

  lemma RedBlackRoot(t: Tree)
    requires RedBlack(t)
    ensures Blacken(t) == t
  {
  }

  lemma SearchStart(t: Tree, key: Uid)
    ensures Whole(t, Top) == Inorder(t) && Between(Top, key)
  {
  }

  /** A red rule in an empty hole of a red-black tree is at most a red-red flaw. */
  lemma NewRuleFlaw(p: Path, tree: Tree, elm: Rule)
    requires RedBlack(tree) && Plug(p, Leaf) == tree
    ensures InsertFlaw(Node(Red, Leaf, elm, Leaf), p, 0)
  {
    UnplugRedBlack(p, Leaf, BlackHeight(tree));
  }

  lemma NewRuleSorted(p: Path, tree: Tree, elm: Rule)
    requires Sorted(Inorder(tree)) && Whole(Leaf, p) == Inorder(tree) && Between(p, elm.uid)
    ensures Sorted(Whole(Node(Red, Leaf, elm, Leaf), p)) && |Before(p)| <= |Inorder(tree)|
    ensures var (s, k) := (Inorder(tree), |Before(p)|);
      Whole(Node(Red, Leaf, elm, Leaf), p) == s[..k] + [elm] + s[k..]
  {
    var b, a := Before(p), After(p);
    assert Inorder(Node(Red, Leaf, elm, Leaf)) == [elm] && Inorder(Leaf) == [];
    assert Whole(Leaf, p) == b + a;
    SortedInsert(b, elm, a);
    hide Sorted, Inorder, Before, After, Between;
    assert Whole(Node(Red, Leaf, elm, Leaf), p) == b + [elm] + a;
    assert (b + a)[..|b|] == b && (b + a)[|b|..] == a;
  }

  lemma SplicedOut(t: Tree, p: Path, child: Tree, tree: Tree)
    requires OnlyChild(t, child) && RedBlack(tree) && Plug(p, t) == tree
    ensures t.color.Black? ==> RemoveFlaw(child, p, BlackHeight(t) - 1)
    ensures t.color.Red? ==> RedBlack(Plug(p, child))
  {
    UnplugRedBlack(p, t, BlackHeight(tree));
    SplicedFlaw(t, p, child, BlackHeight(t));
  }
}
