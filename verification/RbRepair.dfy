/** What the two recolouring loops of include/tree.h do to the shape of the tree, and why it helps. */
module RbRepair {
  import opened RbShape
  import opened RbLinks

  function Blacken(t: Tree): Tree {
    if t.Leaf? then t else t.(color := Black)
  }

  lemma ZipWhole(t: Tree, p: Path)
    requires !p.Top?
    ensures Whole(Zip(p, t), p.up) == Whole(t, p)
  {
    match p
    case LeftOf(_, up, n, r) => Reassociate(Before(up), Inorder(t), [n], Inorder(r), After(up));
    case RightOf(_, l, n, up) => Reassociate(Before(up), Inorder(l), [n], Inorder(t), After(up));
  }

  lemma Regroup<T>(a: seq<T>, b: seq<T>, c: seq<T>, d: seq<T>, e: seq<T>)
    ensures a + b + (c + d + e) == a + b + c + d + e
  {
  }

  lemma RotatedLeftInorder(t: Tree)
    requires t.Node? && t.right.Node?
    ensures Inorder(RotatedLeft(t)) == Inorder(t)
  {
    var inner, r := Node(t.color, t.left, t.rule, t.right.left), t.right;
    assert Inorder(inner) == Inorder(t.left) + [t.rule] + Inorder(r.left);
    assert Inorder(r) == Inorder(r.left) + [r.rule] + Inorder(r.right);
    Regroup(Inorder(t.left), [t.rule], Inorder(r.left), [r.rule], Inorder(r.right));
  }

  lemma RotatedRightInorder(t: Tree)
    requires t.Node? && t.left.Node?
    ensures Inorder(RotatedRight(t)) == Inorder(t)
  {
    var inner, l := Node(t.color, t.left.right, t.rule, t.right), t.left;
    assert Inorder(inner) == Inorder(l.right) + [t.rule] + Inorder(t.right);
    assert Inorder(l) == Inorder(l.left) + [l.rule] + Inorder(l.right);
    Regroup(Inorder(l.left), [l.rule], Inorder(l.right), [t.rule], Inorder(t.right));
  }

  // ----- RB_INSERT_COLOR -----

  /** The only possible flaw: the focus is red, and so may be its parent or the root. */
  predicate InsertFlaw(t: Tree, p: Path, h: int) {
    IsRed(t) && NoRedRed(t) && Balanced(t, h) && PathBalanced(p, h) && PathOk(p, false)
  }

  /** The other child of the grandparent. */
  function Uncle(p: Path): Tree
    requires !p.Top? && !p.up.Top?
  {
    if p.up.LeftOf? then p.up.right else p.up.left
  }

  /** The grandparent's subtree after parent and uncle turned black and the grandparent red. */
  function Recolored(t: Tree, p: Path): Tree
    requires !p.Top? && !p.up.Top?
  {
    match p.up
    case LeftOf(_, _, g, u) => Node(Red, Blacken(Zip(p, t)), g, Blacken(u))
    case RightOf(_, u, g, _) => Node(Red, Blacken(u), g, Blacken(Zip(p, t)))
  }

  /** The parent's subtree after the first rotation, which moves an inner grandchild outwards. */
  function Straightened(t: Tree, p: Path): Tree
    requires !p.Top? && !p.up.Top? && t.Node?
  {
    if p.up.LeftOf? && p.RightOf? then RotatedLeft(Zip(p, t))
    else if p.up.RightOf? && p.LeftOf? then RotatedRight(Zip(p, t))
    else Zip(p, t)
  }

  /** The grandparent's subtree after the second rotation. */
  function Turned(t: Tree, p: Path): Tree
    requires !p.Top? && !p.up.Top? && t.Node?
  {
    match p.up
    case LeftOf(_, _, g, u) => RotatedRight(Node(Red, Blacken(Straightened(t, p)), g, u))
    case RightOf(_, u, g, _) => RotatedLeft(Node(Red, u, g, Blacken(Straightened(t, p))))
  }

  /** A red parent is not the root, so the grandparent that the loop reads exists. */
  lemma GrandparentExists(t: Tree, p: Path, h: int)
    requires InsertFlaw(t, p, h) && !p.Top? && p.color.Red?
    ensures !p.up.Top?
  {
    assert PathOk(p.up, true);
  }

  lemma {:induction false} PlugNode(p: Path, t: Tree)
    requires t.Node?
    ensures Plug(p, t).Node?
    decreases p
  {
    if !p.Top? {
      PlugNode(p.up, Zip(p, t));
    }
  }

  lemma RecoloredFlaw(t: Tree, p: Path, h: int)
    requires InsertFlaw(t, p, h) && !p.Top? && p.color.Red?
    requires !p.up.Top? && IsRed(Uncle(p))
    ensures InsertFlaw(Recolored(t, p), p.up.up, h + 1)
  {
    assert PathOk(p.up, true) && PathBalanced(p.up, h);
  }

  lemma RecoloredWhole(t: Tree, p: Path)
    requires !p.Top? && !p.up.Top?
    ensures Whole(Recolored(t, p), p.up.up) == Whole(t, p)
  {
    ZipWhole(t, p);
    ZipWhole(Zip(p, t), p.up);
    assert Inorder(Blacken(Zip(p, t))) == Inorder(Zip(p, t));
    assert Inorder(Blacken(Uncle(p))) == Inorder(Uncle(p));
    assert Inorder(Recolored(t, p)) == Inorder(Zip(p.up, Zip(p, t)));
  }

  lemma StraightenedOk(t: Tree, p: Path, h: int)
    requires InsertFlaw(t, p, h) && !p.Top? && p.color.Red? && !p.up.Top?
    ensures var s := Straightened(t, p);
      s.Node? && Balanced(s, h) && NoRedRed(s.left) && NoRedRed(s.right) && IsRed(s) &&
      if p.up.LeftOf? then IsRed(s.left) && !IsRed(s.right) else IsRed(s.right) && !IsRed(s.left)
    ensures Inorder(Straightened(t, p)) == Inorder(Zip(p, t))
  {
    if p.up.LeftOf? && p.RightOf? {
      RotatedLeftInorder(Zip(p, t));
    } else if p.up.RightOf? && p.LeftOf? {
      RotatedRightInorder(Zip(p, t));
    }
  }

  /** With a black uncle the rotations leave a black subtree without any flaw. */
  lemma TurnedOk(t: Tree, p: Path, h: int)
    requires InsertFlaw(t, p, h) && !p.Top? && p.color.Red?
    requires !p.up.Top? && !IsRed(Uncle(p))
    ensures var s := Turned(t, p);
      s.Node? && s.color.Black? && NoRedRed(s) && Balanced(s, h + 1) && IsRed(s.left) && IsRed(s.right)
    ensures PathBalanced(p.up.up, h + 1) && PathOk(p.up.up, false)
  {
    StraightenedOk(t, p, h);
    assert PathOk(p.up, true) && PathBalanced(p.up, h);
  }

  lemma TurnedWhole(t: Tree, p: Path, h: int)
    requires InsertFlaw(t, p, h) && !p.Top? && p.color.Red? && !p.up.Top?
    ensures Whole(Turned(t, p), p.up.up) == Whole(t, p)
  {
    StraightenedOk(t, p, h);
    ZipWhole(t, p);
    ZipWhole(Zip(p, t), p.up);
    var s := Blacken(Straightened(t, p));
    assert Inorder(s) == Inorder(Zip(p, t));
    match p.up
    case LeftOf(_, _, g, u) => RotatedRightInorder(Node(Red, s, g, u));
    case RightOf(_, u, g, _) => RotatedLeftInorder(Node(Red, u, g, s));
  }

  /** The focus after the rotations: the outer child below the subtree's new, black root. */
  lemma TurnedFlaw(t: Tree, p: Path, h: int)
    requires InsertFlaw(t, p, h) && !p.Top? && p.color.Red?
    requires !p.up.Top? && !IsRed(Uncle(p))
    ensures var s := Turned(t, p);
      var (t', p') := if p.up.LeftOf? then (s.left, LeftOf(Black, p.up.up, s.rule, s.right))
                                      else (s.right, RightOf(Black, s.left, s.rule, p.up.up));
      s.color.Black? && t'.Node? && InsertFlaw(t', p', h) && Whole(t', p') == Whole(t, p)
  {
    TurnedOk(t, p, h);
    TurnedWhole(t, p, h);
    var s := Turned(t, p);
    if p.up.LeftOf? {
      ZipWhole(s.left, LeftOf(Black, p.up.up, s.rule, s.right));
    } else {
      ZipWhole(s.right, RightOf(Black, s.left, s.rule, p.up.up));
    }
  }

  /** After the loop, painting the root black repairs the last flaw. */
  lemma InsertDone(t: Tree, p: Path, h: int)
    requires InsertFlaw(t, p, h) && (p.Top? || p.color.Black?)
    ensures RedBlack(Blacken(Plug(p, t)))
    ensures Inorder(Blacken(Plug(p, t))) == Whole(t, p)
  {
    PlugInorder(p, t);
    if p.Top? {
      BalancedHeight(t, h);
      PlugRedBlack(Top, Blacken(t), h + 1);
    } else {
      PlugRedBlack(p, t, h);
    }
  }

  // ----- RB_REMOVE_COLOR -----

  /** The only possible flaw: the focus lacks one black node, and may be red next to a red rule. */
  predicate RemoveFlaw(t: Tree, p: Path, h: int) {
    Balanced(t, h) && NoRedRed(Blacken(t)) && PathBalanced(p, h + 1) && PathOk(p, false)
  }

  function Sibling(p: Path): Tree
    requires !p.Top?
  {
    if p.LeftOf? then p.right else p.left
  }

  /** The path after a red sibling was rotated above the parent. */
  function Lowered(p: Path): Path
    requires !p.Top? && Sibling(p).Node?
  {
    match p
    case LeftOf(_, up, n, w) => LeftOf(Red, LeftOf(Black, up, w.rule, w.right), n, w.left)
    case RightOf(_, w, n, up) => RightOf(Red, w.right, n, RightOf(Black, w.left, w.rule, up))
  }

  /** The parent's subtree after the sibling turned red. */
  function SiblingRed(t: Tree, p: Path): Tree
    requires !p.Top? && Sibling(p).Node?
  {
    match p
    case LeftOf(c, _, n, w) => Node(c, t, n, w.(color := Red))
    case RightOf(c, w, n, _) => Node(c, w.(color := Red), n, t)
  }

  /** The sibling after its inner red child was rotated above it. */
  function OuterRed(p: Path): Tree
    requires !p.Top? && Sibling(p).Node? && (IsRed(Sibling(p).left) || IsRed(Sibling(p).right))
  {
    var w := Sibling(p);
    match p
    case LeftOf(_, _, _, _) =>
      if IsRed(w.right) then w else RotatedRight(Node(Red, Blacken(w.left), w.rule, w.right))
    case RightOf(_, _, _, _) =>
      if IsRed(w.left) then w else RotatedLeft(Node(Red, w.left, w.rule, Blacken(w.right)))
  }

  /** The parent's subtree after the last rotation. */
  function Refilled(t: Tree, p: Path): Tree
    requires !p.Top? && Sibling(p).Node? && (IsRed(Sibling(p).left) || IsRed(Sibling(p).right))
  {
    var w := OuterRed(p);
    match p
    case LeftOf(c, _, n, _) => RotatedLeft(Node(Black, t, n, Node(c, w.left, w.rule, Blacken(w.right))))
    case RightOf(c, _, n, _) => RotatedRight(Node(Black, Node(c, Blacken(w.left), w.rule, w.right), n, t))
  }

  /** "Never dereferences a missing sibling": a focus that lacks a black node has a sibling. */
  lemma SiblingExists(t: Tree, p: Path, h: int)
    requires RemoveFlaw(t, p, h) && !p.Top?
    ensures Sibling(p).Node?
  {
    BalancedHeight(t, h);
  }

  lemma LoweredFlaw(t: Tree, p: Path, h: int)
    requires RemoveFlaw(t, p, h) && !p.Top? && IsRed(Sibling(p))
    ensures RemoveFlaw(t, Lowered(p), h) && !IsRed(Sibling(Lowered(p)))
  {
  }

  lemma LoweredWhole(t: Tree, p: Path)
    requires !p.Top? && Sibling(p).Node?
    ensures Whole(t, Lowered(p)) == Whole(t, p)
  {
    ZipWhole(t, p);
    var q := Lowered(p);
    ZipWhole(t, q);
    ZipWhole(Zip(q, t), q.up);
    match p
    case LeftOf(_, up, n, w) =>
      RotatedLeftInorder(Zip(p, t));
      assert Inorder(Zip(q.up, Zip(q, t))) == Inorder(RotatedLeft(Zip(p, t)));
    case RightOf(_, w, n, up) =>
      RotatedRightInorder(Zip(p, t));
      assert Inorder(Zip(q.up, Zip(q, t))) == Inorder(RotatedRight(Zip(p, t)));
  }

  lemma SiblingRedFlaw(t: Tree, p: Path, h: int)
    requires RemoveFlaw(t, p, h) && !p.Top? && Sibling(p).Node? && !IsRed(t)
    requires !IsRed(Sibling(p)) && !IsRed(Sibling(p).left) && !IsRed(Sibling(p).right)
    ensures RemoveFlaw(SiblingRed(t, p), p.up, h + Step(p.color))
    ensures Whole(SiblingRed(t, p), p.up) == Whole(t, p)
  {
    PathOkMonotone(p.up, p.color.Red?);
    ZipWhole(t, p);
    assert Inorder(Sibling(p).(color := Red)) == Inorder(Sibling(p));
    assert Inorder(SiblingRed(t, p)) == Inorder(Zip(p, t));
  }

  lemma PathOkMonotone(p: Path, red: bool)
    requires PathOk(p, red)
    ensures PathOk(p, false)
  {
  }

  lemma OuterRedOk(p: Path, h: int)
    requires !p.Top? && Sibling(p).Node? && Balanced(Sibling(p), h) && NoRedRed(Sibling(p)) && !IsRed(Sibling(p))
    requires IsRed(Sibling(p).left) || IsRed(Sibling(p).right)
    ensures var w := OuterRed(p);
      w.Node? && w.color.Black? && Balanced(w, h) && NoRedRed(w.left) && NoRedRed(w.right) &&
      if p.LeftOf? then IsRed(w.right) else IsRed(w.left)
    ensures Inorder(OuterRed(p)) == Inorder(Sibling(p))
  {
    var w := Sibling(p);
    if p.LeftOf? && !IsRed(w.right) {
      assert Inorder(Blacken(w.left)) == Inorder(w.left);
      RotatedRightInorder(Node(Red, Blacken(w.left), w.rule, w.right));
    } else if p.RightOf? && !IsRed(w.left) {
      assert Inorder(Blacken(w.right)) == Inorder(w.right);
      RotatedLeftInorder(Node(Red, w.left, w.rule, Blacken(w.right)));
    }
  }

  /** The last rotation brings the missing black node and leaves no flaw at all. */
  lemma RefilledOk(t: Tree, p: Path, h: int)
    requires RemoveFlaw(t, p, h) && !p.Top? && !IsRed(t) && Sibling(p).Node? && !IsRed(Sibling(p))
    requires IsRed(Sibling(p).left) || IsRed(Sibling(p).right)
    ensures RedBlack(Plug(p.up, Refilled(t, p)))
    ensures Inorder(Plug(p.up, Refilled(t, p))) == Whole(t, p)
  {
    OuterRedOk(p, h + 1);
    var w, s := OuterRed(p), Refilled(t, p);
    assert Balanced(w.left, h) && Balanced(w.right, h);
    assert if p.LeftOf? then s == Node(p.color, Node(Black, t, p.rule, w.left), w.rule, Blacken(w.right))
      else s == Node(p.color, Blacken(w.left), w.rule, Node(Black, w.right, p.rule, t));
    assert Balanced(s.left, h + 1) && Balanced(s.right, h + 1);
    assert Blacken(t) == t && NoRedRed(s.left) && NoRedRed(s.right);
    PlugRedBlack(p.up, s, h + 1 + Step(p.color));
    PlugInorder(p.up, s);
    RefilledInorder(t, p);
    ZipWhole(t, p);
  }

  lemma RefilledInorder(t: Tree, p: Path)
    requires !p.Top? && Sibling(p).Node? && (IsRed(Sibling(p).left) || IsRed(Sibling(p).right))
    requires Inorder(OuterRed(p)) == Inorder(Sibling(p))
    ensures Inorder(Refilled(t, p)) == Inorder(Zip(p, t))
  {
    var w := OuterRed(p);
    match p
    case LeftOf(c, _, n, _) =>
      var w' := Node(c, w.left, w.rule, Blacken(w.right));
      assert Inorder(Blacken(w.right)) == Inorder(w.right);
      assert Inorder(w') == Inorder(w);
      RotatedLeftInorder(Node(Black, t, n, w'));
    case RightOf(c, _, n, _) =>
      var w' := Node(c, Blacken(w.left), w.rule, w.right);
      assert Inorder(Blacken(w.left)) == Inorder(w.left);
      assert Inorder(w') == Inorder(w);
      RotatedRightInorder(Node(Black, w', n, t));
  }

  /** After the loop, painting the focus black repairs the flaw. */
  lemma RemoveDone(t: Tree, p: Path, h: int)
    requires RemoveFlaw(t, p, h) && (IsRed(t) || p.Top?)
    ensures RedBlack(Plug(p, Blacken(t)))
    ensures Inorder(Plug(p, Blacken(t))) == Whole(t, p)
  {
    PlugInorder(p, Blacken(t));
    assert Inorder(Blacken(t)) == Inorder(t);
    if IsRed(t) {
      PlugRedBlack(p, Blacken(t), h + 1);
    } else {
      BalancedHeight(t, h);
    }
  }

  // ----- RB_REMOVE before the recolouring -----

  /** Taking out a rule with at most one child: red leaves no flaw, black leaves a missing black node. */
  lemma SplicedFlaw(t: Tree, p: Path, child: Tree, h: int)
    requires OnlyChild(t, child)
    requires Balanced(t, h) && NoRedRed(t) && PathBalanced(p, h) && PathOk(p, IsRed(t))
    ensures t.color.Black? ==> RemoveFlaw(child, p, h - 1)
    ensures t.color.Red? ==> RedBlack(Plug(p, child))
  {
    PathOkMonotone(p, IsRed(t));
    if t.color.Red? {
      PlugRedBlack(p, child, h);
    }
  }

  /** Which rule sits on a path does not matter for the red-black conditions. */
  lemma {:induction false} ReplacedPath(q: Path, c: Color, l: Tree, x: Rule, y: Rule, p: Path, h: int, red: bool)
    requires PathBalanced(Graft(q, RightOf(c, l, x, p)), h) && PathOk(Graft(q, RightOf(c, l, x, p)), red)
    ensures PathBalanced(Graft(q, RightOf(c, l, y, p)), h) && PathOk(Graft(q, RightOf(c, l, y, p)), red)
  {
    match q
    case Top =>
    case LeftOf(d, up, _, _) => ReplacedPath(up, c, l, x, y, p, h + Step(d), d.Red?);
    case RightOf(d, _, _, up) => ReplacedPath(up, c, l, x, y, p, h + Step(d), d.Red?);
  }
}
