/**
 * How a tree and a path are laid out in memory. `Memory` is a snapshot of the link fields of a set of
 * rules, so that facts about the layout are facts about values.
 */
module RbLinks {
  import opened RbShape

  datatype Links = Links(left: Rule?, right: Rule?, parent: Rule?, color: Color)

  type Memory = map<Rule, Links>

  function Ptr(t: Tree): (r: Rule?)
    ensures r != null ==> r in Nodes(t)
  {
    if t.Leaf? then null else t.rule
  }

  function ParentOf(p: Path): (r: Rule?)
    ensures r != null ==> r in PathNodes(p)
  {
    if p.Top? then null else p.rule
  }

  /** The links of every rule in `t` spell out `t`, and its root points up to `parent`. */
  ghost predicate Linked(m: Memory, t: Tree, parent: Rule?) {
    match t
    case Leaf => true
    case Node(c, l, n, r) =>
      && n in m && m[n] == Links(Ptr(l), Ptr(r), parent, c)
      && n !in Nodes(l) && n !in Nodes(r) && Nodes(l) !! Nodes(r)
      && Linked(m, l, n) && Linked(m, r, n)
  }

  /** The links of every rule on or beside `p` spell out `p` when `hole` sits in its hole. */
  ghost predicate PathLinked(m: Memory, p: Path, hole: Rule?, root: Rule?) {
    match p
    case Top => root == hole
    case LeftOf(c, up, n, r) =>
      && n in m && m[n] == Links(hole, Ptr(r), ParentOf(up), c)
      && n !in Nodes(r) && n !in PathNodes(up) && Nodes(r) !! PathNodes(up)
      && Linked(m, r, n) && PathLinked(m, up, n, root)
    case RightOf(c, l, n, up) =>
      && n in m && m[n] == Links(Ptr(l), hole, ParentOf(up), c)
      && n !in Nodes(l) && n !in PathNodes(up) && Nodes(l) !! PathNodes(up)
      && Linked(m, l, n) && PathLinked(m, up, n, root)
  }

  /** The subtree `t` hangs in the hole of `p`, below the head pointer `root`. */
  ghost predicate Holds(m: Memory, t: Tree, p: Path, root: Rule?) {
    Linked(m, t, ParentOf(p)) && PathLinked(m, p, Ptr(t), root) && Nodes(t) !! PathNodes(p)
  }

  /** The two snapshots agree on the rules in `s`. */
  ghost predicate Same(m: Memory, m': Memory, s: set<Rule>) {
    forall n :: n in s && n in m ==> n in m' && m'[n] == m[n]
  }

  lemma {:induction false} LinkedFrame(m: Memory, m': Memory, t: Tree, parent: Rule?)
    requires Linked(m, t, parent) && Same(m, m', Nodes(t))
    ensures Linked(m', t, parent)
  {
    match t
    case Leaf =>
    case Node(_, l, n, r) => LinkedFrame(m, m', l, n); LinkedFrame(m, m', r, n);
  }

  lemma {:induction false} PathFrame(m: Memory, m': Memory, p: Path, hole: Rule?, root: Rule?)
    requires PathLinked(m, p, hole, root) && Same(m, m', PathNodes(p))
    ensures PathLinked(m', p, hole, root)
  {
    match p
    case Top =>
    case LeftOf(_, up, n, r) => LinkedFrame(m, m', r, n); PathFrame(m, m', up, n, root);
    case RightOf(_, l, n, up) => LinkedFrame(m, m', l, n); PathFrame(m, m', up, n, root);
  }

  /** Moving the focus up or down changes nothing in memory. */
  lemma {:induction false} PlugHolds(m: Memory, q: Path, t: Tree, base: Path, root: Rule?)
    ensures Holds(m, t, Graft(q, base), root) <==> Holds(m, Plug(q, t), base, root)
    decreases q
  {
    match q
    case Top =>
    case LeftOf(c, up, n, r) =>
      PlugHolds(m, up, Node(c, t, n, r), base, root);
      assert Holds(m, t, LeftOf(c, Graft(up, base), n, r), root) <==> Holds(m, Node(c, t, n, r), Graft(up, base), root);
    case RightOf(c, l, n, up) =>
      PlugHolds(m, up, Node(c, l, n, t), base, root);
      assert Holds(m, t, RightOf(c, l, n, Graft(up, base)), root) <==>
        Holds(m, Node(c, l, n, t), Graft(up, base), root);
  }

  lemma {:induction false} GraftTop(p: Path)
    ensures Graft(p, Top) == p
  {
    match p
    case Top =>
    case LeftOf(_, up, _, _) => GraftTop(up);
    case RightOf(_, _, _, up) => GraftTop(up);
  }

  /** Below the root of the tree, the head points to a rule on the path. */
  lemma {:induction false} RootOnPath(m: Memory, p: Path, hole: Rule?, root: Rule?)
    requires PathLinked(m, p, hole, root) && !p.Top?
    ensures root != null && root in PathNodes(p)
  {
    if !p.up.Top? {
      RootOnPath(m, p.up, p.rule, root);
    }
  }

  // ----- the effect of the primitive updates -----

  /** Giving a subtree a new parent. */
  lemma Adopted(m: Memory, m': Memory, t: Tree, from: Rule?, parent: Rule?)
    requires Linked(m, t, from)
    requires t.Node? ==> t.rule in m' && m'[t.rule] == m[t.rule].(parent := parent)
    requires t.Node? ==> Same(m, m', Nodes(t) - {t.rule})
    ensures Linked(m', t, parent)
  {
    if t.Node? {
      LinkedFrame(m, m', t.left, t.rule);
      LinkedFrame(m, m', t.right, t.rule);
    }
  }

  /** The memory with `child` in the head or child field that pointed to `elm`. */
  ghost function Relinked(m: Memory, parent: Rule?, elm: Rule, child: Rule?): Memory
    requires parent != null ==> parent in m
  {
    if parent == null then m
    else if m[parent].left == elm then m[parent := m[parent].(left := child)]
    else m[parent := m[parent].(right := child)]
  }

  lemma RelinkedPath(m: Memory, m': Memory, p: Path, elm: Rule, child: Rule?, root: Rule?)
    requires PathLinked(m, p, elm, root) && elm !in PathNodes(p)
    requires !p.Top? ==> p.rule in m' && m'[p.rule] == Relinked(m, p.rule, elm, child)[p.rule]
    requires !p.Top? ==> Same(m, m', PathNodes(p) - {p.rule})
    ensures PathLinked(m', p, child, if p.Top? then child else root)
  {
    match p
    case Top =>
    case LeftOf(_, up, n, r) => LinkedFrame(m, m', r, n); PathFrame(m, m', up, n, root);
    case RightOf(_, l, n, up) => LinkedFrame(m, m', l, n); PathFrame(m, m', up, n, root);
  }

  function RotatedLeft(t: Tree): Tree
    requires t.Node? && t.right.Node?
  {
    Node(t.right.color, Node(t.color, t.left, t.rule, t.right.left), t.right.rule, t.right.right)
  }

  function RotatedRight(t: Tree): Tree
    requires t.Node? && t.left.Node?
  {
    Node(t.left.color, t.left.left, t.left.rule, Node(t.color, t.left.right, t.rule, t.right))
  }

  /** The rules whose links a rotation at the root of `t` may write, apart from the two that turn. */
  ghost function Neighbours(b: Tree, p: Path): set<Rule> {
    (if b.Node? then {b.rule} else {}) + (if p.Top? then {} else {p.rule})
  }

  /** What the links say about the rules that a left rotation at the root of `t` touches. */
  lemma RotateLeftLinks(m: Memory, t: Tree, p: Path, root: Rule?)
    requires Holds(m, t, p, root) && t.Node? && t.right.Node?
    ensures t.rule in m && m[t.rule] == Links(Ptr(t.left), t.right.rule, ParentOf(p), t.color)
    ensures t.right.rule in m && m[t.right.rule] == Links(Ptr(t.right.left), Ptr(t.right.right), t.rule, t.right.color)
    ensures t.right.left.Node? ==> t.right.left.rule in m && t.right.left.rule !in {t.rule, t.right.rule}
    ensures !p.Top? ==> p.rule in m && p.rule !in {t.rule, t.right.rule, Ptr(t.right.left)}
    ensures t.rule != t.right.rule
  {
    var x, y, b, c := t.rule, t.right.rule, t.right.left, t.right.right;
    assert Linked(m, Node(t.right.color, b, y, c), x);
    assert Linked(m, b, y);
  }

  /** What the links say about the rules that a right rotation at the root of `t` touches. */
  lemma RotateRightLinks(m: Memory, t: Tree, p: Path, root: Rule?)
    requires Holds(m, t, p, root) && t.Node? && t.left.Node?
    ensures t.rule in m && m[t.rule] == Links(t.left.rule, Ptr(t.right), ParentOf(p), t.color)
    ensures t.left.rule in m && m[t.left.rule] == Links(Ptr(t.left.left), Ptr(t.left.right), t.rule, t.left.color)
    ensures t.left.right.Node? ==> t.left.right.rule in m && t.left.right.rule !in {t.rule, t.left.rule}
    ensures !p.Top? ==> p.rule in m && p.rule !in {t.rule, t.left.rule, Ptr(t.left.right)}
    ensures t.rule != t.left.rule
  {
    var x, y, a, b := t.rule, t.left.rule, t.left.left, t.left.right;
    assert Linked(m, Node(t.left.color, a, y, b), x);
    assert Linked(m, b, y);
  }

  lemma RotateLeftHolds(m: Memory, m': Memory, t: Tree, p: Path, root: Rule?)
    requires Holds(m, t, p, root) && t.Node? && t.right.Node?
    requires t.rule in m' && m'[t.rule] == Links(Ptr(t.left), Ptr(t.right.left), t.right.rule, t.color)
    requires t.right.rule in m' && m'[t.right.rule] == Links(t.rule, Ptr(t.right.right), ParentOf(p), t.right.color)
    requires t.right.left.Node? ==>
      t.right.left.rule in m && t.right.left.rule in m'
      && m'[t.right.left.rule] == m[t.right.left.rule].(parent := t.rule)
    requires !p.Top? ==> p.rule in m' && m'[p.rule] == Relinked(m, p.rule, t.rule, t.right.rule)[p.rule]
    requires Same(m, m', Nodes(t) + PathNodes(p) - {t.rule, t.right.rule} - Neighbours(t.right.left, p))
    ensures Holds(m', RotatedLeft(t), p, if p.Top? then t.right.rule else root)
  {
    var x, y, a, b, c := t.rule, t.right.rule, t.left, t.right.left, t.right.right;
    assert Linked(m, Node(t.right.color, b, y, c), x);
    LinkedFrame(m, m', a, x);
    Adopted(m, m', b, y, x);
    LinkedFrame(m, m', c, y);
    RelinkedPath(m, m', p, x, y, root);
    assert Linked(m', Node(t.color, a, x, b), y);
  }

  lemma RotateRightHolds(m: Memory, m': Memory, t: Tree, p: Path, root: Rule?)
    requires Holds(m, t, p, root) && t.Node? && t.left.Node?
    requires t.rule in m' && m'[t.rule] == Links(Ptr(t.left.right), Ptr(t.right), t.left.rule, t.color)
    requires t.left.rule in m' && m'[t.left.rule] == Links(Ptr(t.left.left), t.rule, ParentOf(p), t.left.color)
    requires t.left.right.Node? ==>
      t.left.right.rule in m && t.left.right.rule in m'
      && m'[t.left.right.rule] == m[t.left.right.rule].(parent := t.rule)
    requires !p.Top? ==> p.rule in m' && m'[p.rule] == Relinked(m, p.rule, t.rule, t.left.rule)[p.rule]
    requires Same(m, m', Nodes(t) + PathNodes(p) - {t.rule, t.left.rule} - Neighbours(t.left.right, p))
    ensures Holds(m', RotatedRight(t), p, if p.Top? then t.left.rule else root)
  {
    var x, y, a, b, c := t.rule, t.left.rule, t.left.left, t.left.right, t.right;
    assert Linked(m, Node(t.left.color, a, y, b), x);
    LinkedFrame(m, m', a, y);
    Adopted(m, m', b, y, x);
    LinkedFrame(m, m', c, x);
    RelinkedPath(m, m', p, x, y, root);
    assert Linked(m', Node(t.color, b, x, c), y);
  }

  /** Painting the root of `t`. */
  lemma PaintHolds(m: Memory, m': Memory, t: Tree, p: Path, root: Rule?, c: Color)
    requires Holds(m, t, p, root) && t.Node?
    requires t.rule in m && t.rule in m' && m'[t.rule] == m[t.rule].(color := c)
    requires Same(m, m', Nodes(t) + PathNodes(p) - {t.rule})
    ensures Holds(m', t.(color := c), p, root)
  {
    LinkedFrame(m, m', t.left, t.rule);
    LinkedFrame(m, m', t.right, t.rule);
    PathFrame(m, m', p, t.rule, root);
  }

  /** Hanging a new rule without children into an empty hole. */
  lemma AttachHolds(m: Memory, m': Memory, elm: Rule, p: Path, root: Rule?)
    requires Holds(m, Leaf, p, root) && elm !in PathNodes(p)
    requires elm in m' && m'[elm] == Links(null, null, ParentOf(p), Red)
    requires p.LeftOf? ==> p.rule in m && p.rule in m' && m'[p.rule] == m[p.rule].(left := elm)
    requires p.RightOf? ==> p.rule in m && p.rule in m' && m'[p.rule] == m[p.rule].(right := elm)
    requires !p.Top? ==> Same(m, m', PathNodes(p) - {p.rule})
    ensures Holds(m', Node(Red, Leaf, elm, Leaf), p, if p.Top? then elm else root)
  {
    match p
    case Top =>
    case LeftOf(_, up, n, r) => LinkedFrame(m, m', r, n); PathFrame(m, m', up, n, root);
    case RightOf(_, l, n, up) => LinkedFrame(m, m', l, n); PathFrame(m, m', up, n, root);
  }

  /** Taking out the root of `t`, which has no child besides `child`. */
  lemma SpliceHolds(m: Memory, m': Memory, t: Tree, child: Tree, p: Path, root: Rule?)
    requires Holds(m, t, p, root) && OnlyChild(t, child)
    requires child.Node? ==>
        child.rule in m && child.rule in m' && m'[child.rule] == m[child.rule].(parent := ParentOf(p))
    requires !p.Top? ==> p.rule in m && p.rule in m' && m'[p.rule] == Relinked(m, p.rule, t.rule, Ptr(child))[p.rule]
    requires Same(m, m', Nodes(child) + PathNodes(p) - Neighbours(child, p))
    ensures Holds(m', child, p, if p.Top? then Ptr(child) else root)
  {
    Adopted(m, m', child, t.rule, ParentOf(p));
    RelinkedPath(m, m', p, t.rule, Ptr(child), root);
  }

  /** The rules whose links are written when `y` takes the place of the root of `t`. */
  ghost function Around(t: Tree, p: Path): set<Rule>
    requires t.Node?
  {
    Neighbours(t.left, p) + (if t.right.Node? then {t.right.rule} else {})
  }

  /** Putting the rule `y` in the place of the root of `t`. */
  lemma ReplaceHolds(m: Memory, m': Memory, t: Tree, y: Rule, p: Path, root: Rule?)
    requires Holds(m, t, p, root) && t.Node? && y !in Nodes(t) + PathNodes(p)
    requires t.rule in m && y in m' && m'[y] == m[t.rule]
    requires t.left.Node? ==> t.left.rule in m && t.left.rule in m' && m'[t.left.rule] == m[t.left.rule].(parent := y)
    requires t.right.Node? ==>
        t.right.rule in m && t.right.rule in m' && m'[t.right.rule] == m[t.right.rule].(parent := y)
    requires !p.Top? ==> p.rule in m && p.rule in m' && m'[p.rule] == Relinked(m, p.rule, t.rule, y)[p.rule]
    requires Same(m, m', Nodes(t) + PathNodes(p) - {t.rule} - Around(t, p))
    ensures Holds(m', t.(rule := y), p, if p.Top? then y else root)
  {
    Adopted(m, m', t.left, t.rule, y);
    Adopted(m, m', t.right, t.rule, y);
    RelinkedPath(m, m', p, t.rule, y, root);
  }

  /** What the links say about the rules next to the root of `t`. */
  lemma NeighbourLinks(m: Memory, t: Tree, p: Path, root: Rule?)
    requires Holds(m, t, p, root) && t.Node?
    ensures t.rule in m && m[t.rule] == Links(Ptr(t.left), Ptr(t.right), ParentOf(p), t.color)
    ensures t.left.Node? ==> t.left.rule in m && t.left.rule != t.rule
    ensures t.right.Node? ==> t.right.rule in m && t.right.rule !in {t.rule, Ptr(t.left)}
    ensures !p.Top? ==> p.rule in m && p.rule !in {t.rule, Ptr(t.left), Ptr(t.right)}
  {
    assert Linked(m, t.left, t.rule) && Linked(m, t.right, t.rule);
  }

  /** The rules left when the root of `t` makes room for its only child. */
  lemma SplicedNodes(m: Memory, t: Tree, child: Tree, p: Path, root: Rule?)
    requires Holds(m, t, p, root) && OnlyChild(t, child)
    ensures Nodes(t) == Nodes(child) + {t.rule} && t.rule !in Nodes(child) + PathNodes(p)
    ensures Neighbours(child, p) <= Nodes(child) + PathNodes(p)
    ensures child.Node? ==> child.rule in m && child.rule != t.rule && child.rule != ParentOf(p)
  {
    NeighbourLinks(m, t, p, root);
  }
}
