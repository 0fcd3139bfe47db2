/**
 * The values behind the red-black tree of include/tree.h: the shape of a subtree, the path from a
 * subtree up to the root, and the red-black conditions on both.
 */
module RbShape {
  import opened Basics
  import opened UidOrder

  datatype Color = Red | Black

  /** `struct rule` of lib/bsdrb.c together with its `RB_ENTRY` links. */
  class Rule {
    const uid: Uid
    const inst: int
    var left: Rule?
    var right: Rule?
    var parent: Rule?
    var color: Color

    /** `new_rule` and the assignment of `ri`: every link is null. */
    constructor (uid: Uid, inst: int)
      ensures this.uid == uid && this.inst == inst
    {
      this.uid := uid;
      this.inst := inst;
      left, right, parent, color := null, null, null, Black;
    }
  }

  datatype Tree = Leaf | Node(color: Color, left: Tree, rule: Rule, right: Tree)

  /** The way from a subtree up to the root: which child it is, and what hangs on the other side. */
  datatype Path =
    | Top
    | LeftOf(color: Color, up: Path, rule: Rule, right: Tree)
    | RightOf(color: Color, left: Tree, rule: Rule, up: Path)

  ghost function Nodes(t: Tree): set<Rule> {
    match t
    case Leaf => {}
    case Node(_, l, n, r) => {n} + Nodes(l) + Nodes(r)
  }

  ghost function PathNodes(p: Path): set<Rule> {
    match p
    case Top => {}
    case LeftOf(_, up, n, r) => {n} + Nodes(r) + PathNodes(up)
    case RightOf(_, l, n, up) => {n} + Nodes(l) + PathNodes(up)
  }

  function Inorder(t: Tree): seq<Rule> {
    match t
    case Leaf => []
    case Node(_, l, n, r) => Inorder(l) + [n] + Inorder(r)
  }

  /** The rules that come before the hole of a path, in order. */
  function Before(p: Path): seq<Rule> {
    match p
    case Top => []
    case LeftOf(_, up, _, _) => Before(up)
    case RightOf(_, l, n, up) => Before(up) + Inorder(l) + [n]
  }

  /** The rules that come after the hole of a path, in order. */
  function After(p: Path): seq<Rule> {
    match p
    case Top => []
    case LeftOf(_, up, n, r) => [n] + Inorder(r) + After(up)
    case RightOf(_, _, _, up) => After(up)
  }

  /** The whole tree obtained by putting `t` into the hole of `p`. */
  function Plug(p: Path, t: Tree): Tree {
    match p
    case Top => t
    case LeftOf(c, up, n, r) => Plug(up, Node(c, t, n, r))
    case RightOf(c, l, n, up) => Plug(up, Node(c, l, n, t))
  }

  /** The subtree one step up from the hole of `p`, with `t` in the hole. */
  function Zip(p: Path, t: Tree): Tree
    requires !p.Top?
  {
    match p
    case LeftOf(c, _, n, r) => Node(c, t, n, r)
    case RightOf(c, l, n, _) => Node(c, l, n, t)
  }

  /** The root of `t` has no child, or `child` is its only one. */
  predicate OnlyChild(t: Tree, child: Tree) {
    t.Node? && ((t.left.Leaf? && child == t.right) || (t.right.Leaf? && child == t.left))
  }

  function Length(p: Path): nat {
    if p.Top? then 0 else 1 + Length(p.up)
  }

  /** All rules of the tree with `t` in the hole of `p`, in order. */
  function Whole(t: Tree, p: Path): seq<Rule> {
    Before(p) + Inorder(t) + After(p)
  }

  /** The path `q` continued upwards by `base`. */
  function Graft(q: Path, base: Path): Path {
    match q
    case Top => base
    case LeftOf(c, up, n, r) => LeftOf(c, Graft(up, base), n, r)
    case RightOf(c, l, n, up) => RightOf(c, l, n, Graft(up, base))
  }

  lemma Reassociate<T>(a: seq<T>, b: seq<T>, c: seq<T>, d: seq<T>, e: seq<T>)
    ensures a + (b + c + d) + e == a + b + (c + d + e)
    ensures a + (b + c + d) + e == (a + b + c) + d + e
  {
  }

  lemma {:induction false} PlugInorder(p: Path, t: Tree)
    ensures Inorder(Plug(p, t)) == Before(p) + Inorder(t) + After(p)
    decreases p
  {
    match p
    case Top =>
    case LeftOf(c, up, n, r) =>
      PlugInorder(up, Node(c, t, n, r));
      Reassociate(Before(up), Inorder(t), [n], Inorder(r), After(up));
    case RightOf(c, l, n, up) =>
      PlugInorder(up, Node(c, l, n, t));
      Reassociate(Before(up), Inorder(l), [n], Inorder(t), After(up));
  }

  lemma {:induction false} PlugNodes(p: Path, t: Tree)
    ensures Nodes(Plug(p, t)) == PathNodes(p) + Nodes(t)
    decreases p
  {
    match p
    case Top =>
    case LeftOf(c, up, n, r) => PlugNodes(up, Node(c, t, n, r));
    case RightOf(c, l, n, up) => PlugNodes(up, Node(c, l, n, t));
  }

  lemma {:induction false} GraftParts(q: Path, base: Path)
    ensures Before(Graft(q, base)) == Before(base) + Before(q)
    ensures After(Graft(q, base)) == After(q) + After(base)
    ensures PathNodes(Graft(q, base)) == PathNodes(q) + PathNodes(base)
  {
    match q
    case Top =>
    case LeftOf(c, up, n, r) =>
      GraftParts(up, base);
      assert Graft(q, base) == LeftOf(c, Graft(up, base), n, r);
      assert [n] + Inorder(r) + (After(up) + After(base)) == [n] + Inorder(r) + After(up) + After(base);
    case RightOf(c, l, n, up) =>
      GraftParts(up, base);
      assert Graft(q, base) == RightOf(c, l, n, Graft(up, base));
      assert Before(base) + Before(up) + Inorder(l) + [n] == Before(base) + (Before(up) + Inorder(l) + [n]);
  }

  lemma {:induction false} NodesAreInorder(t: Tree, n: Rule)
    ensures n in Nodes(t) <==> n in Inorder(t)
  {
    match t
    case Leaf =>
    case Node(_, l, _, r) => NodesAreInorder(l, n); NodesAreInorder(r, n);
  }

  // ----- the red-black conditions -----

  predicate IsRed(t: Tree) {
    t.Node? && t.color.Red?
  }

  /** No red node of `t` has a red child. */
  predicate NoRedRed(t: Tree) {
    match t
    case Leaf => true
    case Node(c, l, _, r) => NoRedRed(l) && NoRedRed(r) && (c.Red? ==> !IsRed(l) && !IsRed(r))
  }

  function Step(c: Color): nat {
    if c.Black? then 1 else 0
  }

  /** Every way down from the root of `t` passes `h` black nodes. */
  predicate Balanced(t: Tree, h: int) {
    match t
    case Leaf => h == 0
    case Node(c, l, _, r) => Balanced(l, h - Step(c)) && Balanced(r, h - Step(c))
  }

  function BlackHeight(t: Tree): nat {
    match t
    case Leaf => 0
    case Node(c, l, _, _) => BlackHeight(l) + Step(c)
  }

  /** The three conditions in the comment at the head of include/tree.h, plus a black root. */
  predicate RedBlack(t: Tree) {
    !IsRed(t) && NoRedRed(t) && Balanced(t, BlackHeight(t))
  }

  lemma {:induction false} BalancedHeight(t: Tree, h: int)
    requires Balanced(t, h)
    ensures h == BlackHeight(t)
  {
    match t
    case Leaf =>
    case Node(c, l, _, _) => BalancedHeight(l, h - Step(c));
  }

  /** A subtree of black height `h` in the hole makes the whole tree balanced. */
  predicate PathBalanced(p: Path, h: int) {
    match p
    case Top => true
    case LeftOf(c, up, _, r) => Balanced(r, h) && PathBalanced(up, h + Step(c))
    case RightOf(c, l, _, up) => Balanced(l, h) && PathBalanced(up, h + Step(c))
  }

  /** A subtree whose root is red iff `red` puts no red node under a red one, and the root stays black. */
  predicate PathOk(p: Path, red: bool) {
    match p
    case Top => !red
    case LeftOf(c, up, _, r) => NoRedRed(r) && (c.Red? ==> !red && !IsRed(r)) && PathOk(up, c.Red?)
    case RightOf(c, l, _, up) => NoRedRed(l) && (c.Red? ==> !red && !IsRed(l)) && PathOk(up, c.Red?)
  }

  lemma {:induction false} PlugRedBlack(p: Path, t: Tree, h: int)
    requires Balanced(t, h) && PathBalanced(p, h)
    requires NoRedRed(t) && PathOk(p, IsRed(t))
    ensures RedBlack(Plug(p, t))
    decreases p
  {
    match p
    case Top => BalancedHeight(t, h);
    case LeftOf(c, up, n, r) => PlugRedBlack(up, Node(c, t, n, r), h + Step(c));
    case RightOf(c, l, n, up) => PlugRedBlack(up, Node(c, l, n, t), h + Step(c));
  }

  /** The conditions on the whole tree give the conditions on any focus and its path. */
  lemma {:induction false} UnplugRedBlack(p: Path, t: Tree, h: int)
    requires Balanced(Plug(p, t), h)
    requires NoRedRed(Plug(p, t)) && !IsRed(Plug(p, t))
    ensures Balanced(t, BlackHeight(t)) && PathBalanced(p, BlackHeight(t))
    ensures NoRedRed(t) && PathOk(p, IsRed(t))
    decreases p
  {
    match p
    case Top => BalancedHeight(t, h);
    case LeftOf(c, up, n, r) =>
      var t' := Node(c, t, n, r);
      UnplugRedBlack(up, t', h);
      BalancedHeight(t, BlackHeight(t') - Step(c));
    case RightOf(c, l, n, up) =>
      var t' := Node(c, l, n, t);
      UnplugRedBlack(up, t', h);
      BalancedHeight(t, BlackHeight(t') - Step(c));
  }

  // ----- the height bound of include/tree.h -----

  function Height(t: Tree): nat {
    match t
    case Leaf => 0
    case Node(_, l, _, r) => 1 + Max(Height(l), Height(r))
  }

  lemma {:induction false} Pow2Sum(m: nat, n: nat)
    ensures Pow2(m + n) == Pow2(m) * Pow2(n)
  {
    if m > 0 {
      Pow2Sum(m - 1, n);
      assert m + n - 1 == m - 1 + n;
    }
  }

  lemma {:induction false} Pow2Monotone(m: nat, n: nat)
    requires m <= n
    ensures Pow2(m) <= Pow2(n)
    decreases n
  {
    if m < n { Pow2Monotone(m, n - 1); }
  }

  /** A tree of black height `h` is at most twice as high, and holds at least `2^h - 1` rules. */
  lemma {:induction false} BlackHeightBounds(t: Tree, h: nat)
    requires Balanced(t, h) && NoRedRed(t)
    ensures Height(t) <= 2 * h + (if IsRed(t) then 1 else 0)
    ensures Pow2(h) <= |Inorder(t)| + 1
  {
    match t
    case Leaf =>
    case Node(c, l, _, r) =>
      BalancedHeight(l, h - Step(c));
      BlackHeightBounds(l, h - Step(c));
      BlackHeightBounds(r, h - Step(c));
  }

  lemma SquareMonotone(a: nat, b: nat)
    requires a <= b
    ensures a * a <= b * b
  {
    assert a * a <= a * b <= b * b;
  }

  /** "The maximum height of a red-black tree is 2lg (n+1)": `2^height <= (n+1)^2`. */
  lemma HeightBound(t: Tree)
    requires RedBlack(t)
    ensures Pow2(Height(t)) <= (|Inorder(t)| + 1) * (|Inorder(t)| + 1)
  {
    var h, n := BlackHeight(t), |Inorder(t)| + 1;
    BlackHeightBounds(t, h);
    Pow2Monotone(Height(t), h + h);
    Pow2Sum(h, h);
    SquareMonotone(Pow2(h), n);
  }

  // ----- key order -----

  ghost predicate Sorted(s: seq<Rule>) {
    forall i, j :: 0 <= i < j < |s| ==> Less(s[i].uid, s[j].uid)
  }
}
