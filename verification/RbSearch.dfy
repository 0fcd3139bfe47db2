/** Key order along search paths, and how the ordered sequence of rules changes. */
module RbSearch {
  import opened UidOrder
  import opened RbShape
  import opened RbRepair

  /** Everything before the hole of `p` is smaller than `key`, everything after it is larger. */
  ghost predicate Between(p: Path, key: Uid) {
    && (forall x :: x in Before(p) ==> Less(x.uid, key))
    && (forall x :: x in After(p) ==> Less(key, x.uid))
  }

  lemma SortedAround(a: seq<Rule>, n: Rule, b: seq<Rule>)
    requires Sorted(a + [n] + b)
    ensures forall x :: x in a ==> Less(x.uid, n.uid)
    ensures forall x :: x in b ==> Less(n.uid, x.uid)
    ensures Sorted(a + b) && n !in a + b
  {
    var s := a + [n] + b;
    forall x | x in a ensures Less(x.uid, n.uid) {
      var i :| 0 <= i < |a| && a[i] == x;
      assert s[i] == x && s[|a|] == n;
    }
    forall x | x in b ensures Less(n.uid, x.uid) {
      var i :| 0 <= i < |b| && b[i] == x;
      assert s[|a| + 1 + i] == x && s[|a|] == n;
    }
    StrcmpTrichotomy(n.uid, n.uid);
    forall i, j | 0 <= i < j < |a + b| ensures Less((a + b)[i].uid, (a + b)[j].uid) {
      var i', j' := if i < |a| then i else i + 1, if j < |a| then j else j + 1;
      assert s[i'] == (a + b)[i] && s[j'] == (a + b)[j];
    }
  }

  lemma SortedInsert(a: seq<Rule>, n: Rule, b: seq<Rule>)
    requires Sorted(a + b)
    requires forall x :: x in a ==> Less(x.uid, n.uid)
    requires forall x :: x in b ==> Less(n.uid, x.uid)
    ensures Sorted(a + [n] + b)
  {
    var s := a + [n] + b;
    forall i, j | 0 <= i < j < |s| ensures Less(s[i].uid, s[j].uid) {
      if i != |a| && j != |a| {
        var i', j' := if i < |a| then i else i - 1, if j < |a| then j else j - 1;
        assert s[i] == (a + b)[i'] && s[j] == (a + b)[j'];
      } else if i == |a| {
        assert s[j] == b[j - |a| - 1];
      } else {
        assert s[i] == a[i];
      }
    }
  }

  lemma WholeSplit(t: Tree, p: Path)
    requires t.Node?
    ensures Whole(t, p) == (Before(p) + Inorder(t.left)) + [t.rule] + (Inorder(t.right) + After(p))
  {
    Reassociate(Before(p), Inorder(t.left), [t.rule], Inorder(t.right), After(p));
    assert (Before(p) + Inorder(t.left)) + [t.rule] + (Inorder(t.right) + After(p))
        == (Before(p) + Inorder(t.left) + [t.rule]) + Inorder(t.right) + After(p);
  }

  lemma SearchLeft(t: Tree, p: Path, key: Uid)
    requires t.Node? && Sorted(Whole(t, p)) && Between(p, key) && Less(key, t.rule.uid)
    ensures Between(LeftOf(t.color, p, t.rule, t.right), key)
    ensures Whole(t.left, LeftOf(t.color, p, t.rule, t.right)) == Whole(t, p)
  {
    ZipWhole(t.left, LeftOf(t.color, p, t.rule, t.right));
    WholeSplit(t, p);
    SortedAround(Before(p) + Inorder(t.left), t.rule, Inorder(t.right) + After(p));
    forall x | x in Inorder(t.right) ensures Less(key, x.uid) {
      LessTransitive(key, t.rule.uid, x.uid);
    }
  }

  lemma SearchRight(t: Tree, p: Path, key: Uid)
    requires t.Node? && Sorted(Whole(t, p)) && Between(p, key) && Less(t.rule.uid, key)
    ensures Between(RightOf(t.color, t.left, t.rule, p), key)
    ensures Whole(t.right, RightOf(t.color, t.left, t.rule, p)) == Whole(t, p)
  {
    ZipWhole(t.right, RightOf(t.color, t.left, t.rule, p));
    WholeSplit(t, p);
    SortedAround(Before(p) + Inorder(t.left), t.rule, Inorder(t.right) + After(p));
    forall x | x in Inorder(t.left) ensures Less(x.uid, key) {
      LessTransitive(x.uid, t.rule.uid, key);
    }
  }

  /** A search that ends in an empty hole has excluded every rule. */
  lemma SearchMiss(p: Path, key: Uid)
    requires Between(p, key)
    ensures forall x :: x in Whole(Leaf, p) ==> x.uid != key
  {
    StrcmpTrichotomy(key, key);
  }

  /** Every rule of a tree can be brought into focus. */
  lemma {:induction false} Locate(t: Tree, p: Path, n: Rule) returns (t': Tree, p': Path)
    requires n in Nodes(t)
    ensures t'.Node? && t'.rule == n && Plug(p', t') == Plug(p, t)
    decreases t
  {
    if n == t.rule {
      t', p' := t, p;
    } else if n in Nodes(t.left) {
      t', p' := Locate(t.left, LeftOf(t.color, p, t.rule, t.right), n);
    } else {
      t', p' := Locate(t.right, RightOf(t.color, t.left, t.rule, p), n);
    }
  }

  /** In a sorted sequence every rule has one position. */
  lemma SortedDistinct(s: seq<Rule>, i: nat, j: nat)
    requires Sorted(s) && i < |s| && j < |s| && s[i].uid == s[j].uid
    ensures i == j
  {
    StrcmpTrichotomy(s[i].uid, s[j].uid);
  }

  lemma {:induction false} PlugGraft(q: Path, base: Path, t: Tree)
    ensures Plug(Graft(q, base), t) == Plug(base, Plug(q, t))
    decreases q
  {
    if !q.Top? {
      PlugGraft(q.up, base, Zip(q, t));
    }
  }

  /** The rules before and after the root of `t` in the whole tree. */
  function Front(t: Tree, p: Path): seq<Rule>
    requires t.Node?
  {
    Before(p) + Inorder(t.left)
  }

  function Rear(t: Tree, p: Path): seq<Rule>
    requires t.Node?
  {
    Inorder(t.right) + After(p)
  }

  lemma PlugWhole(p: Path, t: Tree)
    ensures Inorder(Plug(p, t)) == Whole(t, p)
  {
    PlugInorder(p, t);
  }

  /** Where the rule at the focus sits in the ordered sequence of all rules. */
  lemma RemovalPoint(tree: Tree, t: Tree, p: Path)
    requires t.Node? && Plug(p, t) == tree && Sorted(Inorder(tree))
    ensures var (s, k) := (Inorder(tree), |Front(t, p)|);
      k < |s| && s[k] == t.rule && s[..k] == Front(t, p) && s[k + 1..] == Rear(t, p)
      && s == s[..k] + [s[k]] + s[k + 1..]
    ensures Sorted(Front(t, p) + Rear(t, p))
  {
    PlugInorder(p, t);
    WholeSplit(t, p);
    SortedAround(Front(t, p), t.rule, Rear(t, p));
  }

  /** `st` is the leftmost rule of `r` with its right subtree, and `q` leads from there up to `r`. */
  ghost predicate Leftmost(r: Tree, st: Tree, q: Path) {
    Plug(q, st) == r && st.Node? && Before(q) == []
  }

  /** The leftmost rule comes first. */
  lemma LeftmostFirst(r: Tree, st: Tree, q: Path)
    requires Leftmost(r, st, q) && st.left.Leaf?
    ensures Inorder(r) == [st.rule] + Inorder(st.right) + After(q)
  {
    PlugInorder(q, st);
    assert Inorder(st) == [st.rule] + Inorder(st.right);
  }

  /** Taking out a rule with at most one child leaves the other rules in order. */
  lemma SplicedWhole(t: Tree, p: Path, child: Tree)
    requires OnlyChild(t, child)
    ensures Whole(child, p) == Front(t, p) + Rear(t, p)
  {
    assert Inorder(child) == Inorder(t.left) + Inorder(t.right);
    hide Inorder, Before, After;
    Rejoin(Before(p), Inorder(t.left), Inorder(t.right), After(p));
  }

  lemma Rejoin<T>(a: seq<T>, b: seq<T>, c: seq<T>, d: seq<T>)
    ensures a + (b + c) + d == (a + b) + (c + d)
  {
  }

  /** The rule right after the root of `t`. */
  lemma RearFirst(t: Tree, p: Path)
    requires t.Node?
    ensures t.right.Leaf? ==> Rear(t, p) == After(p)
    ensures t.right.Node? ==> Inorder(t.right) != [] && Rear(t, p) != [] && Rear(t, p)[0] == Inorder(t.right)[0]
  {
  }

  /** Putting the successor in the place of the removed rule leaves the other rules in order. */
  lemma ReplacedWhole(t: Tree, p: Path, st: Tree, q: Path)
    requires t.Node? && Leftmost(t.right, st, q) && st.left.Leaf?
    ensures Whole(st.right, Graft(q, RightOf(t.color, t.left, st.rule, p))) == Front(t, p) + Rear(t, p)
  {
    var base := RightOf(t.color, t.left, st.rule, p);
    LeftmostFirst(t.right, st, q);
    GraftParts(q, base);
    hide Inorder, Graft, Leftmost;
    assert Before(base) == Front(t, p) + [st.rule] && After(base) == After(p);
    MoveUp(Front(t, p), [st.rule], Inorder(st.right), After(q), After(p));
  }

  lemma MoveUp<T>(a: seq<T>, b: seq<T>, c: seq<T>, d: seq<T>, e: seq<T>)
    ensures a + b + c + (d + e) == a + (b + c + d + e)
  {
  }

  /** What removal leaves to be repaired after the successor took the place of the removed rule. */
  lemma ReplacedFlaw(t: Tree, p: Path, st: Tree, q: Path, tree: Tree)
    requires t.Node? && Leftmost(t.right, st, q) && st.left.Leaf?
    requires RedBlack(tree) && Plug(p, t) == tree
    ensures var p' := Graft(q, RightOf(t.color, t.left, st.rule, p));
      && (st.color.Black? ==> RemoveFlaw(st.right, p', BlackHeight(st) - 1))
      && (st.color.Red? ==> RedBlack(Plug(p', st.right)))
  {
    var base := RightOf(t.color, t.left, t.rule, p);
    PlugGraft(q, base, st);
    UnplugRedBlack(Graft(q, base), st, BlackHeight(tree));
    ReplacedPath(q, t.color, t.left, t.rule, st.rule, p, BlackHeight(st), IsRed(st));
    SplicedFlaw(st, Graft(q, RightOf(t.color, t.left, st.rule, p)), st.right, BlackHeight(st));
  }
}
