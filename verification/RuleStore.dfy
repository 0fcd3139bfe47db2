/** The rule store of lib/bsdrb.c: the red-black tree used as a finite map from uids to rule instances. */
module RuleStore {
  import opened Basics
  import opened UidOrder
  import opened RbShape
  import opened RbSearch
  import opened RbTree

  /** The map that a sorted sequence of rules stands for. */
  ghost function Contents(s: seq<Rule>): map<Uid, int>
    requires Sorted(s)
  {
    SortedUids(s);
    map i | 0 <= i < |s| :: s[i].uid := s[i].inst
  }

  lemma SortedUids(s: seq<Rule>)
    requires Sorted(s)
    ensures forall i, j :: 0 <= i < |s| && 0 <= j < |s| && s[i].uid == s[j].uid ==> i == j
  {
    forall i, j | 0 <= i < |s| && 0 <= j < |s| && s[i].uid == s[j].uid ensures i == j {
      SortedDistinct(s, i, j);
    }
  }

  /** Each rule is found in the map under its own uid. */
  lemma ContentsAt(s: seq<Rule>, k: nat)
    requires k < |s| && Sorted(s)
    ensures s[k].uid in Contents(s) && Contents(s)[s[k].uid] == s[k].inst
  {
    SortedUids(s);
  }

  lemma ContentsFrom(s: seq<Rule>, u: Uid) returns (k: nat)
    requires Sorted(s) && u in Contents(s)
    ensures k < |s| && s[k].uid == u
  {
    k :| 0 <= k < |s| && s[k].uid == u;
  }

  lemma WithoutSorted(s: seq<Rule>, k: nat)
    requires k < |s| && Sorted(s)
    ensures Sorted(s[..k] + s[k + 1..])
  {
    hide Less;
    assert s == s[..k] + [s[k]] + s[k + 1..];
    SortedAround(s[..k], s[k], s[k + 1..]);
  }

  /** Taking a rule out of the sequence removes exactly its key from the map. */
  lemma ContentsWithout(s: seq<Rule>, k: nat)
    requires k < |s| && Sorted(s)
    ensures Sorted(s[..k] + s[k + 1..])
    ensures Contents(s[..k] + s[k + 1..]) == Contents(s) - {s[k].uid}
  {
    hide Contents, Sorted;
    var s' := s[..k] + s[k + 1..];
    WithoutSorted(s, k);
    var m, m' := Contents(s), Contents(s');
    forall u | u in m' ensures u in m - {s[k].uid} && m[u] == m'[u] {
      var i := ContentsFrom(s', u);
      var j := if i < k then i else i + 1;
      assert s[j] == s'[i];
      ContentsAt(s, j);
      ContentsAt(s', i);
      if s[j].uid == s[k].uid { SortedDistinct(s, j, k); }
    }
    forall u | u in m - {s[k].uid} ensures u in m' {
      var j := ContentsFrom(s, u);
      var i := if j < k then j else j - 1;
      assert s'[i] == s[j];
      ContentsAt(s', i);
    }
  }

  /** The map held by the store. */
  ghost function Rules(rh: RuleHead): map<Uid, int>
    requires rh.Valid()
    reads rh, rh.repr
  {
    Contents(Inorder(rh.tree))
  }

  /** `bsdrb_init`. */
  method Init() returns (rh: RuleHead)
    ensures fresh(rh) && rh.Valid() && Rules(rh) == map[] && rh.repr == {}
  {
    rh := new RuleHead();
  }

  lemma StoredKey(rh: RuleHead, r: Rule)
    requires rh.Valid() && r in rh.repr
    ensures r.uid in Rules(rh) && Rules(rh)[r.uid] == r.inst
  {
    rh.FocusRoot(rh.tree);
    NodesAreInorder(rh.tree, r);
    var k :| 0 <= k < |Inorder(rh.tree)| && Inorder(rh.tree)[k] == r;
    ContentsAt(Inorder(rh.tree), k);
  }

  lemma MissingKey(rh: RuleHead, key: Uid)
    requires rh.Valid() && forall n :: n in rh.repr ==> n.uid != key
    ensures key !in Rules(rh)
  {
    rh.FocusRoot(rh.tree);
    forall i | 0 <= i < |Inorder(rh.tree)| ensures Inorder(rh.tree)[i].uid != key {
      NodesAreInorder(rh.tree, Inorder(rh.tree)[i]);
    }
  }

  /** `bsdrb_find` agrees with the map, and walks at most `2 lg (n + 1)` rules. */
  method Find(rh: RuleHead, k: Uid) returns (ri: Option<int>, ghost steps: nat)
    requires rh.Valid()
    ensures ri == if k in Rules(rh) then Some(Rules(rh)[k]) else None
    ensures Pow2(steps) <= (|Inorder(rh.tree)| + 1) * (|Inorder(rh.tree)| + 1)
  {
    var r;
    r, steps := rh.Find(k);
    if r != null {
      StoredKey(rh, r);
      ri := Some(r.inst);
    } else {
      MissingKey(rh, k);
      ri := None;
    }
  }

  /** `bsdrb_insert`: 1 and the map grows by the new rule, or 0 and the map stays as it was. */
  method Insert(rh: RuleHead, uid: Uid, inst: int) returns (rc: int)
    requires rh.Valid()
    modifies rh, rh.repr
    ensures rh.Valid() && fresh(rh.repr - old(rh.repr))
    ensures rc == if uid in old(Rules(rh)) then 0 else 1
    ensures Rules(rh) == if uid in old(Rules(rh)) then old(Rules(rh)) else old(Rules(rh))[uid := inst]
  {
    var ir := new Rule(uid, inst);
    ghost var s := Inorder(rh.tree);
    var r, k := rh.Insert(ir);
    if r != null {
      StoredKey(rh, r);
      rc := 0;
    } else {
      NewKey(rh, s, ir, k);
      rc := 1;
    }
  }

  lemma NewKey(rh: RuleHead, s: seq<Rule>, ir: Rule, k: nat)
    requires rh.Valid() && k <= |s| && Sorted(s) && Inorder(rh.tree) == s[..k] + [ir] + s[k..]
    ensures ir.uid !in Contents(s) && Rules(rh) == Contents(s)[ir.uid := ir.inst]
  {
    ContentsWith(s, ir, k);
  }

  /** Putting a rule into the sequence adds its key to the map. */
  lemma ContentsWith(s: seq<Rule>, ir: Rule, k: nat)
    requires k <= |s| && Sorted(s) && Sorted(s[..k] + [ir] + s[k..])
    ensures ir.uid !in Contents(s) && Contents(s[..k] + [ir] + s[k..]) == Contents(s)[ir.uid := ir.inst]
  {
    hide Contents, Sorted;
    var t := s[..k] + [ir] + s[k..];
    ContentsAt(t, k);
    ContentsWithout(t, k);
    assert t[k] == ir && t[..k] + t[k + 1..] == s;
  }

  /** `bsdrb_remove`: 1 and exactly that key goes, or 0 and the map stays as it was. */
  method Remove(rh: RuleHead, key: Uid) returns (rc: int)
    requires rh.Valid()
    modifies rh, rh.repr
    ensures rh.Valid() && rh.repr <= old(rh.repr)
    ensures rc == if key in old(Rules(rh)) then 1 else 0
    ensures Rules(rh) == old(Rules(rh)) - {key}
  {
    var r, _ := rh.Find(key);
    if r != null {
      StoredKey(rh, r);
      ghost var s := Inorder(rh.tree);
      ghost var k;
      r, k := rh.Remove(r);
      ContentsAt(s, k);
      ContentsWithout(s, k);
    } else {
      MissingKey(rh, key);
    }
    if r != null {
      rc := 1;
    } else {
      rc := 0;
    }
  }

  /** `bsdrb_empty` answers 0 for an empty store and 1 otherwise. */
  method Empty(rh: RuleHead) returns (rc: int)
    requires rh.Valid()
    ensures rc == if Rules(rh) == map[] then 0 else 1
  {
    rh.FocusRoot(rh.tree);
    if rh.root != null {
      StoredKey(rh, rh.root);
    }
    rc := if rh.root == null then 0 else 1;
  }

  /** The instances of a sequence of rules, in order. */
  function Instances(s: seq<Rule>): seq<int> {
    seq(|s|, i requires 0 <= i < |s| => s[i].inst)
  }

  /** `bsdrb_all` lists every rule exactly once, in ascending uid order. */
  method All(rh: RuleHead) returns (va: seq<int>)
    requires rh.Valid()
    ensures Sorted(Inorder(rh.tree)) && va == Instances(Inorder(rh.tree))
  {
    ghost var s := Inorder(rh.tree);
    rh.FocusRoot(rh.tree);
    va := [];
    var np := rh.MinMax(-1);
    ghost var k := 0;
    while np != null
      invariant k <= |s| && va == Instances(s[..k])
      invariant np == if k < |s| then s[k] else null
      decreases |s| - k
    {
      va := va + [np.inst];
      NodesAreInorder(rh.tree, np);
      np := rh.Next(np, k);
      k := k + 1;
      assert s[..k][..k - 1] == s[..k - 1];
    }
    assert s[..k] == s;
  }

  lemma DistinctRules(s: seq<Rule>)
    requires Sorted(s)
    ensures forall i, j :: 0 <= i < j < |s| ==> s[i] != s[j]
  {
    SortedUids(s);
  }

  lemma EmptyInorder(t: Tree)
    ensures Inorder(t) == [] <==> t == Leaf
  {
  }

  /** The rules still in the tree are `rest`, and `cur` is the first of them. */
  ghost predicate Remaining(rh: RuleHead, cur: Rule?, rest: seq<Rule>)
    reads rh, rh.repr
  {
    && rh.Valid() && Inorder(rh.tree) == rest
    && cur == if rest == [] then null else rest[0]
  }

  /** Nothing remains: the tree is empty. */
  lemma NoneRemain(rh: RuleHead)
    requires Remaining(rh, null, [])
    ensures rh.Valid() && rh.root == null && rh.repr == {}
  {
    hide Inorder, Sorted, RedBlack;
    EmptyInorder(rh.tree);
    rh.FocusRoot(rh.tree);
  }

  /** `RB_MIN` at the start of the loop in `bsdrb_free`. */
  method FirstToFree(rh: RuleHead) returns (cur: Rule?)
    requires rh.Valid()
    ensures Remaining(rh, cur, Inorder(rh.tree)) && Sorted(Inorder(rh.tree))
  {
    hide Inorder, Sorted, RedBlack;
    EmptyInorder(rh.tree);
    cur := rh.MinMax(-1);
  }

  /** One turn of the loop in `bsdrb_free`: the successor is saved before the first rule is removed. */
  method FreeFirst(rh: RuleHead, cur: Rule, ghost rest: seq<Rule>) returns (nxt: Rule?)
    requires rest != [] && Remaining(rh, cur, rest)
    modifies rh, rh.repr
    ensures rh.repr == old(rh.repr) - {cur} && Remaining(rh, nxt, rest[1..])
  {
    hide Inorder, Sorted, RedBlack;
    rh.FocusRoot(rh.tree);
    NodesAreInorder(rh.tree, cur);
    nxt := rh.Next(cur, 0);
    var _, k := rh.Remove(cur);
    SortedDistinct(rest, 0, k);
  }

  /** `bsdrb_free` frees every rule exactly once, in order, and leaves an empty tree. */
  method Free(rh: RuleHead) returns (ghost freed: seq<Rule>)
    requires rh.Valid()
    modifies rh, rh.repr
    ensures rh.Valid() && rh.root == null && rh.repr == {}
    ensures freed == old(Inorder(rh.tree)) && forall i, j :: 0 <= i < j < |freed| ==> freed[i] != freed[j]
  {
    hide Inorder, Sorted, RedBlack, Remaining, RuleHead.Valid;
    ghost var s := Inorder(rh.tree);
    ghost var rest := s;
    freed := [];
    var cur := FirstToFree(rh);
    DistinctRules(s);
    while cur != null
      invariant rh.repr <= old(rh.repr) && Remaining(rh, cur, rest)
      invariant freed + rest == s
      decreases |rest|
    {
      RemainingHead(rh, cur, rest);
      freed := freed + [cur];
      cur := FreeFirst(rh, cur, rest);
      rest := rest[1..];
    }
    RemainingHead(rh, cur, rest);
    NoneRemain(rh);
  }

  lemma RemainingHead(rh: RuleHead, cur: Rule?, rest: seq<Rule>)
    requires Remaining(rh, cur, rest)
    ensures cur == if rest == [] then null else rest[0]
  {
  }
}
