/** Where lib/bcond.c goes wrong: traces of refused definitions, null dereferences and names that collide. */
module BcondFaults {
  import opened Basics
  import opened Octets
  import opened Sexp
  import opened Bcond
  import opened BcondEval
  import opened BcondMeaning

  // ----- what a refused definition leaves behind -----

  /** The leftmost name in a condition. */
  function First(c: Cond): string {
    match c
    case AndOf(cs) => if cs == [] then "" else First(cs[0])
    case OrOf(cs) => if cs == [] then "" else First(cs[0])
    case NotOf(x) => First(x)
    case RefTo(name) => name
  }

  /** An undefined leftmost name stops the translation at once; a defined one gets a user in any case. */
  lemma {:induction false} TranslatedFirst(t: Table, plugins: set<string>, c: Cond, more: seq<Sexp>)
    requires WellFormed(c)
    ensures var (t', r) := Translated(t, plugins, [Tree(c)] + more);
      match Find(t.defs, First(c))
      case None => r == Refused && t' == t
      case Some(i) => i < |t'.defs| && |t'.defs[i].users| > |t.defs[i].users|
    decreases c, 1
  {
    var parts := Tree(c).parts;
    assert Translated(t, plugins, [Tree(c)] + more) == Translated(t, plugins, parts);
    match c
    case AndOf(cs) =>
      assert parts[1..] == Trees(cs);
      TranslatedFirstAll(t, plugins, cs);
    case OrOf(cs) =>
      assert parts[1..] == Trees(cs);
      TranslatedFirstAll(t, plugins, cs);
    case NotOf(x) =>
      assert parts[1..] == [Tree(x)] + [];
      TranslatedFirst(t, plugins, x, []);
    case RefTo(name) =>
  }

  lemma {:induction false} TranslatedFirstAll(t: Table, plugins: set<string>, cs: seq<Cond>)
    requires cs != [] && AllWellFormed(cs)
    ensures var (t', r) := TranslatedAll(t, plugins, Trees(cs));
      match Find(t.defs, First(cs[0]))
      case None => r == Refused && t' == t
      case Some(i) => i < |t'.defs| && |t'.defs[i].users| > |t.defs[i].users|
    decreases cs, 0
  {
    var chain := Trees(cs);
    assert chain == [Tree(cs[0])] + Trees(cs[1..]) && chain[1..] == Trees(cs[1..]);
    TranslatedFirst(t, plugins, cs[0], Trees(cs[1..]));
    var (t1, r1) := Translated(t, plugins, chain);
    if r1.Done? {
      TranslatedAllOk(t1, plugins, chain[1..]);
      var (t2, r2) := TranslatedAll(t1, plugins, chain[1..]);
      if i :| 0 <= i < |t1.defs| && Find(t.defs, First(cs[0])) == Some(i) {
        assert Grows(t1.defs[i], t2.defs[i]);
      }
    }
  }

  /** What `bcdef_add` does with a condition in which some name is not defined. */
  lemma RefusedAdds(t: Table, plugins: set<string>, digest: string -> string, name: string, c: Cond)
    requires WellFormed(c) && !Known(t.defs, c)
    ensures AddDef(t, plugins, digest, name, Canonical(Tree(c))) == (Translated(t, plugins, [Tree(c)]).0, Failed)
  {
    TextReads(c);
    TranslatesCond(t, plugins, c, []);
    assert [Tree(c)] + [] == [Tree(c)];
  }

  /** A refused addition leaves the table as it was if and only if the leftmost name in the text is not defined. */
  lemma RefusedUnchangedIff(t: Table, plugins: set<string>, digest: string -> string, name: string, c: Cond)
    requires WellFormed(c) && !Known(t.defs, c)
    ensures AddDef(t, plugins, digest, name, Canonical(Tree(c))).0 == t <==> Find(t.defs, First(c)).None?
  {
    RefusedAdds(t, plugins, digest, name, c);
    TranslatedFirst(t, plugins, c, []);
    assert [Tree(c)] + [] == [Tree(c)];
  }

  /** Otherwise the definition of that name counts as used from then on and cannot be deleted. */
  lemma RefusedLeavesUser(t: Table, plugins: set<string>, digest: string -> string, name: string, c: Cond)
    requires WellFormed(c) && !Known(t.defs, c) && Find(t.defs, First(c)).Some?
    ensures DelDef(AddDef(t, plugins, digest, name, Canonical(Tree(c))).0, First(c)) == Unwilling
  {
    RefusedAdds(t, plugins, digest, name, c);
    TranslatedFirst(t, plugins, c, []);
    assert [Tree(c)] + [] == [Tree(c)];
    TranslatedOk(t, plugins, [Tree(c)]);
    ExtendsFinds(t, Translated(t, plugins, [Tree(c)]).0);
  }

  // ----- null dereferences -----

  /** A condition in which a part may be an empty list. */
  datatype Draft =
    | AndDraft(parts: seq<Draft>)
    | OrDraft(parts: seq<Draft>)
    | NotDraft(part: Draft)
    | RefDraft(name: string)
    | Hole

  predicate Writable(d: Draft)
    decreases d, 1
  {
    match d
    case AndDraft(ds) => ds != [] && AllWritable(ds)
    case OrDraft(ds) => ds != [] && AllWritable(ds)
    case NotDraft(x) => Writable(x)
    case RefDraft(name) => name != ""
    case Hole => true
  }

  predicate AllWritable(ds: seq<Draft>)
    decreases ds, 0
  {
    ds == [] || (Writable(ds[0]) && AllWritable(ds[1..]))
  }

  function DraftTree(d: Draft): Sexp
    decreases d, 1
  {
    match d
    case AndDraft(ds) => List([Atom("and")] + DraftTrees(ds))
    case OrDraft(ds) => List([Atom("or")] + DraftTrees(ds))
    case NotDraft(x) => List([Atom("not"), DraftTree(x)])
    case RefDraft(name) => List([Atom("ref"), Atom(name)])
    case Hole => List([])
  }

  function DraftTrees(ds: seq<Draft>): seq<Sexp>
    decreases ds, 0
  {
    if ds == [] then [] else [DraftTree(ds[0])] + DraftTrees(ds[1..])
  }

  /** What the translation stumbles over or passes, in reading order. */
  datatype Mark = Name(name: string) | Gap

  function Marks(d: Draft): seq<Mark>
    decreases d, 1
  {
    match d
    case AndDraft(ds) => AllMarks(ds)
    case OrDraft(ds) => AllMarks(ds)
    case NotDraft(x) => Marks(x)
    case RefDraft(name) => [Name(name)]
    case Hole => [Gap]
  }

  function AllMarks(ds: seq<Draft>): seq<Mark>
    decreases ds, 0
  {
    if ds == [] then [] else Marks(ds[0]) + AllMarks(ds[1..])
  }

  /** The first empty list or undefined name. */
  function FirstFault(defs: seq<Def>, marks: seq<Mark>): Option<Mark> {
    if marks == [] then None
    else if marks[0].Gap? || Find(defs, marks[0].name).None? then Some(marks[0])
    else FirstFault(defs, marks[1..])
  }

  lemma {:induction false} FaultJoin(defs: seq<Def>, a: seq<Mark>, b: seq<Mark>)
    ensures FirstFault(defs, a + b) == if FirstFault(defs, a).Some? then FirstFault(defs, a) else FirstFault(defs, b)
  {
    if a == [] {
      assert a + b == b;
    } else {
      assert (a + b)[1..] == a[1..] + b;
      FaultJoin(defs, a[1..], b);
    }
  }

  lemma {:induction false} FaultSame(defs: seq<Def>, defs': seq<Def>, marks: seq<Mark>)
    requires forall name :: Find(defs', name) == Find(defs, name)
    ensures FirstFault(defs', marks) == FirstFault(defs, marks)
  {
    if marks != [] { FaultSame(defs, defs', marks[1..]); }
  }

  /** How a fault shows. */
  ghost predicate Answers<T>(r: Outcome<T>, fault: Option<Mark>) {
    && (r.Crashed? <==> fault == Some(Gap))
    && (r.Refused? <==> fault.Some? && fault.value.Name?)
  }

  /** The translation crashes if an empty list comes first, and is refused if an undefined name does. */
  lemma {:induction false} TranslatesDraft(t: Table, plugins: set<string>, d: Draft, more: seq<Sexp>)
    requires Writable(d)
    ensures Answers(Translated(t, plugins, [DraftTree(d)] + more).1, FirstFault(t.defs, Marks(d)))
    decreases d, 1
  {
    var parts := DraftTree(d).parts;
    assert d != Hole ==> Translated(t, plugins, [DraftTree(d)] + more) == Translated(t, plugins, parts);
    match d
    case AndDraft(ds) =>
      assert parts[1..] == DraftTrees(ds);
      TranslatesDrafts(t, plugins, ds);
    case OrDraft(ds) =>
      assert parts[1..] == DraftTrees(ds);
      TranslatesDrafts(t, plugins, ds);
    case NotDraft(x) =>
      assert parts[1..] == [DraftTree(x)] + [];
      TranslatesDraft(t, plugins, x, []);
    case RefDraft(name) => assert Marks(d)[1..] == [];
    case Hole =>
  }

  lemma {:induction false} TranslatesDrafts(t: Table, plugins: set<string>, ds: seq<Draft>)
    requires AllWritable(ds)
    ensures Answers(TranslatedAll(t, plugins, DraftTrees(ds)).1, FirstFault(t.defs, AllMarks(ds)))
    decreases ds, 0
  {
    if ds != [] {
      var chain := DraftTrees(ds);
      assert chain == [DraftTree(ds[0])] + DraftTrees(ds[1..]) && chain[1..] == DraftTrees(ds[1..]);
      TranslatesDraft(t, plugins, ds[0], DraftTrees(ds[1..]));
      FaultJoin(t.defs, Marks(ds[0]), AllMarks(ds[1..]));
      var (t1, r1) := Translated(t, plugins, chain);
      if r1.Done? {
        RestAnswers(t, plugins, chain, AllMarks(ds[1..]));
        TranslatesDrafts(t1, plugins, ds[1..]);
      }
      hide Translated, FirstFault, Marks, DraftTree;
    }
  }

  lemma RestAnswers(t: Table, plugins: set<string>, chain: seq<Sexp>, marks: seq<Mark>)
    requires chain != []
    ensures FirstFault(Translated(t, plugins, chain).0.defs, marks) == FirstFault(t.defs, marks)
  {
    TranslatedOk(t, plugins, chain);
    ExtendsFinds(t, Translated(t, plugins, chain).0);
    FaultSame(t.defs, Translated(t, plugins, chain).0.defs, marks);
  }

  lemma {:induction false} DraftShape(d: Draft)
    requires Writable(d)
    ensures Solid(DraftTree(d)) && Headed(DraftTree(d)) && DraftTree(d).List?
    decreases d, 1
  {
    match d
    case AndDraft(ds) =>
      DraftsShape(ds);
      assert DraftTree(d).parts[1..] == DraftTrees(ds);
    case OrDraft(ds) =>
      DraftsShape(ds);
      assert DraftTree(d).parts[1..] == DraftTrees(ds);
    case NotDraft(x) =>
      DraftShape(x);
      TwoParts(Atom("not"), DraftTree(x));
    case RefDraft(name) => TwoParts(Atom("ref"), Atom(name));
    case Hole =>
  }

  lemma {:induction false} DraftsShape(ds: seq<Draft>)
    requires AllWritable(ds)
    ensures SolidAll(DraftTrees(ds)) && HeadedAll(DraftTrees(ds))
    decreases ds, 0
  {
    if ds != [] {
      DraftShape(ds[0]);
      DraftsShape(ds[1..]);
      assert DraftTrees(ds)[1..] == DraftTrees(ds[1..]);
    }
  }

  lemma TreeReads(tree: Sexp)
    requires Solid(tree) && Headed(tree) && tree.List?
    ensures Read(Canonical(tree)) == Some((tree, ""))
  {
    var s := Canonical(tree);
    FirstByte(tree);
    ParsePrinted(tree, "");
    assert s + "" == s;
    ParseCondIff(s);
  }

  /**
   * `bcdef_add` dereferences null if and only if an empty list comes before the first undefined name of the text,
   * and refuses it if and only if an undefined name comes first.
   */
  lemma AddCrashesIff(t: Table, plugins: set<string>, digest: string -> string, name: string, d: Draft)
    requires Writable(d)
    ensures var r, fault := AddDef(t, plugins, digest, name, Canonical(DraftTree(d))).1, FirstFault(t.defs, Marks(d));
      (r == Fatal <==> fault == Some(Gap)) && (r == Failed <==> fault.Some? && fault.value.Name?)
  {
    DraftShape(d);
    TreeReads(DraftTree(d));
    TranslatesDraft(t, plugins, d, []);
    assert [DraftTree(d)] + [] == [DraftTree(d)];
  }

  /** The shortest text that does it. */
  lemma EmptyListCrashes(t: Table, plugins: set<string>, digest: string -> string, name: string)
    ensures AddDef(t, plugins, digest, name, "()").1 == Fatal
  {
    assert CanonicalAll([]) == "" && Canonical(List([])) == "()";
    assert Marks(Hole) == [Gap];
    AddCrashesIff(t, plugins, digest, name, Hole);
  }

  /** No list in the tree is empty. */
  predicate Full(t: Sexp)
    decreases t, 1
  {
    t.Atom? || (t.parts != [] && AllFull(t.parts))
  }

  predicate AllFull(parts: seq<Sexp>)
    decreases parts, 0
  {
    parts == [] || (Full(parts[0]) && AllFull(parts[1..]))
  }

  /** Whatever the tree, the table and the plugins: without an empty list nothing crashes. */
  lemma {:induction false} FullNeverCrashes(t: Table, plugins: set<string>, chain: seq<Sexp>)
    requires chain != [] && AllFull(chain)
    ensures !Translated(t, plugins, chain).1.Crashed?
    decreases chain, 0
  {
    match chain[0]
    case List(parts) => FullNeverCrashes(t, plugins, parts);
    case Atom(a) =>
      if |chain| > 1 {
        FullNeverCrash(t, plugins, chain[1..]);
        FullNeverCrashes(t, plugins, chain[1..]);
      }
  }

  lemma {:induction false} FullNeverCrash(t: Table, plugins: set<string>, chain: seq<Sexp>)
    requires AllFull(chain)
    ensures !TranslatedAll(t, plugins, chain).1.Crashed?
    decreases chain, 1
  {
    if chain != [] {
      FullNeverCrashes(t, plugins, chain);
      FullNeverCrash(Translated(t, plugins, chain).0, plugins, chain[1..]);
    }
  }

  /** So a text can only crash `bcdef_add` if an empty list is somewhere in it. */
  lemma CrashNeedsEmptyList(t: Table, plugins: set<string>, digest: string -> string, name: string, data: string)
    requires AddDef(t, plugins, digest, name, data).1 == Fatal
    ensures ParseCond(data).Ok? && !Full(ParseCond(data).value)
  {
    var tree := Read(data).value.0;
    if Full(tree) {
      assert [tree][1..] == [];
      FullNeverCrashes(t, plugins, [tree]);
    }
  }

  /** `bcdef_del` dereferences null if and only if no definition has the name. */
  lemma DelCrashesIff(t: Table, name: string)
    ensures DelDef(t, name) == UnknownCrash <==> forall i :: 0 <= i < |t.defs| ==> !Matches(t.defs[i], name)
  {
    if DelDef(t, name) != UnknownCrash { assert Matches(t.defs[Find(t.defs, name).value], name); }
  }

  // ----- names that collide -----

  // ----- lists that the grammar does not know -----

  /** A negation with more than one part is refused, and nothing is recorded. */
  lemma LongNotRefused(t: Table, plugins: set<string>, digest: string -> string, name: string, parts: seq<Sexp>)
    requires |parts| > 2 && parts[0] == Atom("not") && Headed(List(parts)) && Solid(List(parts))
    ensures AddDef(t, plugins, digest, name, Canonical(List(parts))) == (t, Failed)
  {
    TreeReads(List(parts));
    assert Translated(t, plugins, [List(parts)]) == Translated(t, plugins, parts);
    assert Translated(t, plugins, parts) == (t, Refused);
  }

  /** A reference looks at its first part alone, whatever follows it. */
  lemma LongRefIsRef(t: Table, plugins: set<string>, digest: string -> string, name: string, n: string, more: seq<Sexp>)
    requires n != "" && Headed(List([Atom("ref"), Atom(n)] + more)) && Solid(List([Atom("ref"), Atom(n)] + more))
    ensures AddDef(t, plugins, digest, name, Canonical(List([Atom("ref"), Atom(n)] + more))) ==
            AddDef(t, plugins, digest, name, Canonical(Tree(RefTo(n))))
  {
    var short := [Atom("ref"), Atom(n)];
    var long := short + more;
    TreeReads(List(long));
    TextReads(RefTo(n));
    assert Translated(t, plugins, [List(long)]) == Translated(t, plugins, long);
    assert Translated(t, plugins, [List(short)]) == Translated(t, plugins, short);
    assert long[0] == Atom("ref") && long[1] == Atom(n);
    assert Translated(t, plugins, long) == Translated(t, plugins, short);
  }

  /** A keyword alone is read as a plugin specification, and refused because it has no colon. */
  lemma BareKeywordRefused(t: Table, plugins: set<string>, digest: string -> string, name: string, word: string)
    requires word in {"and", "or", "not", "ref"}
    ensures AddDef(t, plugins, digest, name, Canonical(List([Atom(word)]))) == (t, Failed)
  {
    assert ':' !in word;
    var tree := List([Atom(word)]);
    assert [Atom(word)][1..] == [];
    assert Headed(tree) && Solid(tree);
    TreeReads(tree);
    assert Translated(t, plugins, [tree]) == Translated(t, plugins, [Atom(word)]);
  }

  /** Every anonymous definition written as a list is named after the text behind the list. */
  lemma AnonymousName(t: Table, plugins: set<string>, digest: string -> string, tree: Sexp, rest: string)
    requires tree.List? && Headed(tree) && Solid(tree)
    ensures var (t', r) := AddDef(t, plugins, digest, "", Canonical(tree) + rest);
      r.Listed? ==>
        && r.position == |t.defs| && |t'.defs| == |t.defs| + 1 && t'.defs[r.position].name == CString(digest(rest))
        && forall i :: 0 <= i < |t.defs| ==> t'.defs[i].name == t.defs[i].name
  {
    ParsePrinted(tree, rest);
    ParseCondIff(Canonical(tree) + rest);
    FirstByte(tree);
    TranslatedOk(t, plugins, [tree]);
    var t1 := Translated(t, plugins, [tree]).0;
    assert forall i :: 0 <= i < |t.defs| ==> Grows(t.defs[i], t1.defs[i]);
  }

  /** It can be found under that name, by a reference or for deletion, if and only if it is the first to have it. */
  lemma AnonymousFoundIff(t: Table, plugins: set<string>, digest: string -> string, tree: Sexp, rest: string)
    requires tree.List? && Headed(tree) && Solid(tree) && CString(digest(rest)) != ""
    ensures var (t', r) := AddDef(t, plugins, digest, "", Canonical(tree) + rest);
      var name := CString(digest(rest));
      r.Listed? ==> (Find(t'.defs, name) == Some(r.position) <==> Find(t.defs, name).None?)
  {
    AnonymousName(t, plugins, digest, tree, rest);
    var (t', r) := AddDef(t, plugins, digest, "", Canonical(tree) + rest);
    var name := CString(digest(rest));
    if r.Listed? {
      if Find(t.defs, name).None? {
        FindUnique(t'.defs, name, r.position);
      } else {
        FindUnique(t'.defs, name, Find(t.defs, name).value);
      }
    }
  }

  /** Of two anonymous list definitions that end their texts alike, the second can never be found. */
  lemma AnonymousCollide(
    t: Table, plugins: set<string>, digest: string -> string, tree: Sexp, tree': Sexp, rest: string)
    requires tree.List? && Headed(tree) && Solid(tree) && tree'.List? && Headed(tree') && Solid(tree')
    requires CString(digest(rest)) != ""
    ensures var (t1, r1) := AddDef(t, plugins, digest, "", Canonical(tree) + rest);
      var (t2, r2) := AddDef(t1, plugins, digest, "", Canonical(tree') + rest);
      r1.Listed? && r2.Listed? ==>
        && r2.position < |t2.defs| && t2.defs[r2.position].name == CString(digest(rest))
        && forall name :: Find(t2.defs, name) != Some(r2.position)
  {
    AnonymousName(t, plugins, digest, tree, rest);
    var (t1, r1) := AddDef(t, plugins, digest, "", Canonical(tree) + rest);
    AnonymousName(t1, plugins, digest, tree', rest);
    var (t2, r2) := AddDef(t1, plugins, digest, "", Canonical(tree') + rest);
    if r1.Listed? && r2.Listed? {
      forall name ensures Find(t2.defs, name) != Some(r2.position) {
        assert Matches(t2.defs[r2.position], name) ==> Matches(t2.defs[r1.position], name);
      }
    }
  }
}
