/** Which texts the S-expression parser of server/read.c accepts, said without the parser. */
module Spelling {
  import opened Decimal
  import opened Octets
  import opened Sexp
  import opened Bcond
  import opened BcondMeaning
  import opened BcondEval

  /** The text spells the tree: each atom behind its length in some digits, each list in parentheses. */
  ghost predicate Spells(head: string, t: Sexp)
    decreases t, 1
  {
    match t
    case Atom(a) => exists d :: Announced(head, d, a, "")
    case List(parts) => |head| >= 2 && head == "(" + head[1..|head| - 1] + ")" && SpellsAll(head[1..|head| - 1], parts)
  }

  ghost predicate SpellsAll(body: string, parts: seq<Sexp>)
    decreases parts, 1
  {
    if parts == [] then body == "" else exists k: nat :: SpellsFrom(body, parts, k)
  }

  /** The text is cut at `k` into the first part and the others. */
  ghost predicate SpellsFrom(body: string, parts: seq<Sexp>, k: nat)
    requires parts != []
    decreases parts, 0
  {
    k <= |body| && Spells(body[..k], parts[0]) && SpellsAll(body[k..], parts[1..])
  }

  lemma AnnouncedFirst(s: string, d: string, a: string, rest: string)
    requires Announced(s, d, a, rest)
    ensures s != [] && s[0] != '(' && s[0] != ')'
  {
    assert d != [] && s[0] == d[0];
  }

  lemma SpelledFirst(head: string, t: Sexp)
    requires Spells(head, t)
    ensures head != [] && head[0] != ')' && (head[0] == '(' <==> t.List?)
  {
    if t.Atom? {
      var d :| Announced(head, d, t.text, "");
      AnnouncedFirst(head, d, t.text, "");
    }
  }

  /** Whatever the parser accepts is spelt out in front of the rest. */
  lemma {:induction false} AcceptedSpells(s: string)
    requires Parse(s).Ok?
    ensures var k := |s| - |Parse(s).rest|; s == s[..k] + Parse(s).rest && Spells(s[..k], Parse(s).value)
    decreases |s|, 0
  {
    if Peek(s) == '(' {
      AcceptedSpellAll(s[1..]);
      hide SpellsAll;
      ListSpells(s, ParseParts(s[1..]).value, ParseParts(s[1..]).rest);
    } else {
      StringSpells(s, Parse(s).value.text, Parse(s).rest);
    }
  }

  lemma StringSpells(s: string, a: string, rest: string)
    requires TakeStr(s) == Str(a, rest)
    ensures var k := |s| - |rest|; s == s[..k] + rest && Spells(s[..k], Atom(a))
  {
    TakenIff(s, a, rest);
    hide TakeStr;
    var d :| Announced(s, d, a, rest);
    assert s[..|s| - |rest|] == d + ":" + a + "";
    assert Announced(s[..|s| - |rest|], d, a, "");
  }

  lemma ListSpells(s: string, parts: seq<Sexp>, close: string)
    requires s != [] && s[0] == '(' && close != [] && close[0] == ')' && |close| < |s|
    requires var k := |s[1..]| - |close|; s[1..] == s[1..][..k] + close && SpellsAll(s[1..][..k], parts)
    ensures var k := |s| - |close[1..]|; s == s[..k] + close[1..] && Spells(s[..k], List(parts))
  {
    hide SpellsAll;
    var body, head := s[1..][..|s[1..]| - |close|], s[..|s| - |close[1..]|];
    assert s[1..] == body + close && close == ")" + close[1..];
    assert s == "(" + body + ")" + close[1..];
    assert head == "(" + body + ")";
    assert head[1..|head| - 1] == body;
  }

  lemma {:induction false} AcceptedSpellAll(s: string)
    requires ParseParts(s).Ok?
    ensures var r := ParseParts(s);
      var k := |s| - |r.rest|; s == s[..k] + r.rest && SpellsAll(s[..k], r.value)
    decreases |s|, 1
  {
    if s == [] || s[0] == ')' {
      assert s[..0] == "" && s == s[..0] + s;
    } else {
      AcceptedSpells(s);
      AcceptedSpellAll(Parse(s).rest);
      hide Spells, SpellsAll;
      var p, q := Parse(s), ParseParts(Parse(s).rest);
      var head, body := s[..|s| - |p.rest|], p.rest[..|p.rest| - |q.rest|];
      SpellMore(head, p.value, body, q.value);
      hide Parse, ParseParts;
      TakeFront(head, body, q.rest);
    }
  }

  lemma TakeFront<T>(a: seq<T>, b: seq<T>, c: seq<T>)
    ensures var s := a + (b + c); s == a + b + c && s[..|s| - |c|] == a + b
  {
  }

  lemma SpellMore(head: string, t: Sexp, body: string, ts: seq<Sexp>)
    requires Spells(head, t) && SpellsAll(body, ts)
    ensures SpellsAll(head + body, [t] + ts)
  {
    var k := |head|;
    assert (head + body)[..k] == head && (head + body)[k..] == body && ([t] + ts)[1..] == ts;
    assert SpellsFrom(head + body, [t] + ts, k);
  }

  /** And whatever spells a tree is read as it, whatever follows. */
  lemma {:induction false} SpelledAccepted(head: string, t: Sexp, rest: string)
    requires Spells(head, t)
    ensures Parse(head + rest) == Ok(t, rest)
    decreases t, 1
  {
    SpelledFirst(head, t);
    var s := head + rest;
    match t
    case Atom(a) =>
      var d :| Announced(head, d, a, "");
      assert s == d + ":" + a + rest;
      assert Announced(s, d, a, rest);
      TakenIff(s, a, rest);
    case List(parts) =>
      var body := head[1..|head| - 1];
      assert s[1..] == body + (")" + rest);
      SpelledAllAccepted(body, parts, ")" + rest);
      assert (")" + rest)[1..] == rest;
  }

  lemma {:induction false} SpelledAllAccepted(body: string, parts: seq<Sexp>, rest: string)
    requires SpellsAll(body, parts) && rest != [] && rest[0] == ')'
    ensures ParseParts(body + rest) == Ok(parts, rest)
    decreases parts, 0
  {
    if parts == [] {
      assert body + rest == rest;
    } else {
      hide Parse, ParseParts;
      var k: nat :| SpellsFrom(body, parts, k);
      SpelledFirst(body[..k], parts[0]);
      SpelledAccepted(body[..k], parts[0], body[k..] + rest);
      SpelledAllAccepted(body[k..], parts[1..], rest);
      CutJoin(body, k, rest);
      PartsStep(body + rest, parts[0], body[k..] + rest);
      assert [parts[0]] + parts[1..] == parts;
    }
  }

  lemma CutJoin<T>(a: seq<T>, k: nat, b: seq<T>)
    requires k <= |a|
    ensures a + b == a[..k] + (a[k..] + b) && a == a[..k] + a[k..]
    ensures 0 < k ==> (a + b)[0] == a[..k][0]
  {
  }

  /** The parser accepts a tree if and only if the text in front of the rest spells it. */
  lemma ParsesIff(s: string, t: Sexp, rest: string)
    ensures Parse(s) == Ok(t, rest) <==> exists head :: s == head + rest && Spells(head, t)
  {
    if Parse(s) == Ok(t, rest) {
      AcceptedSpells(s);
      var head := s[..|s| - |rest|];
      assert s == head + rest && Spells(head, t);
    }
    forall head | s == head + rest && Spells(head, t) ensures Parse(s) == Ok(t, rest) {
      SpelledAccepted(head, t, rest);
    }
  }

  /** A spelling cut off anywhere is refused. */
  lemma CutOffRefused(head: string, t: Sexp, k: nat)
    requires Spells(head, t) && k < |head|
    ensures !Parse(head[..k]).Ok?
  {
    var s := head[..k];
    if Parse(s).Ok? {
      AcceptedSpells(s);
      var r := Parse(s);
      var h := s[..|s| - |r.rest|];
      var more := r.rest + head[k..];
      assert head + "" == h + more;
      SpelledAccepted(h, r.value, more);
      SpelledAccepted(head, t, "");
      assert false;
    }
  }

  /** So is a list that is never closed. */
  lemma UnclosedRefused(body: string, parts: seq<Sexp>)
    requires SpellsAll(body, parts)
    ensures !Parse("(" + body).Ok?
  {
    var head := "(" + body + ")";
    assert head[1..|head| - 1] == body;
    assert Spells(head, List(parts));
    CutOffRefused(head, List(parts), |head| - 1);
    assert head[..|head| - 1] == "(" + body;
  }

  /** The canonical form is the spelling with the digits that are printed. */
  lemma CanonicalSpells(t: Sexp)
    requires Solid(t)
    ensures Spells(Canonical(t), t)
  {
    ParsePrinted(t, "");
    assert Canonical(t) + "" == Canonical(t);
    AcceptedSpells(Canonical(t));
    assert Canonical(t)[..|Canonical(t)|] == Canonical(t);
  }

  /** The condition parser accepts a tree if and only if the text spells it and every list begins with a keyword. */
  lemma CondParsesIff(s: string, t: Sexp, rest: string)
    ensures ParseCond(s) == Ok(t, rest) <==> Headed(t) && exists head :: s == head + rest && Spells(head, t)
  {
    ParseCondIff(s);
    ParsesIff(s, t, rest);
  }

  // ----- two forms written out -----

  lemma AtomForm(a: string)
    requires 0 < |a| < 10
    ensures Canonical(Atom(a)) == [['0', '1', '2', '3', '4', '5', '6', '7', '8', '9'][|a|], ':'] + a
  {
  }

  lemma ListForm(parts: seq<Sexp>)
    ensures Canonical(List(parts)) == "(" + CanonicalAll(parts) + ")"
    ensures parts != [] ==> CanonicalAll(parts) == Canonical(parts[0]) + CanonicalAll(parts[1..])
    ensures CanonicalAll([]) == ""
  {
  }

  lemma PairForm(a: Sexp, b: Sexp)
    ensures Canonical(List([a, b])) == "(" + Canonical(a) + Canonical(b) + ")"
  {
    ListForm([a, b]);
    ListForm([b]);
    assert [a, b][1..] == [b] && [b][1..] == [];
  }

  /** The example of the documentation: (5:spocp(8:Resource6:mailer)). */
  lemma DocumentedForm()
    ensures Canonical(List([Atom("spocp"), List([Atom("Resource"), Atom("mailer")])])) ==
            "(" + "5:spocp" + ("(" + "8:Resource" + "6:mailer" + ")") + ")"
  {
    assert Canonical(Atom("spocp")) == "5:spocp" by { AtomForm("spocp"); }
    assert Canonical(Atom("Resource")) == "8:Resource" by { AtomForm("Resource"); }
    assert Canonical(Atom("mailer")) == "6:mailer" by { AtomForm("mailer"); }
    hide Canonical;
    PairForm(Atom("Resource"), Atom("mailer"));
    PairForm(Atom("spocp"), List([Atom("Resource"), Atom("mailer")]));
  }

  /** The four keywords in their canonical texts. */
  lemma ConditionForm(name: string, c: Cond)
    ensures Canonical(Tree(RefTo(name))) == "(" + "3:ref" + Canonical(Atom(name)) + ")"
    ensures Canonical(Tree(NotOf(c))) == "(" + "3:not" + Canonical(Tree(c)) + ")"
    ensures Canonical(Tree(AndOf([c]))) == "(" + "3:and" + Canonical(Tree(c)) + ")"
    ensures Canonical(Tree(OrOf([c]))) == "(" + "2:or" + Canonical(Tree(c)) + ")"
  {
    KeywordForms();
    hide Canonical;
    PairForm(Atom("ref"), Atom(name));
    PairForm(Atom("not"), Tree(c));
    PairForm(Atom("and"), Tree(c));
    PairForm(Atom("or"), Tree(c));
    OnePart(c);
  }

  lemma KeywordForms()
    ensures Canonical(Atom("ref")) == "3:ref" && Canonical(Atom("not")) == "3:not"
    ensures Canonical(Atom("and")) == "3:and" && Canonical(Atom("or")) == "2:or"
  {
    AtomForm("ref");
    AtomForm("not");
    AtomForm("and");
    AtomForm("or");
  }

  lemma OnePart(c: Cond)
    ensures Tree(AndOf([c])) == List([Atom("and"), Tree(c)]) && Tree(OrOf([c])) == List([Atom("or"), Tree(c)])
  {
    assert [c][1..] == [];
    assert Trees([c]) == [Tree(c)];
    assert [Atom("and")] + [Tree(c)] == [Atom("and"), Tree(c)] && [Atom("or")] + [Tree(c)] == [Atom("or"), Tree(c)];
  }
}
