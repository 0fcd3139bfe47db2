/** Evaluation of boundary conditions and the Boolean meaning of their documented grammar (lib/bcond.c). */
module BcondEval {
  import opened Basics
  import opened Octets
  import opened Sexp
  import opened Bcond
  import opened BcondMeaning

  /** What the plugins answer, by plugin and argument. */
  type Answers = (string, string) -> Verdict

  // ----- evaluation -----

  /** Every reference points below `n`. */
  ghost predicate Below(e: Exp, n: nat) {
    forall l :: l in Refs(e) ==> l.target < n
  }

  ghost predicate AllBelow(es: seq<Exp>, n: nat) {
    forall l :: l in RefsAll(es) ==> l.target < n
  }

  /** Every definition refers to earlier ones only. */
  ghost predicate Founded(defs: seq<Def>) {
    forall i :: 0 <= i < |defs| ==> Below(defs[i].exp, i)
  }

  /** The verdict of `bcexp_eval`. */
  ghost function Eval(defs: seq<Def>, ask: Answers, e: Exp, n: nat): Verdict
    requires Founded(defs) && n <= |defs| && Below(e, n)
    decreases n, e, 1
  {
    match e
    case Spec(p, a) => ask(p, a)
    case Not(x) =>
      (match Eval(defs, ask, x, n)
       case Success => Denied
       case Denied => Success
       case Other(code) => Other(code))
    case And(es) => EvalAnd(defs, ask, es, n)
    case Or(es) => EvalOr(defs, ask, es, n)
    case Ref(l) =>
      assert l in Refs(e);
      Eval(defs, ask, defs[l.target].exp, l.target)
  }

  /** Until something is not a success. */
  ghost function EvalAnd(defs: seq<Def>, ask: Answers, es: seq<Exp>, n: nat): Verdict
    requires Founded(defs) && n <= |defs| && AllBelow(es, n)
    decreases n, es, 0
  {
    if es == [] then Success
    else
      var r := Eval(defs, ask, es[0], n);
      if r == Success then EvalAnd(defs, ask, es[1..], n) else r
  }

  /** Until something is a success; otherwise the verdict of the last part. */
  ghost function EvalOr(defs: seq<Def>, ask: Answers, es: seq<Exp>, n: nat): Verdict
    requires Founded(defs) && n <= |defs| && AllBelow(es, n)
    decreases n, es, 0
  {
    if es == [] then Denied
    else
      var r := Eval(defs, ask, es[0], n);
      if r == Success || |es| == 1 then r else EvalOr(defs, ask, es[1..], n)
  }

  lemma {:induction false} PartBelow(es: seq<Exp>, n: nat, k: nat)
    requires AllBelow(es, n) && k < |es|
    ensures Below(es[k], n) && AllBelow(es[k + 1..], n)
    decreases k
  {
    if k > 0 {
      PartBelow(es[1..], n, k - 1);
      assert es[1..][k..] == es[k + 1..];
    }
  }

  /** Every table that requests to `bcdef_add` can build is founded, so evaluation of what is in it terminates. */
  lemma SaneIsFounded(t: Table)
    requires Sane(t)
    ensures Founded(t.defs)
    ensures forall i :: 0 <= i < |t.loose| ==> Below(t.loose[i], |t.defs|)
  {
    forall i | 0 <= i < |t.defs| ensures Below(t.defs[i].exp, i) {
      assert ExpOk(t, t.defs[i].exp, i);
      assert forall l :: LinkOk(t, l, i) ==> l.target < i;
    }
    forall i | 0 <= i < |t.loose| ensures Below(t.loose[i], |t.defs|) {
      assert ExpOk(t, t.loose[i], |t.defs|);
      assert forall l :: LinkOk(t, l, |t.defs|) ==> l.target < |t.defs|;
    }
  }

  /** `bcexp_eval`, verdict only: the table position and then the expression get smaller. */
  method Evaluate(defs: seq<Def>, ask: Answers, e: Exp, ghost n: nat) returns (r: Verdict)
    requires Founded(defs) && n <= |defs| && Below(e, n)
    ensures r == Eval(defs, ask, e, n)
    decreases n, e
  {
    match e
    case Spec(p, a) => r := ask(p, a);
    case Not(x) =>
      r := Evaluate(defs, ask, x, n);
      if r == Success {
        r := Denied;
      } else if r == Denied {
        r := Success;
      }
    case And(es) =>
      r := Success;
      var i := 0;
      assert es[0..] == es;
      while r == Success && i < |es|
        invariant i <= |es| && AllBelow(es[i..], n)
        invariant EvalAnd(defs, ask, es, n) == if r == Success then EvalAnd(defs, ask, es[i..], n) else r
      {
        PartBelow(es[i..], n, 0);
        assert es[i..][1..] == es[i + 1..] && es[i..][0] == es[i];
        r := Evaluate(defs, ask, es[i], n);
        i := i + 1;
      }
    case Or(es) =>
      r := Denied;
      var i := 0;
      assert es[0..] == es;
      while r != Success && i < |es|
        invariant i <= |es| && AllBelow(es[i..], n) && (i == 0 ==> r == Denied)
        invariant EvalOr(defs, ask, es, n) ==
                  if r == Success || (i == |es| && i > 0) then r else EvalOr(defs, ask, es[i..], n)
      {
        PartBelow(es[i..], n, 0);
        assert es[i..][1..] == es[i + 1..] && es[i..][0] == es[i];
        r := Evaluate(defs, ask, es[i], n);
        i := i + 1;
      }
    case Ref(l) =>
      assert l in Refs(e);
      r := Evaluate(defs, ask, defs[l.target].exp, l.target);
  }

  // ----- the documented grammar -----

  /** At least one part, at least one character. */
  predicate WellFormed(c: Cond)
    decreases c, 1
  {
    match c
    case AndOf(cs) => cs != [] && AllWellFormed(cs)
    case OrOf(cs) => cs != [] && AllWellFormed(cs)
    case NotOf(x) => WellFormed(x)
    case RefTo(name) => name != ""
  }

  predicate AllWellFormed(cs: seq<Cond>)
    decreases cs, 0
  {
    cs == [] || (WellFormed(cs[0]) && AllWellFormed(cs[1..]))
  }

  /** The S-expression of a condition. */
  function Tree(c: Cond): Sexp
    decreases c, 1
  {
    match c
    case AndOf(cs) => List([Atom("and")] + Trees(cs))
    case OrOf(cs) => List([Atom("or")] + Trees(cs))
    case NotOf(x) => List([Atom("not"), Tree(x)])
    case RefTo(name) => List([Atom("ref"), Atom(name)])
  }

  function Trees(cs: seq<Cond>): (ts: seq<Sexp>)
    ensures |ts| == |cs|
    decreases cs, 0
  {
    if cs == [] then [] else [Tree(cs[0])] + Trees(cs[1..])
  }

  /** Every name a condition refers to is defined. */
  predicate Known(defs: seq<Def>, c: Cond)
    decreases c, 1
  {
    match c
    case AndOf(cs) => AllKnown(defs, cs)
    case OrOf(cs) => AllKnown(defs, cs)
    case NotOf(x) => Known(defs, x)
    case RefTo(name) => Find(defs, name).Some?
  }

  predicate AllKnown(defs: seq<Def>, cs: seq<Cond>)
    decreases cs, 0
  {
    cs == [] || (Known(defs, cs[0]) && AllKnown(defs, cs[1..]))
  }

  // ----- the text of a condition is read as its tree -----

  lemma {:induction false} TreeShape(c: Cond)
    requires WellFormed(c)
    ensures Solid(Tree(c)) && Headed(Tree(c)) && Tree(c).List?
    decreases c, 1
  {
    match c
    case AndOf(cs) =>
      TreesShape(cs);
      assert Tree(c).parts[1..] == Trees(cs);
    case OrOf(cs) =>
      TreesShape(cs);
      assert Tree(c).parts[1..] == Trees(cs);
    case NotOf(x) =>
      TreeShape(x);
      TwoParts(Atom("not"), Tree(x));
    case RefTo(name) =>
      TwoParts(Atom("ref"), Atom(name));
  }

  lemma TwoParts(a: Sexp, b: Sexp)
    ensures SolidAll([a, b]) <==> Solid(a) && Solid(b)
    ensures HeadedAll([a, b]) <==> Headed(a) && Headed(b)
  {
    assert [a, b][1..] == [b] && [b][1..] == [];
    assert SolidAll([b]) <==> Solid(b);
    assert HeadedAll([b]) <==> Headed(b);
  }

  lemma {:induction false} TreesShape(cs: seq<Cond>)
    requires AllWellFormed(cs)
    ensures SolidAll(Trees(cs)) && HeadedAll(Trees(cs))
    decreases cs, 0
  {
    if cs != [] {
      TreeShape(cs[0]);
      TreesShape(cs[1..]);
      assert Trees(cs)[1..] == Trees(cs[1..]);
    }
  }

  lemma TextReads(c: Cond)
    requires WellFormed(c)
    ensures Read(Canonical(Tree(c))) == Some((Tree(c), ""))
  {
    var s := Canonical(Tree(c));
    TreeShape(c);
    FirstByte(Tree(c));
    ParsePrinted(Tree(c), "");
    assert s + "" == s;
    ParseCondIff(s);
  }

  // ----- translation -----

  /** An expression is the translation of a condition. */
  ghost predicate Denotes(defs: seq<Def>, e: Exp, c: Cond)
    decreases c, 1
  {
    match c
    case AndOf(cs) => e.And? && DenoteAll(defs, e.arr, cs)
    case OrOf(cs) => e.Or? && DenoteAll(defs, e.arr, cs)
    case NotOf(x) => e.Not? && Denotes(defs, e.single, x)
    case RefTo(name) => e.Ref? && Find(defs, name) == Some(e.link.target)
  }

  ghost predicate DenoteAll(defs: seq<Def>, es: seq<Exp>, cs: seq<Cond>)
    decreases cs, 0
  {
    |es| == |cs| && (cs == [] || (Denotes(defs, es[0], cs[0]) && DenoteAll(defs, es[1..], cs[1..])))
  }

  lemma {:induction false} DenotesSame(defs: seq<Def>, defs': seq<Def>, e: Exp, c: Cond)
    requires Denotes(defs, e, c)
    requires forall name :: Find(defs, name).Some? ==> Find(defs', name) == Find(defs, name)
    ensures Denotes(defs', e, c)
    decreases c, 1
  {
    match c
    case AndOf(cs) => DenoteAllSame(defs, defs', e.arr, cs);
    case OrOf(cs) => DenoteAllSame(defs, defs', e.arr, cs);
    case NotOf(x) => DenotesSame(defs, defs', e.single, x);
    case RefTo(name) =>
  }

  lemma {:induction false} DenoteAllSame(defs: seq<Def>, defs': seq<Def>, es: seq<Exp>, cs: seq<Cond>)
    requires DenoteAll(defs, es, cs)
    requires forall name :: Find(defs, name).Some? ==> Find(defs', name) == Find(defs, name)
    ensures DenoteAll(defs', es, cs)
    decreases cs, 0
  {
    if cs != [] {
      DenotesSame(defs, defs', es[0], cs[0]);
      DenoteAllSame(defs, defs', es[1..], cs[1..]);
    }
  }

  lemma {:induction false} KnownSame(defs: seq<Def>, defs': seq<Def>, c: Cond)
    requires forall name :: Find(defs', name) == Find(defs, name)
    ensures Known(defs', c) == Known(defs, c)
    decreases c, 1
  {
    match c
    case AndOf(cs) => AllKnownSame(defs, defs', cs);
    case OrOf(cs) => AllKnownSame(defs, defs', cs);
    case NotOf(x) => KnownSame(defs, defs', x);
    case RefTo(name) =>
  }

  lemma {:induction false} AllKnownSame(defs: seq<Def>, defs': seq<Def>, cs: seq<Cond>)
    requires forall name :: Find(defs', name) == Find(defs, name)
    ensures AllKnown(defs', cs) == AllKnown(defs, cs)
    decreases cs, 0
  {
    if cs != [] {
      KnownSame(defs, defs', cs[0]);
      AllKnownSame(defs, defs', cs[1..]);
    }
  }

  lemma ExtendsFinds(t: Table, t': Table)
    requires Extends(t, t')
    ensures forall name :: Find(t'.defs, name) == Find(t.defs, name)
  {
    forall name ensures Find(t'.defs, name) == Find(t.defs, name) {
      assert forall i :: 0 <= i < |t.defs| ==> Grows(t.defs[i], t'.defs[i]);
      FindSame(t.defs, t'.defs, name);
    }
  }

  /** A documented condition is translated if and only if every name in it is defined, and then faithfully. */
  lemma {:induction false} TranslatesCond(t: Table, plugins: set<string>, c: Cond, more: seq<Sexp>)
    requires WellFormed(c)
    ensures var (t', r) := Translated(t, plugins, [Tree(c)] + more);
      && Extends(t, t') && !r.Crashed?
      && (r.Done? <==> Known(t.defs, c))
      && (r.Done? ==> Denotes(t'.defs, r.value, c))
    decreases c, 1
  {
    var chain := [Tree(c)] + more;
    TranslatedOk(t, plugins, chain);
    var (t', r) := Translated(t, plugins, chain);
    ExtendsFinds(t, t');
    var parts := Tree(c).parts;
    assert (t', r) == Translated(t, plugins, parts);
    match c
    case AndOf(cs) =>
      assert parts[1..] == Trees(cs);
      TranslatesAll(t, plugins, cs);
    case OrOf(cs) =>
      assert parts[1..] == Trees(cs);
      TranslatesAll(t, plugins, cs);
    case NotOf(x) =>
      assert parts[1..] == [Tree(x)] + [];
      TranslatesCond(t, plugins, x, []);
    case RefTo(name) =>
  }

  lemma {:induction false} TranslatesAll(t: Table, plugins: set<string>, cs: seq<Cond>)
    requires AllWellFormed(cs)
    ensures var (t', r) := TranslatedAll(t, plugins, Trees(cs));
      && Extends(t, t') && !r.Crashed?
      && (r.Done? <==> AllKnown(t.defs, cs))
      && (r.Done? ==> DenoteAll(t'.defs, r.value, cs))
    decreases cs, 0
  {
    TranslatedAllOk(t, plugins, Trees(cs));
    if cs != [] {
      var chain := Trees(cs);
      assert chain == [Tree(cs[0])] + Trees(cs[1..]) && chain[1..] == Trees(cs[1..]);
      TranslatesCond(t, plugins, cs[0], Trees(cs[1..]));
      var (t1, r1) := Translated(t, plugins, chain);
      if r1.Done? {
        TranslatesAll(t1, plugins, cs[1..]);
        var (t2, r2) := TranslatedAll(t1, plugins, chain[1..]);
        ExtendsFinds(t, t1);
        ExtendsFinds(t1, t2);
        AllKnownSame(t.defs, t1.defs, cs[1..]);
        if r2.Done? {
          DenotesSame(t1.defs, t2.defs, r1.value, cs[0]);
          assert ([r1.value] + r2.value)[1..] == r2.value;
        }
      }
    }
  }

  // ----- evaluation gives the meaning -----

  /** What the definitions of a table say. */
  ghost function TableSays(defs: seq<Def>, ask: Answers): Names
    requires Founded(defs)
  {
    (name, v) => var f := Find(defs, name); f.Some? && Eval(defs, ask, defs[f.value].exp, f.value) == v
  }

  /** The verdict on one part of a list. */
  ghost function PartEval(defs: seq<Def>, ask: Answers, es: seq<Exp>, n: nat, i: nat): Verdict
    requires Founded(defs) && n <= |defs| && AllBelow(es, n) && i < |es|
  {
    PartBelow(es, n, i);
    Eval(defs, ask, es[i], n)
  }

  lemma PartEvalRest(defs: seq<Def>, ask: Answers, es: seq<Exp>, n: nat)
    requires Founded(defs) && n <= |defs| && AllBelow(es, n) && es != []
    ensures AllBelow(es[1..], n) && PartEval(defs, ask, es, n, 0) == Eval(defs, ask, es[0], n)
    ensures forall i: nat :: i < |es| - 1 ==> PartEval(defs, ask, es[1..], n, i) == PartEval(defs, ask, es, n, i + 1)
  {
    PartBelow(es, n, 0);
  }

  /** A conjunction stops at the first part that is not a success. */
  lemma {:induction false} AndStops(defs: seq<Def>, ask: Answers, es: seq<Exp>, n: nat, v: Verdict)
    requires Founded(defs) && n <= |defs| && AllBelow(es, n)
    ensures EvalAnd(defs, ask, es, n) == v <==>
      if v.Success? then forall i: nat :: i < |es| ==> PartEval(defs, ask, es, n, i) == Success
      else exists i: nat ::
        && i < |es| && PartEval(defs, ask, es, n, i) == v
        && forall j: nat :: j < i ==> PartEval(defs, ask, es, n, j) == Success
    decreases |es|
  {
    if es != [] {
      PartEvalRest(defs, ask, es, n);
      AndStops(defs, ask, es[1..], n, v);
      hide Eval, PartEval;
      assert forall i: nat :: 0 < i < |es| ==>
          PartEval(defs, ask, es, n, i) == PartEval(defs, ask, es[1..], n, i - 1);
    }
  }

  /** A disjunction stops at the first success, and ends with its last part otherwise. */
  lemma {:induction false} OrStops(defs: seq<Def>, ask: Answers, es: seq<Exp>, n: nat, v: Verdict)
    requires Founded(defs) && n <= |defs| && AllBelow(es, n)
    ensures EvalOr(defs, ask, es, n) == v <==>
      if v.Success? then exists i: nat :: i < |es| && PartEval(defs, ask, es, n, i) == Success
      else
        && (forall i: nat :: i < |es| ==> PartEval(defs, ask, es, n, i) != Success)
        && if es == [] then v.Denied? else PartEval(defs, ask, es, n, |es| - 1) == v
    decreases |es|
  {
    if es != [] {
      PartEvalRest(defs, ask, es, n);
      OrStops(defs, ask, es[1..], n, v);
      hide Eval, PartEval;
      assert forall i: nat :: 0 < i < |es| ==>
          PartEval(defs, ask, es, n, i) == PartEval(defs, ask, es[1..], n, i - 1);
    }
  }

  lemma {:induction false} DenoteAt(defs: seq<Def>, es: seq<Exp>, cs: seq<Cond>, k: nat)
    requires DenoteAll(defs, es, cs) && k < |cs|
    ensures |es| == |cs| && Denotes(defs, es[k], cs[k])
    decreases k
  {
    if k > 0 { DenoteAt(defs, es[1..], cs[1..], k - 1); }
  }

  /** For any plugins: the verdict on a translation is what the condition says. */
  lemma {:induction false} EvalSays(defs: seq<Def>, ask: Answers, e: Exp, c: Cond, n: nat, v: Verdict)
    requires Founded(defs) && n <= |defs| && Below(e, n) && Denotes(defs, e, c)
    ensures Eval(defs, ask, e, n) == v <==> Says(TableSays(defs, ask), c, v)
    decreases c, 1
  {
    match c
    case AndOf(cs) =>
      PartsSay(defs, ask, e.arr, cs, n);
      AndSays(defs, ask, e.arr, cs, n, v);
    case OrOf(cs) =>
      PartsSay(defs, ask, e.arr, cs, n);
      OrSays(defs, ask, e.arr, cs, n, v);
    case NotOf(x) =>
      forall u ensures Eval(defs, ask, e.single, n) == u <==> Says(TableSays(defs, ask), x, u) {
        EvalSays(defs, ask, e.single, x, n, u);
      }
    case RefTo(name) =>
      assert e.link in Refs(e);
  }

  /** Each part evaluates to what it says. */
  ghost predicate Agree(defs: seq<Def>, ask: Answers, es: seq<Exp>, cs: seq<Cond>, n: nat)
    requires Founded(defs) && n <= |defs| && AllBelow(es, n)
  {
    |es| == |cs| && forall i: nat :: i < |cs| ==> Only(TableSays(defs, ask), cs[i], PartEval(defs, ask, es, n, i))
  }

  /** The condition says `v` and nothing else. */
  ghost predicate Only(names: Names, c: Cond, v: Verdict) {
    forall u :: Says(names, c, u) <==> u == v
  }

  lemma AndSays(defs: seq<Def>, ask: Answers, es: seq<Exp>, cs: seq<Cond>, n: nat, v: Verdict)
    requires Founded(defs) && n <= |defs| && AllBelow(es, n) && Agree(defs, ask, es, cs, n)
    ensures EvalAnd(defs, ask, es, n) == v <==> Says(TableSays(defs, ask), AndOf(cs), v)
  {
    AndStops(defs, ask, es, n, v);
    hide PartEval, TableSays, EvalAnd;
    assert forall i: nat :: i < |cs| ==> Only(TableSays(defs, ask), cs[i], PartEval(defs, ask, es, n, i));
    assert forall i :: 0 <= i < |cs| ==>
        (Says(TableSays(defs, ask), cs[i], v) <==> PartEval(defs, ask, es, n, i) == v)
        && (Says(TableSays(defs, ask), cs[i], Success) <==> PartEval(defs, ask, es, n, i) == Success);
  }

  lemma OrSays(defs: seq<Def>, ask: Answers, es: seq<Exp>, cs: seq<Cond>, n: nat, v: Verdict)
    requires Founded(defs) && n <= |defs| && AllBelow(es, n) && Agree(defs, ask, es, cs, n)
    ensures EvalOr(defs, ask, es, n) == v <==> Says(TableSays(defs, ask), OrOf(cs), v)
  {
    OrStops(defs, ask, es, n, v);
    hide PartEval, TableSays, EvalOr;
    assert forall i :: 0 <= i < |cs| ==>
        (Says(TableSays(defs, ask), cs[i], v) <==> PartEval(defs, ask, es, n, i) == v)
        && (Says(TableSays(defs, ask), cs[i], Success) <==> PartEval(defs, ask, es, n, i) == Success);
  }

  lemma {:induction false} PartsSay(defs: seq<Def>, ask: Answers, es: seq<Exp>, cs: seq<Cond>, n: nat)
    requires Founded(defs) && n <= |defs| && AllBelow(es, n) && DenoteAll(defs, es, cs)
    ensures Agree(defs, ask, es, cs, n)
    decreases cs, 0
  {
    forall i: nat | i < |cs| ensures Only(TableSays(defs, ask), cs[i], PartEval(defs, ask, es, n, i)) {
      PartBelow(es, n, i);
      DenoteAt(defs, es, cs, i);
      forall u ensures Says(TableSays(defs, ask), cs[i], u) <==> u == PartEval(defs, ask, es, n, i) {
        EvalSays(defs, ask, es[i], cs[i], n, u);
      }
    }
  }

  /** A code that is neither success nor denial is one that some plugin answered. */
  lemma {:induction false} CodeWasAnswered(defs: seq<Def>, ask: Answers, e: Exp, n: nat)
    requires Founded(defs) && n <= |defs| && Below(e, n) && Eval(defs, ask, e, n).Other?
    ensures exists p, a :: ask(p, a) == Eval(defs, ask, e, n)
    decreases n, e, 1
  {
    match e
    case Spec(p, a) =>
    case Not(x) => CodeWasAnswered(defs, ask, x, n);
    case And(es) => SomePartAnswered(defs, ask, es, n, Eval(defs, ask, e, n));
    case Or(es) => SomePartAnswered(defs, ask, es, n, Eval(defs, ask, e, n));
    case Ref(l) =>
      assert l in Refs(e);
      CodeWasAnswered(defs, ask, defs[l.target].exp, l.target);
  }

  lemma {:induction false} SomePartAnswered(defs: seq<Def>, ask: Answers, es: seq<Exp>, n: nat, v: Verdict)
    requires Founded(defs) && n <= |defs| && AllBelow(es, n) && v.Other?
    requires EvalAnd(defs, ask, es, n) == v || EvalOr(defs, ask, es, n) == v
    ensures exists p, a :: ask(p, a) == v
    decreases n, es, 0
  {
    if Eval(defs, ask, es[0], n) == v {
      CodeWasAnswered(defs, ask, es[0], n);
    } else {
      SomePartAnswered(defs, ask, es[1..], n, v);
    }
  }

  // ----- plugins that only grant or deny -----

  ghost predicate TwoValued(ask: Answers) {
    forall p, a :: ask(p, a) == Success || ask(p, a) == Denied
  }

  /** With such plugins every verdict is one of the two. */
  lemma EvalTwoValued(defs: seq<Def>, ask: Answers, e: Exp, n: nat)
    requires TwoValued(ask) && Founded(defs) && n <= |defs| && Below(e, n)
    ensures Eval(defs, ask, e, n) == Success || Eval(defs, ask, e, n) == Denied
  {
    if Eval(defs, ask, e, n).Other? { CodeWasAnswered(defs, ask, e, n); }
  }

  ghost function TableTruth(defs: seq<Def>, ask: Answers): string -> bool
    requires Founded(defs)
  {
    name => var f := Find(defs, name); f.Some? && Eval(defs, ask, defs[f.value].exp, f.value) == Success
  }

  /** A name in a condition is the name of what a reference in its translation points to. */
  lemma {:induction false} MentionedIsReferred(defs: seq<Def>, e: Exp, c: Cond, name: string)
    requires Denotes(defs, e, c) && Mentions(c, name)
    ensures exists l :: l in Refs(e) && Find(defs, name) == Some(l.target)
    decreases c
  {
    match c
    case AndOf(cs) =>
      var i :| 0 <= i < |cs| && Mentions(cs[i], name);
      DenoteAt(defs, e.arr, cs, i);
      MentionedIsReferred(defs, e.arr[i], cs[i], name);
      PartRefs(e.arr, i);
    case OrOf(cs) =>
      var i :| 0 <= i < |cs| && Mentions(cs[i], name);
      DenoteAt(defs, e.arr, cs, i);
      MentionedIsReferred(defs, e.arr[i], cs[i], name);
      PartRefs(e.arr, i);
    case NotOf(x) => MentionedIsReferred(defs, e.single, x, name);
    case RefTo(n) => assert e.link in Refs(e);
  }

  lemma {:induction false} PartRefs(es: seq<Exp>, k: nat)
    requires k < |es|
    ensures Refs(es[k]) <= RefsAll(es)
    decreases k
  {
    if k > 0 { PartRefs(es[1..], k - 1); }
  }

  /** The verdict is then the Boolean meaning, short-circuiting included. */
  lemma EvalIsMeaning(defs: seq<Def>, ask: Answers, e: Exp, c: Cond, n: nat)
    requires TwoValued(ask) && Founded(defs) && n <= |defs| && Below(e, n) && Denotes(defs, e, c)
    ensures Eval(defs, ask, e, n) == Verdict01(Meaning(TableTruth(defs, ask), c))
  {
    var v, says, truth := Eval(defs, ask, e, n), TableSays(defs, ask), TableTruth(defs, ask);
    EvalSays(defs, ask, e, c, n, v);
    forall name, u | Mentions(c, name) ensures says(name, u) <==> u == Verdict01(truth(name)) {
      MentionedIsReferred(defs, e, c, name);
      var k := Find(defs, name).value;
      EvalTwoValued(defs, ask, defs[k].exp, k);
    }
    SaysMeaning(says, truth, c, v);
  }

  // ----- one addition -----

  /** Evaluation looks at expressions only, and only below its bound. */
  lemma {:induction false} EvalSame(defs: seq<Def>, defs': seq<Def>, ask: Answers, e: Exp, n: nat)
    requires Founded(defs) && Founded(defs') && n <= |defs| && n <= |defs'| && Below(e, n)
    requires forall i :: 0 <= i < n ==> defs'[i].exp == defs[i].exp
    ensures Eval(defs', ask, e, n) == Eval(defs, ask, e, n)
    decreases n, e, 1
  {
    match e
    case Spec(p, a) =>
    case Not(x) => EvalSame(defs, defs', ask, x, n);
    case And(es) => EvalAllSame(defs, defs', ask, es, n);
    case Or(es) => EvalAllSame(defs, defs', ask, es, n);
    case Ref(l) =>
      assert l in Refs(e);
      EvalSame(defs, defs', ask, defs[l.target].exp, l.target);
  }

  lemma {:induction false} EvalAllSame(defs: seq<Def>, defs': seq<Def>, ask: Answers, es: seq<Exp>, n: nat)
    requires Founded(defs) && Founded(defs') && n <= |defs| && n <= |defs'| && AllBelow(es, n)
    requires forall i :: 0 <= i < n ==> defs'[i].exp == defs[i].exp
    ensures EvalAnd(defs', ask, es, n) == EvalAnd(defs, ask, es, n)
    ensures EvalOr(defs', ask, es, n) == EvalOr(defs, ask, es, n)
    decreases n, es, 0
  {
    if es != [] {
      EvalSame(defs, defs', ask, es[0], n);
      EvalAllSame(defs, defs', ask, es[1..], n);
    }
  }

  /** The names that a condition mentions say the same in every table that keeps the definitions. */
  lemma SaysStill(defs: seq<Def>, defs': seq<Def>, ask: Answers, c: Cond, v: Verdict)
    requires Founded(defs) && Founded(defs') && |defs| <= |defs'| && Known(defs, c)
    requires forall i :: 0 <= i < |defs| ==> defs'[i].exp == defs[i].exp
    requires forall name :: Find(defs, name).Some? ==> Find(defs', name) == Find(defs, name)
    ensures Says(TableSays(defs', ask), c, v) == Says(TableSays(defs, ask), c, v)
  {
    forall name, u | Mentions(c, name)
      ensures TableSays(defs', ask)(name, u) == TableSays(defs, ask)(name, u)
    {
      KnownMentioned(defs, c, name);
      var k := Find(defs, name).value;
      EvalSame(defs, defs', ask, defs[k].exp, k);
    }
    SaysSame(TableSays(defs', ask), TableSays(defs, ask), c, v);
  }

  lemma {:induction false} KnownMentioned(defs: seq<Def>, c: Cond, name: string)
    requires Known(defs, c) && Mentions(c, name)
    ensures Find(defs, name).Some?
    decreases c
  {
    match c
    case AndOf(cs) =>
      var i :| 0 <= i < |cs| && Mentions(cs[i], name);
      KnownAt(defs, cs, i);
      KnownMentioned(defs, cs[i], name);
    case OrOf(cs) =>
      var i :| 0 <= i < |cs| && Mentions(cs[i], name);
      KnownAt(defs, cs, i);
      KnownMentioned(defs, cs[i], name);
    case NotOf(x) => KnownMentioned(defs, x, name);
    case RefTo(n) =>
  }

  lemma {:induction false} KnownAt(defs: seq<Def>, cs: seq<Cond>, k: nat)
    requires AllKnown(defs, cs) && k < |cs|
    ensures Known(defs, cs[k])
    decreases k
  {
    if k > 0 { KnownAt(defs, cs[1..], k - 1); }
  }

  /** What a translated condition's text adds to a table. */
  lemma AddsCond(t: Table, plugins: set<string>, digest: string -> string, name: string, c: Cond)
    requires Sane(t) && WellFormed(c)
    ensures var (t', r) := AddDef(t, plugins, digest, name, Canonical(Tree(c)));
      && Sane(t') && Founded(t'.defs) && |t.defs| <= |t'.defs|
      && (Known(t.defs, c) <==> r != Failed) && r != Fatal
      && |t'.defs| == (if r.Listed? then |t.defs| + 1 else |t.defs|)
      && (r.Listed? ==>
            && r.position == |t.defs| && Denotes(t'.defs, t'.defs[r.position].exp, c) && !c.RefTo?
            && t'.defs[r.position].name == CString(if name == "" then digest("") else name))
      && (r.Handed? ==> Below(r.exp, |t'.defs|) && Denotes(t'.defs, r.exp, c) && c.RefTo?)
      && (forall i :: 0 <= i < |t.defs| ==> t'.defs[i].exp == t.defs[i].exp && t'.defs[i].name == t.defs[i].name)
      && (forall n :: Find(t.defs, n).Some? ==> Find(t'.defs, n) == Find(t.defs, n))
  {
    var data := Canonical(Tree(c));
    TextReads(c);
    AddKeepsSane(t, plugins, digest, name, data);
    TranslatesCond(t, plugins, c, []);
    assert [Tree(c)] + [] == [Tree(c)];
    TranslatedOk(t, plugins, [Tree(c)]);
    var (t', r) := AddDef(t, plugins, digest, name, data);
    var (t1, e) := Translated(t, plugins, [Tree(c)]);
    SaneIsFounded(t');
    ExtendsFinds(t, t1);
    assert forall i :: 0 <= i < |t.defs| ==> Grows(t.defs[i], t1.defs[i]);
    if r.Listed? {
      var more := t'.defs[|t1.defs|..];
      assert t'.defs == t1.defs + more;
      forall n | Find(t.defs, n).Some? ensures Find(t'.defs, n) == Find(t.defs, n) {
        FindMore(t1.defs, more, n);
      }
      DenotesSame(t1.defs, t'.defs, e.value, c);
    } else if r.Handed? {
      assert LinkOk(t1, r.exp.link, |t.defs|);
    }
  }

  /** What was added: the expression of the new entry or the reference handed out. */
  ghost function AddedEval(t: Table, ask: Answers, r: Added): Verdict
    requires Founded(t.defs)
    requires (r.Listed? && r.position < |t.defs|) || (r.Handed? && Below(r.exp, |t.defs|))
  {
    if r.Listed? then Eval(t.defs, ask, t.defs[r.position].exp, r.position) else Eval(t.defs, ask, r.exp, |t.defs|)
  }

  /**
   * From text to verdict: adding the text of any documented condition to any sane table succeeds if and only if
   * the names in it are defined, and what was added evaluates to what the text says, whatever the plugins answer.
   */
  lemma TextMeansVerdict(
    t: Table, plugins: set<string>, digest: string -> string, name: string, c: Cond, ask: Answers, v: Verdict)
    requires Sane(t) && Founded(t.defs) && WellFormed(c)
    ensures var (t', r) := AddDef(t, plugins, digest, name, Canonical(Tree(c)));
      && Sane(t') && Founded(t'.defs)
      && (Known(t.defs, c) <==> r.Listed? || r.Handed?) && (!Known(t.defs, c) <==> r == Failed)
      && (r.Listed? ==> r.position < |t'.defs|) && (r.Handed? ==> Below(r.exp, |t'.defs|))
      && (r.Listed? || r.Handed? ==> (AddedEval(t', ask, r) == v <==> Says(TableSays(t.defs, ask), c, v)))
  {
    AddsCond(t, plugins, digest, name, c);
    var (t', r) := AddDef(t, plugins, digest, name, Canonical(Tree(c)));
    if Known(t.defs, c) {
      SaysStill(t.defs, t'.defs, ask, c, v);
      if r.Listed? {
        EvalSays(t'.defs, ask, t'.defs[r.position].exp, c, r.position, v);
      } else {
        EvalSays(t'.defs, ask, r.exp, c, |t'.defs|, v);
      }
    }
  }

  /** With plugins that only grant or deny this is the Boolean meaning of the text. */
  lemma TextMeansTruth(
    t: Table, plugins: set<string>, digest: string -> string, name: string, c: Cond, ask: Answers)
    requires Sane(t) && Founded(t.defs) && WellFormed(c) && TwoValued(ask) && Known(t.defs, c)
    ensures var (t', r) := AddDef(t, plugins, digest, name, Canonical(Tree(c)));
      && Founded(t'.defs)
      && ((r.Listed? && r.position < |t'.defs|) || (r.Handed? && Below(r.exp, |t'.defs|)))
      && AddedEval(t', ask, r) == Verdict01(Meaning(TableTruth(t.defs, ask), c))
  {
    var says, truth := TableSays(t.defs, ask), TableTruth(t.defs, ask);
    var v := Verdict01(Meaning(truth, c));
    TextMeansVerdict(t, plugins, digest, name, c, ask, v);
    forall n, u | Mentions(c, n) ensures says(n, u) <==> u == Verdict01(truth(n)) {
      KnownMentioned(t.defs, c, n);
      var k := Find(t.defs, n).value;
      EvalTwoValued(t.defs, ask, t.defs[k].exp, k);
    }
    SaysMeaning(says, truth, c, v);
  }
}
