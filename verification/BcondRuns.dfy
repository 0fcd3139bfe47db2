/** Whole runs of documented boundary condition definitions, from their texts to their truth values. */
module BcondRuns {
  import opened Basics
  import opened Octets
  import opened Sexp
  import opened Bcond
  import opened BcondEval
  import opened BcondMeaning

  /** bcond: a plugin specification or a condition over names. */
  datatype Source = SpecSource(plugin: string, arg: string) | CondSource(cond: Cond)

  predicate Documented(s: Source) {
    match s
    case SpecSource(p, _) => p != "" && ':' !in p && p[0] != '('
    case CondSource(c) => WellFormed(c)
  }

  function SourceText(s: Source): string {
    match s
    case SpecSource(p, a) => p + ":" + a
    case CondSource(c) => Canonical(Tree(c))
  }

  // ----- the meaning of a list of named sources -----

  datatype Entry = Entry(name: string, source: Source)

  /** The first entry of that name. */
  function Lookup(log: seq<Entry>, name: string): (r: Option<nat>)
    ensures r.Some? ==> r.value < |log|
  {
    Find(seq(|log|, i requires 0 <= i < |log| => Def(log[i].name, Spec("", ""), [], [])), name)
  }

  /** An entry says what its own text says, the names in it meaning entries before it. */
  ghost predicate EntrySays(log: seq<Entry>, ask: Answers, i: nat, v: Verdict)
    requires i < |log|
    decreases i, 1
  {
    match log[i].source
    case SpecSource(p, a) => ask(p, a) == v
    case CondSource(c) => Says(LogSays(log, ask, i), c, v)
  }

  /** What the entries before `i` say. */
  ghost function LogSays(log: seq<Entry>, ask: Answers, i: nat): Names
    requires i <= |log|
    decreases i, 0
  {
    (name, v) => var f := Lookup(log[..i], name); f.Some? && EntrySays(log, ask, f.value, v)
  }

  /** An entry is true or false by its own text, where the plugins only grant or deny. */
  ghost predicate Truth(log: seq<Entry>, ask: Answers, i: nat)
    requires i < |log|
    decreases i, 1
  {
    match log[i].source
    case SpecSource(p, a) => ask(p, a) == Success
    case CondSource(c) => Meaning(LogTruth(log, ask, i), c)
  }

  ghost function LogTruth(log: seq<Entry>, ask: Answers, i: nat): string -> bool
    requires i <= |log|
    decreases i, 0
  {
    name => var f := Lookup(log[..i], name); f.Some? && Truth(log, ask, f.value)
  }

  // ----- the table of a list of sources -----

  /** An expression is the translation of a source. */
  ghost predicate Renders(defs: seq<Def>, e: Exp, s: Source) {
    match s
    case SpecSource(p, a) => e == Spec(p, a)
    case CondSource(c) => Denotes(defs, e, c)
  }

  /** The table holds the translations of the entries, under their names and in their order. */
  ghost predicate Mirrors(t: Table, log: seq<Entry>) {
    && Sane(t) && |t.defs| == |log|
    && forall i :: 0 <= i < |log| ==> t.defs[i].name == log[i].name && Renders(t.defs, t.defs[i].exp, log[i].source)
  }

  lemma LookupFinds(t: Table, log: seq<Entry>, i: nat, name: string, k: nat)
    requires Mirrors(t, log) && k < i <= |log| && Find(t.defs, name) == Some(k)
    ensures Lookup(log[..i], name) == Some(k)
  {
    var sub := log[..i];
    var names := seq(|sub|, j requires 0 <= j < |sub| => Def(sub[j].name, Spec("", ""), [], []));
    assert forall j :: 0 <= j < i ==> names[j].name == t.defs[j].name;
    assert forall j :: 0 <= j < k ==> !Matches(t.defs[j], name);
    FindUnique(names, name, k);
  }

  /** A name in the text of entry `i` is looked up among the entries before it. */
  lemma MentionedBefore(t: Table, log: seq<Entry>, i: nat, c: Cond, name: string) returns (k: nat)
    requires Mirrors(t, log) && Founded(t.defs) && i < |log| && log[i].source == CondSource(c) && Mentions(c, name)
    ensures k < i && Find(t.defs, name) == Some(k) && Lookup(log[..i], name) == Some(k)
  {
    assert Renders(t.defs, t.defs[i].exp, log[i].source);
    MentionedIsReferred(t.defs, t.defs[i].exp, c, name);
    var l :| l in Refs(t.defs[i].exp) && Find(t.defs, name) == Some(l.target);
    assert Below(t.defs[i].exp, i);
    k := l.target;
    LookupFinds(t, log, i, name, k);
  }

  /** Every definition in the table evaluates to what its own text says. */
  lemma {:induction false} EvalIsSaid(t: Table, log: seq<Entry>, ask: Answers, i: nat, v: Verdict)
    requires Mirrors(t, log) && Founded(t.defs) && i < |log|
    ensures Eval(t.defs, ask, t.defs[i].exp, i) == v <==> EntrySays(log, ask, i, v)
    decreases i
  {
    assert Renders(t.defs, t.defs[i].exp, log[i].source);
    match log[i].source
    case SpecSource(p, a) =>
    case CondSource(c) =>
      EvalSays(t.defs, ask, t.defs[i].exp, c, i, v);
      forall name, u | Mentions(c, name) ensures TableSays(t.defs, ask)(name, u) == LogSays(log, ask, i)(name, u) {
        var k := MentionedBefore(t, log, i, c, name);
        EvalIsSaid(t, log, ask, k, u);
      }
      SaysSame(TableSays(t.defs, ask), LogSays(log, ask, i), c, v);
  }

  /** Where the plugins only grant or deny, that is its truth value. */
  lemma {:induction false} EvalIsTruth(t: Table, log: seq<Entry>, ask: Answers, i: nat)
    requires Mirrors(t, log) && Founded(t.defs) && TwoValued(ask) && i < |log|
    ensures Eval(t.defs, ask, t.defs[i].exp, i) == Verdict01(Truth(log, ask, i))
    decreases i
  {
    assert Renders(t.defs, t.defs[i].exp, log[i].source);
    match log[i].source
    case SpecSource(p, a) =>
    case CondSource(c) =>
      var v := Verdict01(Truth(log, ask, i));
      EvalSays(t.defs, ask, t.defs[i].exp, c, i, v);
      forall name, u | Mentions(c, name)
        ensures TableSays(t.defs, ask)(name, u) <==> u == Verdict01(LogTruth(log, ask, i)(name))
      {
        var k := MentionedBefore(t, log, i, c, name);
        EvalIsTruth(t, log, ask, k);
      }
      SaysMeaning(TableSays(t.defs, ask), LogTruth(log, ask, i), c, v);
  }

  // ----- runs -----

  /** A definition as a client writes it; an empty name asks for one made from the text. */
  datatype Wish = Wish(name: string, source: Source)

  function Stored(digest: string -> string, w: Wish): string {
    if w.name != "" then CString(w.name)
    else CString(digest(if w.source.SpecSource? then SourceText(w.source) else ""))
  }

  predicate DefinedIn(log: seq<Entry>, c: Cond)
    decreases c, 1
  {
    match c
    case AndOf(cs) => AllDefinedIn(log, cs)
    case OrOf(cs) => AllDefinedIn(log, cs)
    case NotOf(x) => DefinedIn(log, x)
    case RefTo(name) => Lookup(log, name).Some?
  }

  predicate AllDefinedIn(log: seq<Entry>, cs: seq<Cond>)
    decreases cs, 0
  {
    cs == [] || (DefinedIn(log, cs[0]) && AllDefinedIn(log, cs[1..]))
  }

  /** The entries after one more wish: refused ones and plain references leave no entry. */
  function Logged(log: seq<Entry>, plugins: set<string>, digest: string -> string, w: Wish): seq<Entry> {
    var ok := match w.source
      case SpecSource(p, _) => p in plugins
      case CondSource(c) => DefinedIn(log, c) && !c.RefTo?;
    if ok then log + [Entry(Stored(digest, w), w.source)] else log
  }

  function LogAfter(log: seq<Entry>, plugins: set<string>, digest: string -> string, ws: seq<Wish>): seq<Entry>
    decreases |ws|
  {
    if ws == [] then log else LogAfter(Logged(log, plugins, digest, ws[0]), plugins, digest, ws[1..])
  }

  function Requests(ws: seq<Wish>): seq<Request> {
    if ws == [] then [] else [Request(ws[0].name, SourceText(ws[0].source))] + Requests(ws[1..])
  }

  lemma LookupSame(t: Table, log: seq<Entry>, name: string)
    requires Mirrors(t, log)
    ensures Lookup(log, name) == Find(t.defs, name)
  {
    FindSame(t.defs, seq(|log|, i requires 0 <= i < |log| => Def(log[i].name, Spec("", ""), [], [])), name);
  }

  lemma {:induction false} DefinedIsKnown(t: Table, log: seq<Entry>, c: Cond)
    requires Mirrors(t, log)
    ensures DefinedIn(log, c) == Known(t.defs, c)
    decreases c, 1
  {
    match c
    case AndOf(cs) => AllDefinedIsKnown(t, log, cs);
    case OrOf(cs) => AllDefinedIsKnown(t, log, cs);
    case NotOf(x) => DefinedIsKnown(t, log, x);
    case RefTo(name) => LookupSame(t, log, name);
  }

  lemma {:induction false} AllDefinedIsKnown(t: Table, log: seq<Entry>, cs: seq<Cond>)
    requires Mirrors(t, log)
    ensures AllDefinedIn(log, cs) == AllKnown(t.defs, cs)
    decreases cs, 0
  {
    if cs != [] {
      DefinedIsKnown(t, log, cs[0]);
      AllDefinedIsKnown(t, log, cs[1..]);
    }
  }

  lemma RendersStill(t: Table, t': Table, e: Exp, s: Source)
    requires Renders(t.defs, e, s)
    requires forall n :: Find(t.defs, n).Some? ==> Find(t'.defs, n) == Find(t.defs, n)
    ensures Renders(t'.defs, e, s)
  {
    if s.CondSource? { DenotesSame(t.defs, t'.defs, e, s.cond); }
  }

  lemma AddMirrorsCond(t: Table, log: seq<Entry>, plugins: set<string>, digest: string -> string, w: Wish)
    requires Mirrors(t, log) && Documented(w.source) && w.source.CondSource?
    ensures Mirrors(AddDef(t, plugins, digest, w.name, SourceText(w.source)).0, Logged(log, plugins, digest, w))
  {
    var c := w.source.cond;
    AddsCond(t, plugins, digest, w.name, c);
    DefinedIsKnown(t, log, c);
    var (t', r) := AddDef(t, plugins, digest, w.name, SourceText(w.source));
    var log' := Logged(log, plugins, digest, w);
    forall i | 0 <= i < |log'|
      ensures t'.defs[i].name == log'[i].name && Renders(t'.defs, t'.defs[i].exp, log'[i].source)
    {
      if i < |log| {
        RendersStill(t, t', t.defs[i].exp, log[i].source);
      }
    }
  }

  lemma {:induction false} ColonAfter(p: string, a: string)
    requires ':' !in p
    ensures Colon(p + ":" + a) == |p|
  {
    if p != [] {
      assert (p + ":" + a)[1..] == p[1..] + ":" + a;
      ColonAfter(p[1..], a);
    }
  }

  /** The text of a specification becomes a definition if and only if its plugin is known. */
  lemma AddsSpec(t: Table, plugins: set<string>, digest: string -> string, name: string, p: string, a: string)
    requires Documented(SpecSource(p, a))
    ensures var text := p + ":" + a;
      var stored := if name == "" then CString(digest(text)) else CString(name);
      AddDef(t, plugins, digest, name, text) ==
      if p in plugins then (t.(defs := t.defs + [Def(stored, Spec(p, a), [], [])]), Listed(|t.defs|)) else (t, Failed)
  {
    var text := p + ":" + a;
    ColonAfter(p, a);
    assert text[..|p|] == p && text[|p| + 1..] == a;
  }

  lemma AddMirrorsSpec(t: Table, log: seq<Entry>, plugins: set<string>, digest: string -> string, w: Wish)
    requires Mirrors(t, log) && Documented(w.source) && w.source.SpecSource?
    ensures Mirrors(AddDef(t, plugins, digest, w.name, SourceText(w.source)).0, Logged(log, plugins, digest, w))
  {
    var p, a := w.source.plugin, w.source.arg;
    AddsSpec(t, plugins, digest, w.name, p, a);
    AddKeepsSane(t, plugins, digest, w.name, SourceText(w.source));
    var (t', r) := AddDef(t, plugins, digest, w.name, SourceText(w.source));
    var log' := Logged(log, plugins, digest, w);
    if p in plugins {
      var more := t'.defs[|t.defs|..];
      assert t'.defs == t.defs + more;
      forall n | Find(t.defs, n).Some? ensures Find(t'.defs, n) == Find(t.defs, n) {
        FindMore(t.defs, more, n);
      }
      forall i | 0 <= i < |log'|
        ensures t'.defs[i].name == log'[i].name && Renders(t'.defs, t'.defs[i].exp, log'[i].source)
      {
        if i < |log| {
          RendersStill(t, t', t.defs[i].exp, log[i].source);
        }
      }
    }
  }

  lemma {:induction false} RunMirrors(
    t: Table, log: seq<Entry>, plugins: set<string>, digest: string -> string, ws: seq<Wish>)
    requires Mirrors(t, log) && forall i :: 0 <= i < |ws| ==> Documented(ws[i].source)
    ensures Mirrors(Run(t, plugins, digest, Requests(ws)), LogAfter(log, plugins, digest, ws))
    decreases |ws|
  {
    if ws != [] {
      var w := ws[0];
      if w.source.CondSource? {
        AddMirrorsCond(t, log, plugins, digest, w);
      } else {
        AddMirrorsSpec(t, log, plugins, digest, w);
      }
      var reqs := Requests(ws);
      assert reqs[0] == Request(w.name, SourceText(w.source)) && reqs[1..] == Requests(ws[1..]);
      RunMirrors(AddDef(t, plugins, digest, w.name, SourceText(w.source)).0, Logged(log, plugins, digest, w),
                 plugins, digest, ws[1..]);
    }
  }

  /**
   * After any run of documented definitions and for any plugins, each entry of the table evaluates to what its own
   * text says, the names in it resolved among the entries accepted before it; and to the truth of its text where
   * the plugins only grant or deny.
   */
  lemma RunEvaluates(
    plugins: set<string>, digest: string -> string, ws: seq<Wish>, ask: Answers, i: nat, v: Verdict)
    requires forall k :: 0 <= k < |ws| ==> Documented(ws[k].source)
    requires i < |LogAfter([], plugins, digest, ws)|
    ensures var t := Run(Table([], [], 0), plugins, digest, Requests(ws));
      var log := LogAfter([], plugins, digest, ws);
      && |t.defs| == |log| && Founded(t.defs)
      && (Eval(t.defs, ask, t.defs[i].exp, i) == v <==> EntrySays(log, ask, i, v))
      && (TwoValued(ask) ==> Eval(t.defs, ask, t.defs[i].exp, i) == Verdict01(Truth(log, ask, i)))
  {
    RunMirrors(Table([], [], 0), [], plugins, digest, ws);
    var t := Run(Table([], [], 0), plugins, digest, Requests(ws));
    var log := LogAfter([], plugins, digest, ws);
    SaneIsFounded(t);
    EvalIsSaid(t, log, ask, i, v);
    if TwoValued(ask) { EvalIsTruth(t, log, ask, i); }
  }
}
