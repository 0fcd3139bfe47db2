/** Boundary conditions of lib/bcond.c: from canonical text to expressions in a growing table of definitions. */
module Bcond {
  import opened Basics
  import opened Octets
  import opened Sexp

  // ----- parsing -----

  /** What may stand first in a list. */
  predicate Keyword(t: Sexp) {
    t == Atom("ref") || t == Atom("and") || t == Atom("or") || t == Atom("not")
  }

  /** Every list is empty or begins with a keyword. */
  predicate Headed(t: Sexp)
    decreases t, 1
  {
    t.Atom? || ((t.parts == [] || Keyword(t.parts[0])) && HeadedAll(t.parts))
  }

  predicate HeadedAll(parts: seq<Sexp>)
    decreases parts, 0
  {
    parts == [] || (Headed(parts[0]) && HeadedAll(parts[1..]))
  }

  /** What `parse_bcexp` reads from the front of `s`. */
  function ParseCond(s: string): (r: Parsed<Sexp>)
    ensures r.Ok? ==> |r.rest| < |s|
    decreases |s|, 0
  {
    if Peek(s) == '(' then
      match ParseCondParts(s[1..], true)
      case Ok(parts, rest) => if Peek(rest) == ')' then Ok(List(parts), rest[1..]) else Bad
      case Beyond => Beyond
      case Bad => Bad
    else
      match TakeStr(s)
      case Str(a, rest) => Ok(Atom(a), rest)
      case Overrun => Beyond
      case NoStr => Bad
  }

  /** The parts up to the closing parenthesis or the end; the first one must be a keyword. */
  function ParseCondParts(s: string, first: bool): (r: Parsed<seq<Sexp>>)
    ensures r.Ok? ==> |r.rest| <= |s|
    decreases |s|, 1
  {
    if s == [] || s[0] == ')' then Ok([], s)
    else
      match ParseCond(s)
      case Ok(t, rest) =>
        if first && !Keyword(t) then Bad else Join([t], ParseCondParts(rest, false))
      case Beyond => Beyond
      case Bad => Bad
  }

  /** `parse_bcexp` accepts exactly those texts of `parse_sexp` whose lists begin with keywords, as the same tree. */
  lemma {:induction false} ParseCondIff(s: string)
    ensures ParseCond(s).Ok? <==> Parse(s).Ok? && Headed(Parse(s).value)
    ensures ParseCond(s).Ok? ==> ParseCond(s) == Parse(s)
    decreases |s|, 0
  {
    if Peek(s) == '(' {
      ParsePartsIff(s[1..], true);
    }
  }

  lemma {:induction false} ParsePartsIff(s: string, first: bool)
    ensures var r, c := ParseParts(s), ParseCondParts(s, first);
      && (c.Ok? <==> r.Ok? && HeadedAll(r.value) && (first && r.value != [] ==> Keyword(r.value[0])))
      && (c.Ok? ==> c == r)
    decreases |s|, 1
  {
    if s != [] && s[0] != ')' {
      ParseCondIff(s);
      if Parse(s).Ok? {
        var t, rest := Parse(s).value, Parse(s).rest;
        ParsePartsIff(rest, false);
        var ts := ParseParts(rest);
        if ts.Ok? {
          assert ([t] + ts.value)[1..] == ts.value && ([t] + ts.value)[0] == t;
        }
      }
    }
  }

  /** It too runs over the end of the text if and only if there is no text at all. */
  lemma {:induction false} ParseCondBeyondIff(s: string)
    ensures ParseCond(s).Beyond? <==> s == []
    decreases |s|, 0
  {
    if Peek(s) == '(' { CondPartsNotBeyond(s[1..], true); }
  }

  lemma {:induction false} CondPartsNotBeyond(s: string, first: bool)
    ensures !ParseCondParts(s, first).Beyond?
    decreases |s|, 1
  {
    if s != [] && s[0] != ')' {
      ParseCondBeyondIff(s);
      if ParseCond(s).Ok? { CondPartsNotBeyond(ParseCond(s).rest, false); }
    }
  }

  /** `parse_bcexp`. */
  method ParseBcexp(sexp: Cursor) returns (r: Parsed<Sexp>)
    modifies sexp
    ensures r == ParseCond(old(sexp.rest))
    ensures r.Ok? ==> sexp.rest == r.rest
    decreases |sexp.rest|
  {
    ghost var s := sexp.rest;
    if Peek(sexp.rest) == '(' {
      var parts := [];
      sexp.rest := sexp.rest[1..];
      JoinAssociates([], List([]), ParseCondParts(sexp.rest, true));
      while |sexp.rest| > 0 && sexp.rest[0] != ')'
        invariant |sexp.rest| < |s|
        invariant ParseCondParts(s[1..], true) == Join(parts, ParseCondParts(sexp.rest, parts == []))
        decreases |sexp.rest|
      {
        var part := ParseBcexp(sexp);
        if !part.Ok? {
          return if part.Beyond? then Beyond else Bad;
        }
        if parts == [] && !Keyword(part.value) {
          return Bad;
        }
        JoinAssociates(parts, part.value, ParseCondParts(part.rest, false));
        parts := parts + [part.value];
      }
      assert parts + [] == parts;
      if Peek(sexp.rest) == ')' {
        sexp.rest := sexp.rest[1..];
        r := Ok(List(parts), sexp.rest);
      } else {
        r := Bad;
      }
    } else {
      var str := GetStr(sexp);
      r := if str.Str? then Ok(Atom(str.text), str.rest) else if str.Overrun? then Beyond else Bad;
    }
  }

  // ----- expressions and the table -----

  /** A reference node: the position of its target and the node's own identity. */
  datatype Link = Link(target: nat, node: nat)

  /** `bcexp_t`. */
  datatype Exp =
    | Spec(plugin: string, arg: string)
    | Not(single: Exp)
    | And(arr: seq<Exp>)
    | Or(arr: seq<Exp>)
    | Ref(link: Link)

  /** `bcdef_t`: the nodes that refer to it and the rules that use it are kept with the definition. */
  datatype Def = Def(name: string, exp: Exp, users: seq<nat>, rules: seq<nat>)

  /** The list of definitions, the definitions handed out without a name, and the next node identity. */
  datatype Table = Table(defs: seq<Def>, loose: seq<Exp>, next: nat)

  /** The references in an expression. */
  function Refs(e: Exp): set<Link>
    decreases e, 1
  {
    match e
    case Spec(_, _) => {}
    case Not(x) => Refs(x)
    case And(es) => RefsAll(es)
    case Or(es) => RefsAll(es)
    case Ref(l) => {l}
  }

  function RefsAll(es: seq<Exp>): set<Link>
    decreases es, 0
  {
    if es == [] then {} else Refs(es[0]) + RefsAll(es[1..])
  }

  predicate Matches(d: Def, pattern: string) {
    d.name != "" && d.name == pattern
  }

  /** The first definition of that name. */
  function Find(defs: seq<Def>, pattern: string): (r: Option<nat>)
    ensures r.Some? ==> r.value < |defs| && Matches(defs[r.value], pattern)
    ensures r.Some? ==> forall i :: 0 <= i < r.value ==> !Matches(defs[i], pattern)
    ensures r.None? ==> forall i :: 0 <= i < |defs| ==> !Matches(defs[i], pattern)
  {
    if defs == [] then None
    else if Matches(defs[0], pattern) then Some(0)
    else match Find(defs[1..], pattern)
      case None => None
      case Some(i) => Some(i + 1)
  }

  lemma FindUnique(defs: seq<Def>, pattern: string, k: nat)
    requires k < |defs| && Matches(defs[k], pattern)
    requires forall i :: 0 <= i < k ==> !Matches(defs[i], pattern)
    ensures Find(defs, pattern) == Some(k)
  {
  }

  // ----- translation -----

  datatype Outcome<+T> = Done(value: T) | Refused | Crashed

  /** The position of the first colon. */
  function Colon(s: string): (k: nat)
    ensures k <= |s| && ':' !in s[..k] && (k < |s| ==> s[k] == ':')
  {
    if s == [] || s[0] == ':' then 0 else 1 + Colon(s[1..])
  }

  /** `bcspec_new`: a known plugin's name, a colon and the argument. */
  function SpecOf(plugins: set<string>, a: string): Outcome<Exp> {
    var n := Colon(a);
    if n == |a| || a[..n] !in plugins then Refused else Done(Spec(a[..n], a[n + 1..]))
  }

  function Text(t: Sexp): string {
    if t.Atom? then t.text else ""
  }

  /** A new reference node, recorded with its target. */
  function Link1(t: Table, i: nat): Table
    requires i < |t.defs|
  {
    t.(defs := t.defs[i := t.defs[i].(users := t.defs[i].users + [t.next])], next := t.next + 1)
  }

  /** `transv_stree` on a node and the nodes chained behind it. */
  function Translated(t: Table, plugins: set<string>, chain: seq<Sexp>): (Table, Outcome<Exp>)
    requires chain != []
    decreases chain, 0
  {
    match chain[0]
    case List(parts) => if parts == [] then (t, Crashed) else Translated(t, plugins, parts)
    case Atom(a) =>
      if |chain| == 1 then (t, SpecOf(plugins, a))
      else if a == "ref" then
        (match Find(t.defs, Text(chain[1]))
         case None => (t, Refused)
         case Some(i) => (Link1(t, i), Done(Ref(Link(i, t.next)))))
      else if a == "and" then
        var (t', r) := TranslatedAll(t, plugins, chain[1..]);
        (t', if r.Done? then Done(And(r.value)) else if r.Refused? then Refused else Crashed)
      else if a == "or" then
        var (t', r) := TranslatedAll(t, plugins, chain[1..]);
        (t', if r.Done? then Done(Or(r.value)) else if r.Refused? then Refused else Crashed)
      else if a == "not" then
        if |chain| > 2 then (t, Refused)
        else
          var (t', r) := Translated(t, plugins, chain[1..]);
          (t', if r.Done? then Done(Not(r.value)) else r)
      else (t, Refused)
  }

  function TranslatedAll(t: Table, plugins: set<string>, chain: seq<Sexp>): (Table, Outcome<seq<Exp>>)
    decreases chain, 1
  {
    if chain == [] then (t, Done([]))
    else
      match Translated(t, plugins, chain)
      case (t1, Done(e)) =>
        var (t2, r) := TranslatedAll(t1, plugins, chain[1..]);
        (t2, if r.Done? then Done([e] + r.value) else r)
      case (t1, Refused) => (t1, Refused)
      case (t1, Crashed) => (t1, Crashed)
  }

  // ----- adding a definition -----

  datatype Added = Listed(position: nat) | Handed(exp: Exp) | Failed | Fatal

  /** The tree `bcdef_add` works on and what is left of the text for an anonymous definition's name. */
  function Read(data: string): Option<(Sexp, string)> {
    if Peek(data) == '(' then
      match ParseCond(data)
      case Ok(t, rest) => Some((t, rest))
      case Beyond => None
      case Bad => None
    else Some((Atom(data), data))
  }

  /** `bcdef_add`; `digest` stands for the name made from a text by SHA-1. */
  function AddDef(t: Table, plugins: set<string>, digest: string -> string, name: string, data: string)
    : (Table, Added)
  {
    match Read(data)
    case None => (t, Failed)
    case Some((tree, rest)) =>
      match Translated(t, plugins, [tree])
      case (t1, Refused) => (t1, Failed)
      case (t1, Crashed) => (t1, Fatal)
      case (t1, Done(e)) =>
        if e.Ref? then (t1.(loose := t1.loose + [e]), Handed(e))
        else
          var stored := if name == "" then CString(digest(rest)) else CString(name);
          (t1.(defs := t1.defs + [Def(stored, e, [], [])]), Listed(|t1.defs|))
  }

  /** The refusal test of `bcdef_del`: a definition in use is not removed; an unknown one is dereferenced. */
  datatype Removal = Unwilling | Removable(position: nat) | UnknownCrash

  function DelDef(t: Table, name: string): Removal {
    match Find(t.defs, name)
    case None => UnknownCrash
    case Some(i) => if t.defs[i].users != [] || t.defs[i].rules != [] then Unwilling else Removable(i)
  }

  /** A definition can be removed if and only if it is the first of its name and neither used nor attached to a rule. */
  lemma RemovableIff(t: Table, name: string, i: nat)
    ensures DelDef(t, name) == Removable(i) <==>
      && i < |t.defs| && name != "" && t.defs[i].name == name && t.defs[i].users == [] && t.defs[i].rules == []
      && forall k :: 0 <= k < i ==> t.defs[k].name != name
  {
    if i < |t.defs| && name != "" && t.defs[i].name == name && forall k :: 0 <= k < i ==> t.defs[k].name != name {
      FindUnique(t.defs, name, i);
    }
  }

  // ----- the invariant of the table -----

  /** A reference points below `n`, to the definition its name finds, and is recorded there. */
  ghost predicate LinkOk(t: Table, l: Link, n: nat) {
    && l.target < n && l.target < |t.defs|
    && l.node in t.defs[l.target].users
    && Find(t.defs, t.defs[l.target].name) == Some(l.target)
  }

  ghost predicate ExpOk(t: Table, e: Exp, n: nat) {
    forall l :: l in Refs(e) ==> LinkOk(t, l, n)
  }

  ghost predicate Sane(t: Table) {
    && (forall i :: 0 <= i < |t.defs| ==> ExpOk(t, t.defs[i].exp, i))
    && (forall i :: 0 <= i < |t.loose| ==> ExpOk(t, t.loose[i], |t.defs|))
  }

  /** The same definitions, with perhaps more users. */
  ghost predicate Extends(t: Table, t': Table) {
    && |t'.defs| == |t.defs| && t'.loose == t.loose && t.next <= t'.next
    && forall i :: 0 <= i < |t.defs| ==> Grows(t.defs[i], t'.defs[i])
  }

  ghost predicate Grows(d: Def, d': Def) {
    d'.name == d.name && d'.exp == d.exp && d'.rules == d.rules && d.users <= d'.users
  }

  lemma {:induction false} FindSame(defs: seq<Def>, defs': seq<Def>, pattern: string)
    requires |defs| == |defs'| && forall i :: 0 <= i < |defs| ==> defs'[i].name == defs[i].name
    ensures Find(defs', pattern) == Find(defs, pattern)
  {
    var r := Find(defs, pattern);
    if r.Some? { FindUnique(defs', pattern, r.value); }
    if Find(defs', pattern).Some? && r.None? { assert Matches(defs[Find(defs', pattern).value], pattern); }
  }

  lemma FindMore(defs: seq<Def>, more: seq<Def>, pattern: string)
    requires Find(defs, pattern).Some?
    ensures Find(defs + more, pattern) == Find(defs, pattern)
  {
    FindUnique(defs + more, pattern, Find(defs, pattern).value);
  }

  lemma ExpOkExtends(t: Table, t': Table, e: Exp, n: nat)
    requires Extends(t, t') && ExpOk(t, e, n)
    ensures ExpOk(t', e, n)
  {
    forall l | l in Refs(e) ensures LinkOk(t', l, n) {
      assert LinkOk(t, l, n);
      assert Grows(t.defs[l.target], t'.defs[l.target]);
      FindSame(t.defs, t'.defs, t.defs[l.target].name);
    }
  }

  lemma ExpOkAppend(t: Table, d: Def, e: Exp, n: nat)
    requires ExpOk(t, e, n)
    ensures ExpOk(t.(defs := t.defs + [d]), e, n)
  {
    var t' := t.(defs := t.defs + [d]);
    forall l | l in Refs(e) ensures LinkOk(t', l, n) {
      assert LinkOk(t, l, n);
      FindMore(t.defs, [d], t.defs[l.target].name);
    }
  }

  lemma ExtendsTwice(t: Table, t1: Table, t2: Table)
    requires Extends(t, t1) && Extends(t1, t2)
    ensures Extends(t, t2)
  {
    forall i | 0 <= i < |t.defs| ensures Grows(t.defs[i], t2.defs[i]) {
      assert Grows(t.defs[i], t1.defs[i]) && Grows(t1.defs[i], t2.defs[i]);
    }
  }

  /** Translation only adds users, and every reference it makes is recorded with its target. */
  lemma {:induction false} TranslatedOk(t: Table, plugins: set<string>, chain: seq<Sexp>)
    requires chain != []
    ensures var (t', r) := Translated(t, plugins, chain);
      Extends(t, t') && (r.Done? ==> ExpOk(t', r.value, |t.defs|))
    decreases chain, 0
  {
    match chain[0]
    case List(parts) => if parts != [] { TranslatedOk(t, plugins, parts); }
    case Atom(a) =>
      if |chain| == 1 {
      } else if a == "ref" {
        LinkedOk(t, Text(chain[1]));
      } else if a == "and" || a == "or" {
        TranslatedAllOk(t, plugins, chain[1..]);
      } else if a == "not" && |chain| == 2 {
        TranslatedOk(t, plugins, chain[1..]);
      }
  }

  lemma LinkedOk(t: Table, pattern: string)
    ensures var r := Find(t.defs, pattern);
      r.Some? ==> Extends(t, Link1(t, r.value)) && ExpOk(Link1(t, r.value), Ref(Link(r.value, t.next)), |t.defs|)
  {
    var r := Find(t.defs, pattern);
    if r.Some? {
      var t', l := Link1(t, r.value), Link(r.value, t.next);
      FindSame(t.defs, t'.defs, pattern);
      assert t'.defs[r.value].users[|t.defs[r.value].users|] == t.next;
      assert LinkOk(t', l, |t.defs|);
    }
  }

  lemma {:induction false} TranslatedAllOk(t: Table, plugins: set<string>, chain: seq<Sexp>)
    ensures var (t', r) := TranslatedAll(t, plugins, chain);
      Extends(t, t') && (r.Done? ==> forall l :: l in RefsAll(r.value) ==> LinkOk(t', l, |t.defs|))
    decreases chain, 1
  {
    if chain != [] {
      TranslatedOk(t, plugins, chain);
      var (t1, r1) := Translated(t, plugins, chain);
      if r1.Done? {
        TranslatedAllOk(t1, plugins, chain[1..]);
        var (t2, r2) := TranslatedAll(t1, plugins, chain[1..]);
        ExtendsTwice(t, t1, t2);
        ExpOkExtends(t1, t2, r1.value, |t.defs|);
        if r2.Done? { assert ([r1.value] + r2.value)[1..] == r2.value; }
      }
    }
  }

  /** Whatever text is added, every reference still points to a strictly earlier definition that records it. */
  lemma AddKeepsSane(t: Table, plugins: set<string>, digest: string -> string, name: string, data: string)
    requires Sane(t)
    ensures Sane(AddDef(t, plugins, digest, name, data).0)
  {
    match Read(data)
    case None =>
    case Some((tree, rest)) =>
      TranslatedOk(t, plugins, [tree]);
      var (t1, r) := Translated(t, plugins, [tree]);
      ExtendsSane(t, t1);
      if r.Done? && r.value.Ref? {
      } else if r.Done? {
        var stored := if name == "" then CString(digest(rest)) else CString(name);
        AppendSane(t1, Def(stored, r.value, [], []));
      }
  }

  lemma ExtendsSane(t: Table, t': Table)
    requires Sane(t) && Extends(t, t')
    ensures Sane(t')
  {
    forall i | 0 <= i < |t'.defs| ensures ExpOk(t', t'.defs[i].exp, i) {
      assert Grows(t.defs[i], t'.defs[i]);
      ExpOkExtends(t, t', t.defs[i].exp, i);
    }
    forall i | 0 <= i < |t'.loose| ensures ExpOk(t', t'.loose[i], |t'.defs|) {
      ExpOkExtends(t, t', t.loose[i], |t.defs|);
    }
  }

  lemma AppendSane(t: Table, d: Def)
    requires Sane(t) && ExpOk(t, d.exp, |t.defs|)
    ensures Sane(t.(defs := t.defs + [d]))
  {
    var t' := t.(defs := t.defs + [d]);
    forall i | 0 <= i < |t'.defs| ensures ExpOk(t', t'.defs[i].exp, i) {
      ExpOkAppend(t, d, t'.defs[i].exp, i);
    }
    forall i | 0 <= i < |t'.loose| ensures ExpOk(t', t'.loose[i], |t'.defs|) {
      ExpOkAppend(t, d, t.loose[i], |t.defs|);
      assert forall l :: LinkOk(t', l, |t.defs|) ==> LinkOk(t', l, |t'.defs|);
    }
  }

  /** A request to `bcdef_add`. */
  datatype Request = Request(name: string, data: string)

  /** The table after a run of requests. */
  function Run(t: Table, plugins: set<string>, digest: string -> string, reqs: seq<Request>): Table
    decreases |reqs|
  {
    if reqs == [] then t
    else Run(AddDef(t, plugins, digest, reqs[0].name, reqs[0].data).0, plugins, digest, reqs[1..])
  }

  lemma {:induction false} RunSane(t: Table, plugins: set<string>, digest: string -> string, reqs: seq<Request>)
    requires Sane(t)
    ensures Sane(Run(t, plugins, digest, reqs))
    decreases |reqs|
  {
    if reqs != [] {
      AddKeepsSane(t, plugins, digest, reqs[0].name, reqs[0].data);
      RunSane(AddDef(t, plugins, digest, reqs[0].name, reqs[0].data).0, plugins, digest, reqs[1..]);
    }
  }

  /** In every table built by any requests, `bcdef_del` refuses whatever a live expression refers to. */
  lemma ReferencedIsKept(plugins: set<string>, digest: string -> string, reqs: seq<Request>, e: Exp, l: Link)
    requires var t := Run(Table([], [], 0), plugins, digest, reqs);
      l in Refs(e) && (e in t.loose || exists i :: 0 <= i < |t.defs| && t.defs[i].exp == e)
    ensures var t := Run(Table([], [], 0), plugins, digest, reqs);
      l.target < |t.defs| && DelDef(t, t.defs[l.target].name) == Unwilling
  {
    RunSane(Table([], [], 0), plugins, digest, reqs);
    var t := Run(Table([], [], 0), plugins, digest, reqs);
    if i :| 0 <= i < |t.defs| && t.defs[i].exp == e {
      assert ExpOk(t, t.defs[i].exp, i) && LinkOk(t, l, i);
    } else {
      var k :| 0 <= k < |t.loose| && t.loose[k] == e;
      assert ExpOk(t, t.loose[k], |t.defs|) && LinkOk(t, l, |t.defs|);
    }
  }

  /** The list of definitions as the server keeps it. */
  class Conditions {
    var defs: seq<Def>
    var loose: seq<Exp>
    var next: nat

    ghost function View(): Table
      reads this
    {
      Table(defs, loose, next)
    }

    constructor ()
      ensures View() == Table([], [], 0)
    {
      defs, loose, next := [], [], 0;
    }

    /** `bcdef_find`. */
    method FindDef(pattern: string) returns (r: Option<nat>)
      ensures r == Find(defs, pattern)
    {
      var i := 0;
      while i < |defs|
        invariant i <= |defs| && forall k :: 0 <= k < i ==> !Matches(defs[k], pattern)
      {
        if Matches(defs[i], pattern) {
          FindUnique(defs, pattern, i);
          return Some(i);
        }
        i := i + 1;
      }
      return None;
    }

    /** `transv_stree`: recursion into lists, a loop over the parts of a conjunction or disjunction. */
    method Translate(plugins: set<string>, chain: seq<Sexp>) returns (r: Outcome<Exp>)
      requires chain != []
      modifies this
      ensures (View(), r) == Translated(old(View()), plugins, chain)
      decreases chain, 0
    {
      match chain[0]
      case List(parts) =>
        if parts == [] {
          r := Crashed;
        } else {
          r := Translate(plugins, parts);
        }
      case Atom(a) =>
        if |chain| == 1 {
          r := SpecOf(plugins, a);
        } else if a == "ref" {
          var target := FindDef(Text(chain[1]));
          if target.None? {
            return Refused;
          }
          var i := target.value;
          r := Done(Ref(Link(i, next)));
          defs := defs[i := defs[i].(users := defs[i].users + [next])];
          next := next + 1;
        } else if a == "and" {
          var es := TranslateParts(plugins, chain[1..]);
          r := if es.Done? then Done(And(es.value)) else if es.Refused? then Refused else Crashed;
        } else if a == "or" {
          var es := TranslateParts(plugins, chain[1..]);
          r := if es.Done? then Done(Or(es.value)) else if es.Refused? then Refused else Crashed;
        } else if a == "not" {
          if |chain| > 2 {
            return Refused;
          }
          r := Translate(plugins, chain[1..]);
          if r.Done? {
            r := Done(Not(r.value));
          }
        } else {
          r := Refused;
        }
    }

    /** The loop over the parts in `transv_stree`. */
    method TranslateParts(plugins: set<string>, chain: seq<Sexp>) returns (r: Outcome<seq<Exp>>)
      modifies this
      ensures (View(), r) == TranslatedAll(old(View()), plugins, chain)
      decreases chain, 1
    {
      var arr, k := [], 0;
      assert chain[0..] == chain;
      PrependAssociates([], Spec("", ""), TranslatedAll(View(), plugins, chain));
      while k < |chain|
        invariant k <= |chain|
        invariant TranslatedAll(old(View()), plugins, chain) == Prepend(arr, TranslatedAll(View(), plugins, chain[k..]))
      {
        ghost var t0 := View();
        var part := Translate(plugins, chain[k..]);
        if !part.Done? {
          return if part.Refused? then Refused else Crashed;
        }
        assert chain[k..][1..] == chain[k + 1..];
        PrependAssociates(arr, part.value, TranslatedAll(View(), plugins, chain[k + 1..]));
        arr := arr + [part.value];
        k := k + 1;
      }
      assert arr + [] == arr;
      r := Done(arr);
    }

    /** `bcdef_add`. */
    method Add(plugins: set<string>, digest: string -> string, name: string, data: Cursor) returns (r: Added)
      modifies this, data
      ensures (View(), r) == AddDef(old(View()), plugins, digest, name, old(data.rest))
    {
      var tree;
      if Peek(data.rest) == '(' {
        var parsed := ParseBcexp(data);
        if !parsed.Ok? {
          return Failed;
        }
        tree := parsed.value;
      } else {
        tree := Atom(data.rest);
      }
      var bce := Translate(plugins, [tree]);
      match bce
      case Refused => r := Failed;
      case Crashed => r := Fatal;
      case Done(e) =>
        if e.Ref? {
          loose := loose + [e];
          r := Handed(e);
        } else {
          var stored := if name == "" then CString(digest(data.rest)) else CString(name);
          r := Listed(|defs|);
          defs := defs + [Def(stored, e, [], [])];
        }
    }
  }

  ghost function Prepend(arr: seq<Exp>, res: (Table, Outcome<seq<Exp>>)): (Table, Outcome<seq<Exp>>) {
    if res.1.Done? then (res.0, Done(arr + res.1.value)) else res
  }

  lemma PrependAssociates(arr: seq<Exp>, e: Exp, res: (Table, Outcome<seq<Exp>>))
    ensures Prepend(arr, Prepend([e], res)) == Prepend(arr + [e], res)
    ensures Prepend([], res) == res
  {
    if res.1.Done? {
      assert arr + ([e] + res.1.value) == arr + [e] + res.1.value;
      assert [] + res.1.value == res.1.value;
    }
  }
}
