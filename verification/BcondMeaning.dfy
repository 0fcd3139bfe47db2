/** What the documented conditions of doc/ and lib/bcond.c mean, said without the evaluator. */
module BcondMeaning {

  /** The result codes a verdict can be. */
  datatype Verdict = Success | Denied | Other(code: nat)

  /** bcondvar: and, or, not and references to named definitions. */
  datatype Cond = AndOf(parts: seq<Cond>) | OrOf(parts: seq<Cond>) | NotOf(part: Cond) | RefTo(name: string)

  /** What the named definitions say; an undefined name says nothing. */
  type Names = (string, Verdict) -> bool

  /**
   * The condition says `v`. A negation swaps success and denial and passes every other code on. A conjunction
   * succeeds if all parts do, and otherwise says what the first part says that does not. A disjunction succeeds if
   * some part does, and otherwise says what the last part says; without parts it denies.
   */
  ghost predicate Says(names: Names, c: Cond, v: Verdict) {
    match c
    case AndOf(cs) =>
      if v.Success? then forall i :: 0 <= i < |cs| ==> Says(names, cs[i], Success)
      else exists i :: 0 <= i < |cs| && Says(names, cs[i], v) && forall j :: 0 <= j < i ==> Says(names, cs[j], Success)
    case OrOf(cs) =>
      if v.Success? then exists i :: 0 <= i < |cs| && Says(names, cs[i], Success)
      else
        && (forall i :: 0 <= i < |cs| ==> !Says(names, cs[i], Success))
        && if cs == [] then v.Denied? else Says(names, cs[|cs| - 1], v)
    case NotOf(x) =>
      (match v
       case Success => Says(names, x, Denied)
       case Denied => Says(names, x, Success)
       case Other(_) => Says(names, x, v))
    case RefTo(name) => names(name, v)
  }

  /** The Boolean meaning. */
  ghost predicate Meaning(truth: string -> bool, c: Cond) {
    match c
    case AndOf(cs) => forall i :: 0 <= i < |cs| ==> Meaning(truth, cs[i])
    case OrOf(cs) => exists i :: 0 <= i < |cs| && Meaning(truth, cs[i])
    case NotOf(x) => !Meaning(truth, x)
    case RefTo(name) => truth(name)
  }

  /** The name occurs in the condition. */
  ghost predicate Mentions(c: Cond, name: string) {
    match c
    case AndOf(cs) => exists i :: 0 <= i < |cs| && Mentions(cs[i], name)
    case OrOf(cs) => exists i :: 0 <= i < |cs| && Mentions(cs[i], name)
    case NotOf(x) => Mentions(x, name)
    case RefTo(n) => n == name
  }

  function Verdict01(b: bool): Verdict {
    if b then Success else Denied
  }

  /** Only the names in a condition matter. */
  lemma {:induction false} SaysSame(names: Names, names': Names, c: Cond, v: Verdict)
    requires forall n, u :: Mentions(c, n) ==> names(n, u) == names'(n, u)
    ensures Says(names, c, v) == Says(names', c, v)
    decreases c
  {
    match c
    case AndOf(cs) => AllSaySame(names, names', cs, c);
    case OrOf(cs) => AllSaySame(names, names', cs, c);
    case NotOf(x) =>
      forall u ensures Says(names, x, u) == Says(names', x, u) { SaysSame(names, names', x, u); }
    case RefTo(name) =>
  }

  lemma {:induction false} AllSaySame(names: Names, names': Names, cs: seq<Cond>, c: Cond)
    requires c == AndOf(cs) || c == OrOf(cs)
    requires forall n, u :: Mentions(c, n) ==> names(n, u) == names'(n, u)
    ensures forall i, u :: 0 <= i < |cs| ==> Says(names, cs[i], u) == Says(names', cs[i], u)
    decreases cs
  {
    forall i, u | 0 <= i < |cs| ensures Says(names, cs[i], u) == Says(names', cs[i], u) {
      assert forall n :: Mentions(cs[i], n) ==> Mentions(c, n);
      SaysSame(names, names', cs[i], u);
    }
  }

  /** Where every name either succeeds or denies, the condition succeeds or denies by its Boolean meaning. */
  lemma {:induction false} SaysMeaning(names: Names, truth: string -> bool, c: Cond, v: Verdict)
    requires forall n, u :: Mentions(c, n) ==> (names(n, u) <==> u == Verdict01(truth(n)))
    ensures Says(names, c, v) <==> v == Verdict01(Meaning(truth, c))
    decreases c
  {
    match c
    case AndOf(cs) =>
      AllSayMeaning(names, truth, cs, c);
      AndMeaning(names, truth, cs, v);
    case OrOf(cs) =>
      AllSayMeaning(names, truth, cs, c);
      OrMeaning(names, truth, cs, v);
    case NotOf(x) =>
      forall u ensures Says(names, x, u) <==> u == Verdict01(Meaning(truth, x)) { SaysMeaning(names, truth, x, u); }
    case RefTo(name) =>
  }

  /** Every part says what its Boolean meaning is. */
  ghost predicate Boolean(names: Names, truth: string -> bool, cs: seq<Cond>) {
    forall i, u :: 0 <= i < |cs| ==> (Says(names, cs[i], u) <==> u == Verdict01(Meaning(truth, cs[i])))
  }

  lemma AndMeaning(names: Names, truth: string -> bool, cs: seq<Cond>, v: Verdict)
    requires Boolean(names, truth, cs)
    ensures Says(names, AndOf(cs), v) <==> v == Verdict01(Meaning(truth, AndOf(cs)))
  {
    if i: nat :| i < |cs| && !Meaning(truth, cs[i]) {
      var k := FirstFalse(truth, cs, i);
      assert Says(names, cs[k], Denied) && forall j :: 0 <= j < k ==> Says(names, cs[j], Success);
    }
  }

  lemma OrMeaning(names: Names, truth: string -> bool, cs: seq<Cond>, v: Verdict)
    requires Boolean(names, truth, cs)
    ensures Says(names, OrOf(cs), v) <==> v == Verdict01(Meaning(truth, OrOf(cs)))
  {
    assert cs != [] ==> (Says(names, cs[|cs| - 1], v) <==> v == Verdict01(Meaning(truth, cs[|cs| - 1])));
  }

  lemma FirstFalse(truth: string -> bool, cs: seq<Cond>, i: nat) returns (k: nat)
    requires i < |cs| && !Meaning(truth, cs[i])
    ensures k < |cs| && !Meaning(truth, cs[k]) && forall j :: 0 <= j < k ==> Meaning(truth, cs[j])
    decreases i
  {
    k := i;
    if j: nat :| j < i && !Meaning(truth, cs[j]) { k := FirstFalse(truth, cs, j); }
  }

  lemma {:induction false} AllSayMeaning(names: Names, truth: string -> bool, cs: seq<Cond>, c: Cond)
    requires c == AndOf(cs) || c == OrOf(cs)
    requires forall n, u :: Mentions(c, n) ==> (names(n, u) <==> u == Verdict01(truth(n)))
    ensures Boolean(names, truth, cs)
    decreases cs
  {
    forall i, u | 0 <= i < |cs| ensures Says(names, cs[i], u) <==> u == Verdict01(Meaning(truth, cs[i])) {
      assert forall n :: Mentions(cs[i], n) ==> Mentions(c, n);
      SaysMeaning(names, truth, cs[i], u);
    }
  }
}
