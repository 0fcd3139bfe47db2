/** Canonical S-expressions: the parser, the printer and the size computation of server/read.c. */
module Sexp {
  import opened Decimal
  import opened Octets

  /** `ptree_t`: an atom or a list of parts. */
  datatype Sexp = Atom(text: string) | List(parts: seq<Sexp>)

  // ----- the canonical form of doc/intro.html -----

  function Canonical(t: Sexp): string
    decreases t, 1
  {
    match t
    case Atom(a) => Encode(a)
    case List(parts) => "(" + CanonicalAll(parts) + ")"
  }

  function CanonicalAll(parts: seq<Sexp>): string
    decreases parts, 0
  {
    if parts == [] then "" else Canonical(parts[0]) + CanonicalAll(parts[1..])
  }

  /** Every atom has at least one byte. */
  predicate Solid(t: Sexp)
    decreases t, 1
  {
    match t
    case Atom(a) => a != []
    case List(parts) => SolidAll(parts)
  }

  predicate SolidAll(parts: seq<Sexp>)
    decreases parts, 0
  {
    parts == [] || (Solid(parts[0]) && SolidAll(parts[1..]))
  }

  // ----- parsing -----

  datatype Parsed<+T> = Ok(value: T, rest: string) | Beyond | Bad

  /** What `parse_sexp` reads from the front of `s`. */
  function Parse(s: string): (r: Parsed<Sexp>)
    ensures r.Ok? ==> |r.rest| < |s|
    decreases |s|, 0
  {
    if Peek(s) == '(' then
      match ParseParts(s[1..])
      case Ok(parts, rest) => if Peek(rest) == ')' then Ok(List(parts), rest[1..]) else Bad
      case Beyond => Beyond
      case Bad => Bad
    else
      match TakeStr(s)
      case Str(a, rest) => Ok(Atom(a), rest)
      case Overrun => Beyond
      case NoStr => Bad
  }

  /** The parts up to the closing parenthesis or the end of the text. */
  function ParseParts(s: string): (r: Parsed<seq<Sexp>>)
    ensures r.Ok? ==> |r.rest| <= |s|
    decreases |s|, 1
  {
    if s == [] || s[0] == ')' then Ok([], s)
    else
      match Parse(s)
      case Ok(t, rest) =>
        (match ParseParts(rest)
         case Ok(ts, rest') => Ok([t] + ts, rest')
         case Beyond => Beyond
         case Bad => Bad)
      case Beyond => Beyond
      case Bad => Bad
  }

  /** `parse_sexp`. */
  method ParseSexp(sexp: Cursor) returns (r: Parsed<Sexp>)
    modifies sexp
    ensures r == Parse(old(sexp.rest))
    ensures r.Ok? ==> sexp.rest == r.rest
    decreases |sexp.rest|
  {
    ghost var s := sexp.rest;
    if Peek(sexp.rest) == '(' {
      var parts := [];
      sexp.rest := sexp.rest[1..];
      JoinAssociates([], List([]), ParseParts(sexp.rest));
      while |sexp.rest| > 0 && sexp.rest[0] != ')'
        invariant |sexp.rest| < |s|
        invariant ParseParts(s[1..]) == Join(parts, ParseParts(sexp.rest))
        decreases |sexp.rest|
      {
        ghost var before := sexp.rest;
        var part := ParseSexp(sexp);
        if !part.Ok? {
          return if part.Beyond? then Beyond else Bad;
        }
        JoinAssociates(parts, part.value, ParseParts(part.rest));
        parts := parts + [part.value];
      }
      assert parts + [] == parts;
      if Peek(sexp.rest) == ')' {
        sexp.rest := sexp.rest[1..];
        r := Ok(List(parts), sexp.rest);
      } else {
        r := Bad;
      }
    } else {
      var str := GetStr(sexp);
      r := if str.Str? then Ok(Atom(str.text), str.rest) else if str.Overrun? then Beyond else Bad;
    }
  }

  /** The parser runs over the end of the text if and only if there is no text at all. */
  lemma {:induction false} ParseBeyondIff(s: string)
    ensures Parse(s).Beyond? <==> s == []
    decreases |s|, 0
  {
    if Peek(s) == '(' { PartsNotBeyond(s[1..]); }
  }

  lemma {:induction false} PartsNotBeyond(s: string)
    ensures !ParseParts(s).Beyond?
    decreases |s|, 1
  {
    if s != [] && s[0] != ')' {
      ParseBeyondIff(s);
      if Parse(s).Ok? { PartsNotBeyond(Parse(s).rest); }
    }
  }

  /** The parts read so far in front of the parts still to be read. */
  function Join(parts: seq<Sexp>, r: Parsed<seq<Sexp>>): Parsed<seq<Sexp>> {
    if r.Ok? then Ok(parts + r.value, r.rest) else r
  }

  lemma JoinAssociates(parts: seq<Sexp>, t: Sexp, r: Parsed<seq<Sexp>>)
    ensures Join(parts, Join([t], r)) == Join(parts + [t], r)
    ensures Join([], r) == r
  {
    if r.Ok? {
      assert parts + ([t] + r.value) == parts + [t] + r.value;
      assert [] + r.value == r.value;
    }
  }

  // ----- printing and parsing undo each other -----

  lemma FirstByte(t: Sexp)
    ensures Canonical(t) != [] && Canonical(t)[0] != ')'
    ensures Canonical(t)[0] == '(' <==> t.List?
  {
  }

  /** Parsing the canonical form gives the tree back and leaves the text behind it alone. */
  lemma {:induction false} ParsePrinted(t: Sexp, rest: string)
    requires Solid(t)
    ensures Parse(Canonical(t) + rest) == Ok(t, rest)
    decreases t, 1
  {
    FirstByte(t);
    var s := Canonical(t) + rest;
    match t
    case Atom(a) => TakeEncoded(a, rest);
    case List(parts) =>
      assert s[1..] == CanonicalAll(parts) + (")" + rest);
      ParsePrintedAll(parts, ")" + rest);
      assert (")" + rest)[1..] == rest;
  }

  lemma {:induction false} ParsePrintedAll(parts: seq<Sexp>, rest: string)
    requires SolidAll(parts) && rest != [] && rest[0] == ')'
    ensures ParseParts(CanonicalAll(parts) + rest) == Ok(parts, rest)
    decreases parts, 0
  {
    if parts == [] {
      assert CanonicalAll(parts) + rest == rest;
    } else {
      var tail := CanonicalAll(parts[1..]) + rest;
      assert CanonicalAll(parts) + rest == Canonical(parts[0]) + tail;
      FirstByte(parts[0]);
      ParsePrinted(parts[0], tail);
      ParsePrintedAll(parts[1..], rest);
      assert [parts[0]] + parts[1..] == parts;
      hide Canonical, CanonicalAll;
      PartsStep(Canonical(parts[0]) + tail, parts[0], tail);
    }
  }

  lemma PartsStep(s: string, t: Sexp, rest: string)
    requires s != [] && s[0] != ')' && Parse(s) == Ok(t, rest)
    ensures ParseParts(s) == Join([t], ParseParts(rest))
  {
  }

  /** "A unique representation": no tree's canonical form starts another's, and equal forms are equal trees. */
  lemma PrefixFree(t: Sexp, u: Sexp)
    requires Solid(t) && Solid(u) && Canonical(t) <= Canonical(u)
    ensures t == u
  {
    var rest := Canonical(u)[|Canonical(t)|..];
    assert Canonical(t) + rest == Canonical(u) + "";
    ParsePrinted(t, rest);
    ParsePrinted(u, "");
  }

  /** Whatever the parser accepts is the tree of its own canonical form, which it then reads the same way. */
  lemma {:induction false} AcceptedReprints(s: string)
    ensures Parse(s).Ok? ==> Solid(Parse(s).value)
    ensures Parse(s).Ok? ==> Parse(Canonical(Parse(s).value) + Parse(s).rest) == Parse(s)
    decreases |s|, 0
  {
    if Peek(s) == '(' { AcceptedParts(s[1..]); }
    if Parse(s).Ok? { ParsePrinted(Parse(s).value, Parse(s).rest); }
  }

  lemma {:induction false} AcceptedParts(s: string)
    ensures ParseParts(s).Ok? ==> SolidAll(ParseParts(s).value)
    decreases |s|, 1
  {
    if s != [] && s[0] != ')' {
      AcceptedReprints(s);
      if Parse(s).Ok? {
        var rest := Parse(s).rest;
        AcceptedParts(rest);
        if ParseParts(rest).Ok? {
          assert ([Parse(s).value] + ParseParts(rest).value)[1..] == ParseParts(rest).value;
        }
      }
    }
  }

  // ----- what the printer leaves in memory -----

  /** `strncpy(dst, a, |a|)`: the bytes before the first NUL, then NULs. */
  function Copied(a: string): (r: string)
    ensures |r| == |a|
  {
    seq(|a|, k requires 0 <= k < |a| => if '\0' in a[..k] then '\0' else a[k])
  }

  /** The bytes of an atom: of the printed length only as many digits as DIGITS counts are kept. */
  function Stored(a: string): (r: string)
    ensures |r| == Digits(|a|) + 1 + |a|
  {
    StoredLength(|a|);
    (Print(|a|) + ":")[..Digits(|a|) + 1] + Copied(a)
  }

  lemma StoredLength(n: nat)
    ensures Digits(n) <= |Print(n)| <= Digits(n) + n
    ensures |Print(n)| == Digits(n) <==> n < 1000000
  {
    DigitsExactIff(n);
    if n >= 1000000 {
      PowersOfTen();
      PrintLong(n, 6);
      PrintShort(n);
    }
  }

  lemma {:induction false} PrintShort(n: nat)
    ensures |Print(n)| <= 1 + n
  {
    if n >= 10 { PrintShort(n / 10); }
  }

  /** The bytes `recreate_sexp` leaves behind for a tree. */
  function Written(t: Sexp): string
    decreases t, 1
  {
    match t
    case Atom(a) => Stored(a)
    case List(parts) => "(" + WrittenAll(parts) + ")"
  }

  function WrittenAll(parts: seq<Sexp>): string
    decreases parts, 0
  {
    if parts == [] then "" else Written(parts[0]) + WrittenAll(parts[1..])
  }

  /** Atoms below a million bytes whose bytes after the first NUL are all NUL. */
  predicate FaithfulAtom(a: string) {
    |a| < 1000000 && forall i, j :: 0 <= i < j < |a| && a[i] == '\0' ==> a[j] == '\0'
  }

  predicate Faithful(t: Sexp)
    decreases t, 1
  {
    match t
    case Atom(a) => FaithfulAtom(a)
    case List(parts) => FaithfulAll(parts)
  }

  predicate FaithfulAll(parts: seq<Sexp>)
    decreases parts, 0
  {
    parts == [] || (Faithful(parts[0]) && FaithfulAll(parts[1..]))
  }

  lemma CopiedIff(a: string)
    ensures Copied(a) == a <==> forall i, j :: 0 <= i < j < |a| && a[i] == '\0' ==> a[j] == '\0'
  {
    if Copied(a) == a {
      forall i, j | 0 <= i < j < |a| && a[i] == '\0' ensures a[j] == '\0' {
        assert a[..j][i] == '\0';
        assert Copied(a)[j] == '\0';
      }
    }
  }

  lemma StoredIff(a: string)
    ensures |Stored(a)| <= |Encode(a)|
    ensures Stored(a) == Encode(a) <==> FaithfulAtom(a)
  {
    StoredLength(|a|);
    CopiedIff(a);
    var k := Digits(|a|) + 1;
    if |a| < 1000000 {
      assert (Print(|a|) + ":")[..k] == Print(|a|) + ":";
      assert Stored(a)[k..] == Copied(a) && Encode(a)[k..] == a;
    }
  }

  /** The printer writes the canonical form if and only if every atom is faithful. */
  lemma {:induction false} WrittenIff(t: Sexp)
    ensures |Written(t)| <= |Canonical(t)|
    ensures Written(t) == Canonical(t) <==> Faithful(t)
    decreases t, 1
  {
    match t
    case Atom(a) => StoredIff(a);
    case List(parts) =>
      WrittenAllIff(parts);
      var w, c := WrittenAll(parts), CanonicalAll(parts);
      assert ("(" + w + ")")[1..|w| + 1] == w && ("(" + c + ")")[1..|c| + 1] == c;
  }

  lemma {:induction false} WrittenAllIff(parts: seq<Sexp>)
    ensures |WrittenAll(parts)| <= |CanonicalAll(parts)|
    ensures WrittenAll(parts) == CanonicalAll(parts) <==> FaithfulAll(parts)
    decreases parts, 0
  {
    if parts != [] {
      WrittenIff(parts[0]);
      WrittenAllIff(parts[1..]);
      var w, c := Written(parts[0]), Canonical(parts[0]);
      if WrittenAll(parts) == CanonicalAll(parts) {
        assert |w| == |c|;
        assert WrittenAll(parts)[..|w|] == w && CanonicalAll(parts)[..|c|] == c;
        assert WrittenAll(parts)[|w|..] == WrittenAll(parts[1..]);
        assert CanonicalAll(parts)[|c|..] == CanonicalAll(parts[1..]);
      }
    }
  }

  /** The two halves together: what the printer wrote for a tree is read back as that tree, and nothing more. */
  lemma WrittenParses(t: Sexp, rest: string)
    requires Solid(t) && Faithful(t)
    ensures Parse(Written(t) + rest) == Ok(t, rest)
  {
    WrittenIff(t);
    ParsePrinted(t, rest);
  }

  // ----- the size computation and the printer -----

  lemma WrittenSplit(parts: seq<Sexp>, k: nat)
    requires k < |parts|
    ensures WrittenAll(parts[..k + 1]) == WrittenAll(parts[..k]) + Written(parts[k])
    decreases k
  {
    if k == 0 {
      assert parts[..1][1..] == [] && parts[..0] == [];
    } else {
      assert parts[..k + 1][1..] == parts[1..][..k] && parts[..k][1..] == parts[1..][..k - 1];
      WrittenSplit(parts[1..], k - 1);
    }
  }

  lemma WrittenPrefix(parts: seq<Sexp>, k: nat)
    requires k <= |parts|
    ensures WrittenAll(parts) == WrittenAll(parts[..k]) + WrittenAll(parts[k..])
    decreases k
  {
    if k == 0 {
      assert parts[0..] == parts;
    } else {
      assert parts[1..][k - 1..] == parts[k..] && parts[..k][1..] == parts[1..][..k - 1];
      WrittenPrefix(parts[1..], k - 1);
    }
  }

  lemma WrittenStep(parts: seq<Sexp>, k: nat, start: string, before: string)
    requires k < |parts| && before == start + WrittenAll(parts[..k])
    ensures before + Written(parts[k]) == start + WrittenAll(parts[..k + 1])
    ensures |WrittenAll(parts[..k])| + |Written(parts[k])| == |WrittenAll(parts[..k + 1])| <= |WrittenAll(parts)|
  {
    WrittenSplit(parts, k);
    WrittenPrefix(parts, k + 1);
  }

  /** `length_sexp`: the exact number of bytes the printer advances over, whatever the atoms. */
  method Length(t: Sexp) returns (len: nat)
    ensures len == |Written(t)|
    decreases t
  {
    match t
    case List(parts) =>
      len := 2;
      for k := 0 to |parts|
        invariant len == 2 + |WrittenAll(parts[..k])|
      {
        WrittenSplit(parts, k);
        var n := Length(parts[k]);
        len := len + n;
      }
      assert parts[..|parts|] == parts;
    case Atom(a) =>
      len := Digits(|a|);
      len := len + 1;
      len := len + |a|;
  }

  /** The output octet: `at` is where `val` points in the buffer, `len` the count of bytes produced. */
  class Output {
    const buf: array<char>
    var at: nat
    var len: nat

    /** The bytes before the current position. */
    ghost function Done(): (s: string)
      requires at <= buf.Length
      reads this, buf
      ensures |s| == at
    {
      buf[..at]
    }

    constructor (buf: array<char>)
      ensures this.buf == buf && at == 0 && len == 0
    {
      this.buf, at, len := buf, 0, 0;
    }
  }

  /** Puts a string at a place of the buffer. */
  method Put(buf: array<char>, at: nat, s: string)
    requires at + |s| <= buf.Length
    modifies buf
    ensures buf[..] == old(buf[..at]) + s + old(buf[at + |s|..])
  {
    for k := 0 to |s|
      invariant forall j :: at <= j < at + k ==> buf[j] == s[j - at]
      invariant buf[..at] == old(buf[..at]) && buf[at + |s|..] == old(buf[at + |s|..])
    {
      buf[at + k] := s[k];
    }
    assert buf[at..at + |s|] == s;
    assert buf[..] == buf[..at] + buf[at..at + |s|] + buf[at + |s|..];
  }

  /** `strncpy` with the length of the source: stops at a NUL and pads with NULs. */
  method Strncpy(buf: array<char>, at: nat, s: string)
    requires at + |s| <= buf.Length
    modifies buf
    ensures buf[..] == old(buf[..at]) + Copied(s) + old(buf[at + |s|..])
  {
    var k := 0;
    while k < |s| && s[k] != '\0'
      invariant k <= |s| && '\0' !in s[..k]
      invariant forall j :: at <= j < at + k ==> buf[j] == s[j - at]
      invariant buf[..at] == old(buf[..at]) && buf[at + |s|..] == old(buf[at + |s|..])
    {
      buf[at + k] := s[k];
      k := k + 1;
    }
    var stop := k;
    while k < |s|
      invariant stop <= k <= |s|
      invariant forall j :: at <= j < at + k ==> buf[j] == if j - at < stop then s[j - at] else '\0'
      invariant buf[..at] == old(buf[..at]) && buf[at + |s|..] == old(buf[at + |s|..])
    {
      buf[at + k] := '\0';
      k := k + 1;
    }
    CopiedStops(s, stop);
    assert buf[..] == buf[..at] + buf[at..at + |s|] + buf[at + |s|..];
  }

  lemma CopiedStops(s: string, stop: nat)
    requires stop <= |s| && '\0' !in s[..stop] && (stop < |s| ==> s[stop] == '\0')
    ensures forall i :: 0 <= i < |s| ==> Copied(s)[i] == if i < stop then s[i] else '\0'
  {
    forall i | 0 <= i < |s| ensures Copied(s)[i] == if i < stop then s[i] else '\0' {
      if i < stop {
        assert forall c :: c in s[..i] ==> c in s[..stop];
      } else if i > stop {
        assert s[..i][stop] == '\0';
      }
    }
  }

  /**
   * `recreate_sexp`: exactly `Written(t)` ends up at the old position and the bytes before it are kept. The
   * terminator that `sprintf` puts after a length field is overwritten, except after a bare empty atom.
   */
  method Recreate(o: Output, t: Sexp)
    requires o.at + |Written(t)| <= o.buf.Length && (t == Atom("") ==> o.at + |Written(t)| < o.buf.Length)
    modifies o, o.buf
    ensures o.at == old(o.at) + |Written(t)| && o.len == old(o.len) + |Written(t)|
    ensures o.Done() == old(o.Done()) + Written(t)
    decreases t
  {
    match t
    case List(parts) =>
      ghost var whole, start := WrittenAll(parts), old(o.Done()) + "(";
      assert Written(t) == "(" + whole + ")" && WrittenAll(parts[..0]) == [];
      hide Written, WrittenAll, Output.Done;
      PutByte(o, '(');
      for k := 0 to |parts|
        invariant |WrittenAll(parts[..k])| <= |whole| && o.at == |start| + |WrittenAll(parts[..k])|
        invariant o.len - o.at == old(o.len) - old(o.at)
        invariant o.Done() == start + WrittenAll(parts[..k])
      {
        ghost var before := o.Done();
        WrittenStep(parts, k, start, before);
        Recreate(o, parts[k]);
      }
      assert parts[..|parts|] == parts;
      PutByte(o, ')');
    case Atom(a) =>
      RecreateAtom(o, a);
  }

  /** `*o->val++ = c` and the count. */
  method PutByte(o: Output, c: char)
    requires o.at < o.buf.Length
    modifies o, o.buf
    ensures o.at == old(o.at) + 1 && o.len == old(o.len) + 1
    ensures o.Done() == old(o.Done()) + [c]
  {
    o.buf[o.at] := c;
    o.at, o.len := o.at + 1, o.len + 1;
  }

  function One(b: bool): nat {
    if b then 1 else 0
  }

  /** `sprintf` writes the whole field and a NUL; the position moves on by `n` bytes. */
  method PutField(o: Output, field: string, n: nat)
    requires n <= |field| && o.at + |field| < o.buf.Length
    modifies o, o.buf
    ensures o.at == old(o.at) + n && o.len == old(o.len) + n && o.Done() == old(o.Done()) + field[..n]
  {
    Put(o.buf, o.at, field + ['\0']);
    assert o.buf[..o.at + n] == old(o.buf[..o.at]) + field[..n];
    o.len := o.len + n;
    o.at := o.at + n;
  }

  /** `strncpy` and the advance over the atom. */
  method PutCopy(o: Output, a: string)
    requires o.at + |a| <= o.buf.Length
    modifies o, o.buf
    ensures o.at == old(o.at) + |a| && o.len == old(o.len) + |a| && o.Done() == old(o.Done()) + Copied(a)
  {
    hide Copied;
    Strncpy(o.buf, o.at, a);
    assert o.buf[..o.at + |a|] == old(o.buf[..o.at]) + Copied(a);
    o.len := o.len + |a|;
    o.at := o.at + |a|;
  }

  /** The atom branch of `recreate_sexp`. */
  method RecreateAtom(o: Output, a: string)
    requires o.at + |Stored(a)| <= o.buf.Length && (a == "" ==> o.at + |Stored(a)| < o.buf.Length)
    modifies o, o.buf
    ensures o.at == old(o.at) + |Stored(a)| && o.len == old(o.len) + |Stored(a)|
    ensures o.Done() == old(o.Done()) + Stored(a)
  {
    StoredLength(|a|);
    PrintShort(|a|);
    var field := Print(|a|) + ":";
    var len := Digits(|a|);
    len := len + 1;
    assert |field| + 1 <= len + |a| + One(a == "") && Stored(a) == field[..len] + Copied(a);
    hide Stored, Copied, Print, Digits, Output.Done;
    PutField(o, field, len);
    PutCopy(o, a);
  }

  /** As util/adv2can.c pairs the two: a buffer of exactly `length_sexp` bytes is enough, but for a bare empty atom. */
  method Reprint(t: Sexp) returns (text: string)
    requires t != Atom("")
    ensures text == Written(t)
  {
    var len := Length(t);
    var buf := new char[len];
    var o := new Output(buf);
    Recreate(o, t);
    text := buf[..o.len];
    assert buf[..o.at] == o.Done();
  }
}
