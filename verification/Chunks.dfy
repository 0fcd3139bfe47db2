/** Chunk lists: the depth-counting reader and converter of lib/parse.c. */
module Chunks {
  import opened Basics
  import opened Decimal
  import opened Octets
  import opened Sexp
  import opened Escapes

  // ----- tokens of a tree -----

  predicate Paren(tok: string) {
    tok == "(" || tok == ")"
  }

  /** The chunks a tree is written as. */
  function Tokens(t: Sexp): (ts: seq<string>)
    ensures ts != []
    decreases t, 1
  {
    match t
    case Atom(a) => [a]
    case List(parts) => ["("] + TokensAll(parts) + [")"]
  }

  function TokensAll(parts: seq<Sexp>): seq<string>
    decreases parts, 0
  {
    if parts == [] then [] else Tokens(parts[0]) + TokensAll(parts[1..])
  }

  /** No atom is a parenthesis by itself. */
  predicate Regular(t: Sexp)
    decreases t, 1
  {
    match t
    case Atom(a) => !Paren(a)
    case List(parts) => RegularAll(parts)
  }

  predicate RegularAll(parts: seq<Sexp>)
    decreases parts, 0
  {
    parts == [] || (Regular(parts[0]) && RegularAll(parts[1..]))
  }

  // ----- the depth counter -----

  function Turn(tok: string): int {
    if tok == "(" then 1 else if tok == ")" then -1 else 0
  }

  function Plus(k: nat, o: Option<nat>): Option<nat> {
    if o.Some? then Some(k + o.value) else None
  }

  /** How many tokens a loop that starts at depth `p` takes until the depth is zero, if it gets there. */
  function Reach(ts: seq<string>, p: int): (n: Option<nat>)
    ensures n.Some? ==> 1 <= n.value <= |ts|
  {
    if ts == [] then None
    else if p + Turn(ts[0]) == 0 then Some(1)
    else Plus(1, Reach(ts[1..], p + Turn(ts[0])))
  }

  /** A tree inside a list leaves the depth as it was, and the loop does not stop within it. */
  lemma {:induction false} ReachPast(t: Sexp, rest: seq<string>, p: int)
    requires Regular(t) && p >= 1
    ensures Reach(Tokens(t) + rest, p) == Plus(|Tokens(t)|, Reach(rest, p))
    decreases t, 1
  {
    match t
    case Atom(a) => assert (Tokens(t) + rest)[1..] == rest;
    case List(parts) =>
      var close := [")"] + rest;
      assert (Tokens(t) + rest)[1..] == TokensAll(parts) + close;
      ReachPastAll(parts, close, p + 1);
      assert close[1..] == rest;
  }

  lemma {:induction false} ReachPastAll(parts: seq<Sexp>, rest: seq<string>, p: int)
    requires RegularAll(parts) && p >= 1
    ensures Reach(TokensAll(parts) + rest, p) == Plus(|TokensAll(parts)|, Reach(rest, p))
    decreases parts, 0
  {
    if parts == [] {
      assert TokensAll(parts) + rest == rest;
    } else {
      var tail := TokensAll(parts[1..]) + rest;
      assert TokensAll(parts) + rest == Tokens(parts[0]) + tail;
      ReachPast(parts[0], tail, p);
      ReachPastAll(parts[1..], rest, p);
    }
  }

  /** After the opening parenthesis the loop stops exactly at the matching one, whatever follows. */
  lemma StopsAtMatch(parts: seq<Sexp>, rest: seq<string>)
    requires RegularAll(parts)
    ensures Reach(TokensAll(parts) + [")"] + rest, 1) == Some(|TokensAll(parts)| + 1)
    ensures Reach(Tokens(List(parts)) + rest, 0) == Some(|Tokens(List(parts))|)
  {
    var inner := TokensAll(parts) + [")"] + rest;
    assert inner == TokensAll(parts) + ([")"] + rest);
    ReachPastAll(parts, [")"] + rest, 1);
    assert (Tokens(List(parts)) + rest)[1..] == inner;
  }

  // ----- what the tokens are turned into -----

  /** The bytes of one token: escapes in an atom are decoded. */
  function Piece(tok: string): string {
    if Paren(tok) then tok else Encode(Unescaped(tok))
  }

  function Pieces(ts: seq<string>): string {
    if ts == [] then "" else Piece(ts[0]) + Pieces(ts[1..])
  }

  /** The bytes the first pass counts for one token. */
  function Room(tok: string): nat {
    if Paren(tok) then 1 else |tok| + Digits(|tok|) + 1
  }

  function Rooms(ts: seq<string>): nat {
    if ts == [] then 0 else Room(ts[0]) + Rooms(ts[1..])
  }

  lemma {:induction false} PiecesJoin(a: seq<string>, b: seq<string>)
    ensures Pieces(a + b) == Pieces(a) + Pieces(b)
    ensures Rooms(a + b) == Rooms(a) + Rooms(b)
  {
    if a == [] {
      assert a + b == b;
    } else {
      assert (a + b)[1..] == a[1..] + b;
      PiecesJoin(a[1..], b);
    }
  }

  /** The tree with the escapes in its atoms decoded. */
  function Plainly(t: Sexp): Sexp
    decreases t, 1
  {
    match t
    case Atom(a) => Atom(Unescaped(a))
    case List(parts) => List(PlainlyAll(parts))
  }

  function PlainlyAll(parts: seq<Sexp>): seq<Sexp>
    decreases parts, 0
  {
    if parts == [] then [] else [Plainly(parts[0])] + PlainlyAll(parts[1..])
  }

  /** No atom holds a backslash. */
  predicate Bare(t: Sexp)
    decreases t, 1
  {
    match t
    case Atom(a) => '\\' !in a
    case List(parts) => BareAll(parts)
  }

  predicate BareAll(parts: seq<Sexp>)
    decreases parts, 0
  {
    parts == [] || (Bare(parts[0]) && BareAll(parts[1..]))
  }

  lemma {:induction false} PlainlyBare(t: Sexp)
    ensures Bare(t) ==> Plainly(t) == t
    ensures Solid(t) ==> Solid(Plainly(t))
    decreases t, 1
  {
    match t
    case Atom(a) => if '\\' !in a { UnescapedPlain(a); }
    case List(parts) => PlainlyBareAll(parts);
  }

  lemma {:induction false} PlainlyBareAll(parts: seq<Sexp>)
    ensures BareAll(parts) ==> PlainlyAll(parts) == parts
    ensures SolidAll(parts) ==> SolidAll(PlainlyAll(parts))
    decreases parts, 0
  {
    if parts != [] {
      PlainlyBare(parts[0]);
      PlainlyBareAll(parts[1..]);
      assert [parts[0]] + parts[1..] == parts && PlainlyAll(parts)[1..] == PlainlyAll(parts[1..]);
    }
  }

  /** The converted tokens of a tree are the canonical form of the decoded tree. */
  lemma {:induction false} PiecesOfTree(t: Sexp)
    requires Regular(t)
    ensures Pieces(Tokens(t)) == Canonical(Plainly(t))
    decreases t, 1
  {
    match t
    case Atom(a) => assert Pieces([a]) == Piece(a) + Pieces([]);
    case List(parts) =>
      PiecesOfParts(parts);
      PiecesJoin(["("] + TokensAll(parts), [")"]);
      PiecesJoin(["("], TokensAll(parts));
      assert Pieces(["("]) == "(" && Pieces([")"]) == ")";
  }

  lemma {:induction false} PiecesOfParts(parts: seq<Sexp>)
    requires RegularAll(parts)
    ensures Pieces(TokensAll(parts)) == CanonicalAll(PlainlyAll(parts))
    decreases parts, 0
  {
    if parts != [] {
      PiecesOfTree(parts[0]);
      PiecesOfParts(parts[1..]);
      PiecesJoin(Tokens(parts[0]), TokensAll(parts[1..]));
      assert PlainlyAll(parts)[1..] == PlainlyAll(parts[1..]);
    }
  }

  /** What the second pass writes fits what the first pass counted. */
  predicate Fits(ts: seq<string>) {
    ts != [] && ts[0] == "(" && Reach(ts, 0).Some? ==>
      |Pieces(ts[..Reach(ts, 0).value])| <= Rooms(ts[..Reach(ts, 0).value])
  }

  /** Tokens below a million bytes always fit, escapes or not. */
  lemma {:induction false} ShortTokensFit(ts: seq<string>)
    requires forall i :: 0 <= i < |ts| ==> |ts[i]| < 1000000
    ensures |Pieces(ts)| <= Rooms(ts)
  {
    if ts != [] {
      ShortTokensFit(ts[1..]);
      DigitsExactIff(|Unescaped(ts[0])|);
      assert |Piece(ts[0])| <= Room(ts[0]);
    }
  }

  /** Without escapes the first pass never counts too much, and the tokens fit if and only if all are that short. */
  lemma {:induction false} RoomsIff(ts: seq<string>)
    requires forall i :: 0 <= i < |ts| ==> '\\' !in ts[i]
    ensures Rooms(ts) <= |Pieces(ts)|
    ensures |Pieces(ts)| <= Rooms(ts) <==> forall i :: 0 <= i < |ts| ==> |ts[i]| < 1000000
  {
    if ts != [] {
      RoomsIff(ts[1..]);
      UnescapedPlain(ts[0]);
      StoredLength(|ts[0]|);
      assert Room(ts[0]) <= |Piece(ts[0])|;
      assert Room(ts[0]) == |Piece(ts[0])| <==> |ts[0]| < 1000000;
      assert forall i :: 1 <= i < |ts| ==> ts[i] == ts[1..][i - 1];
      assert forall i :: 0 <= i < |ts[1..]| ==> ts[1..][i] == ts[i + 1];
    }
  }

  /** What `chunk2sexp` gives for a token list: nothing if it does not open with a parenthesis or never closes it. */
  function Converted(ts: seq<string>): Option<string> {
    if ts == [] || ts[0] != "(" then None
    else match Reach(ts, 0)
      case None => None
      case Some(n) => Some(Pieces(ts[..n]))
  }

  /** A list converts to the canonical form of its decoded tree; the tokens behind it play no part. */
  lemma ConvertedTree(t: Sexp, rest: seq<string>)
    requires t.List? && Regular(t)
    ensures Converted(Tokens(t) + rest) == Some(Canonical(Plainly(t)))
    ensures Bare(t) ==> Converted(Tokens(t) + rest) == Some(Canonical(t))
  {
    StopsAtMatch(t.parts, rest);
    PiecesOfTree(t);
    PlainlyBare(t);
    assert (Tokens(t) + rest)[..|Tokens(t)|] == Tokens(t);
  }

  /** What the rule file reader makes of a list is what `parse_sexp` takes for the decoded list. */
  lemma ConvertedParses(t: Sexp, rest: seq<string>)
    requires t.List? && Regular(t) && Solid(t)
    ensures var r := Converted(Tokens(t) + rest); r.Some? && Parse(r.value) == Ok(Plainly(t), "")
  {
    ConvertedTree(t, rest);
    PlainlyBare(t);
    ParsePrinted(Plainly(t), "");
    assert Canonical(Plainly(t)) + "" == Canonical(Plainly(t));
  }

  // ----- the linked list of chunks -----

  /** `spocp_chunk_t`. */
  class Chunk {
    const val: string
    var next: Chunk?
    var prev: Chunk?

    constructor (val: string)
      ensures this.val == val && next == null && prev == null
    {
      this.val, next, prev := val, null, null;
    }
  }

  /** The character buffer, seen as the chunks `get_chunk` will still deliver. */
  class Source {
    var pending: seq<string>

    constructor (pending: seq<string>)
      ensures this.pending == pending
    {
      this.pending := pending;
    }

    method GetChunk() returns (np: Chunk?)
      modifies this
      ensures old(pending) == [] <==> np == null
      ensures np == null ==> pending == []
      ensures np != null ==> fresh(np) && np.val == old(pending)[0] && np.next == null && np.prev == null
      ensures np != null ==> pending == old(pending)[1..]
    {
      if pending == [] {
        np := null;
      } else {
        np := new Chunk(pending[0]);
        pending := pending[1..];
      }
    }
  }

  function Vals(chain: seq<Chunk>): (ts: seq<string>)
    ensures |ts| == |chain| && forall i :: 0 <= i < |ts| ==> ts[i] == chain[i].val
  {
    seq(|chain|, i requires 0 <= i < |chain| => chain[i].val)
  }

  /** `chain` is the list of chunks from `c` to the end. */
  ghost predicate Linked(c: Chunk?, chain: seq<Chunk>)
    reads chain
  {
    && c == (if chain == [] then null else chain[0])
    && forall i :: 0 <= i < |chain| ==> chain[i].next == if i + 1 < |chain| then chain[i + 1] else null
  }

  /** Each chunk points back to the one before it, the first one to `pp`. */
  ghost predicate LinkedBack(pp: Chunk?, chain: seq<Chunk>)
    reads chain
  {
    && (chain != [] ==> chain[0].prev == pp)
    && forall i :: 0 < i < |chain| ==> chain[i].prev == chain[i - 1]
  }

  /** `chunk_add`. */
  method ChunkAdd(pp: Chunk?, np: Chunk?) returns (last: Chunk?)
    requires np == null || np != pp
    modifies if pp == null then {} else {pp} + if np == null then {} else {np}
    ensures last == np
    ensures pp != null ==> pp.next == np && pp.prev == old(pp.prev)
    ensures np != null ==> np.next == old(np.next) && np.prev == if pp == null then old(np.prev) else pp
  {
    if pp == null {
      return np;
    }
    pp.next := np;
    if np != null {
      np.prev := pp;
    }
    return pp.next;
  }

  /** The number of tokens `get_sexp` takes: up to the parenthesis that closes the level it starts in, or all. */
  function Taken(ts: seq<string>): (n: nat)
    ensures n <= |ts|
  {
    match Reach(ts, 1)
    case None => |ts|
    case Some(n) => n
  }

  /** A loop that began at depth `from` stands at `par` after `n` tokens; back at zero means it stops there. */
  ghost predicate Scanned(ts: seq<string>, from: int, n: nat, par: int) {
    n <= |ts| && Reach(ts, from) == if n > 0 && par == 0 then Some(n) else Plus(n, Reach(ts[n..], par))
  }

  lemma ScannedMore(ts: seq<string>, from: int, n: nat, par: int)
    requires Scanned(ts, from, n, par) && (n == 0 || par != 0) && n < |ts|
    ensures Scanned(ts, from, n + 1, par + Turn(ts[n]))
  {
    assert ts[n..][1..] == ts[n + 1..];
  }

  lemma ScannedEnd(ts: seq<string>, from: int, n: nat, par: int)
    requires Scanned(ts, from, n, par) && ((n > 0 && par == 0) || n == |ts|)
    ensures Reach(ts, from) == if n > 0 && par == 0 then Some(n) else None
    ensures from == 1 ==> Taken(ts) == n
  {
  }

  /** The chunks hung behind `pp`, in order and linked both ways. */
  ghost predicate Hung(pp: Chunk?, chain: seq<Chunk>)
    reads chain
  {
    && Linked(Head(chain), chain) && LinkedBack(pp, chain)
    && pp !in chain
    && forall i, j :: 0 <= i < j < |chain| ==> chain[i] != chain[j]
  }

  function Head(chain: seq<Chunk>): Chunk? {
    if chain == [] then null else chain[0]
  }

  function Tail(pp: Chunk?, chain: seq<Chunk>): Chunk? {
    if chain == [] then pp else chain[|chain| - 1]
  }

  /** `chunk_add` behind the last chunk of a list. */
  method AddToChain(pp: Chunk?, ghost chain: seq<Chunk>, last: Chunk?, np: Chunk) returns (last': Chunk)
    requires Hung(pp, chain) && last == Tail(pp, chain)
    requires np !in chain && np != pp && np.next == null && np.prev == null
    modifies if last == null then {} else {last}, np
    ensures last' == np && Hung(pp, chain + [np])
    ensures last != null ==> last.prev == old(last.prev) && last.next == np
  {
    last' := ChunkAdd(last, np);
    ghost var chain' := chain + [np];
    assert forall i :: 0 <= i < |chain| ==> chain'[i] == chain[i];
    assert forall i :: 0 <= i < |chain| - 1 ==> chain[i] != last;
    assert Linked(Head(chain'), chain');
    forall i | 0 < i < |chain'| ensures chain'[i].prev == chain'[i - 1] {
      if i < |chain| {
        assert old(chain[i].prev) == chain[i - 1];
      }
    }
  }

  /** One chunk more behind the last one, if there is one to be had. */
  method TakeChunk(ib: Source, pp: Chunk?, ghost added: seq<Chunk>, last: Chunk?)
    returns (np: Chunk?, last': Chunk?, ghost added': seq<Chunk>)
    requires Hung(pp, added) && last == Tail(pp, added)
    modifies ib, if last == null then {} else {last}
    ensures Hung(pp, added') && last' == Tail(pp, added')
    ensures old(ib.pending) == [] ==> np == null && added' == added && ib.pending == []
    ensures old(ib.pending) != [] ==>
      && np != null && fresh(np) && np.val == old(ib.pending)[0]
      && added' == added + [np] && ib.pending == old(ib.pending)[1..]
    ensures pp != null ==>
      pp.prev == old(pp.prev) && pp.next == if added == [] && np != null then np else old(pp.next)
  {
    last', added' := last, added;
    np := ib.GetChunk();
    if np != null {
      var c: Chunk := np;
      last' := AddToChain(pp, added, last, c);
      added' := added + [c];
    }
  }

  /** `get_sexp`: the taken tokens hang behind `pp` as fresh chunks linked both ways; null if the text ran out. */
  method GetSexp(ib: Source, pp: Chunk?) returns (np: Chunk?, ghost added: seq<Chunk>)
    modifies ib, if pp == null then {} else {pp}
    ensures Vals(added) == old(ib.pending)[..Taken(old(ib.pending))]
    ensures ib.pending == old(ib.pending)[Taken(old(ib.pending))..]
    ensures np == null <==> Reach(old(ib.pending), 1).None?
    ensures np != null ==> added != [] && np == added[|added| - 1]
    ensures forall i :: 0 <= i < |added| ==> fresh(added[i])
    ensures Hung(pp, added)
    ensures pp != null ==> pp.prev == old(pp.prev) && pp.next == if added == [] then old(pp.next) else added[0]
  {
    ghost var ts := ib.pending;
    var par, last := 1, pp;
    np, added := null, [];
    assert ts[0..] == ts && Scanned(ts, 1, 0, 1);
    assert Hung(pp, []) && Vals([]) == ts[..0];
    hide Hung, Scanned, Reach, Taken;
    while par != 0
      invariant Scanned(ts, 1, |added|, par) && |added| <= |ts|
      invariant Vals(added) == ts[..|added|] && ib.pending == ts[|added|..]
      invariant last == Tail(pp, added) && np == Tail(null, added)
      invariant par == 0 ==> added != []
      invariant forall i :: 0 <= i < |added| ==> fresh(added[i])
      invariant Hung(pp, added)
      invariant pp != null ==> pp.prev == old(pp.prev) && pp.next == if added == [] then old(pp.next) else added[0]
      decreases |ib.pending|
    {
      if ib.pending != [] { ScannedMore(ts, 1, |added|, par); }
      np, last, added := TakeChunk(ib, pp, added, last);
      if np == null {
        break;
      }
      par := par + Turn(np.val);
    }
    ScannedEnd(ts, 1, |added|, par);
  }

  // ----- conversion in two passes -----

  function At(chain: seq<Chunk>, k: nat): Chunk? {
    if k < |chain| then chain[k] else null
  }

  lemma PiecesMore(ts: seq<string>, k: nat, n: nat)
    requires k < n <= |ts|
    ensures Pieces(ts[..k + 1]) == Pieces(ts[..k]) + Piece(ts[k])
    ensures Rooms(ts[..k + 1]) == Rooms(ts[..k]) + Room(ts[k])
    ensures |Pieces(ts[..k + 1])| <= |Pieces(ts[..n])|
  {
    assert ts[..k + 1] == ts[..k] + [ts[k]];
    PiecesJoin(ts[..k], [ts[k]]);
    assert Pieces([ts[k]]) == Piece(ts[k]) + Pieces([]) && Rooms([ts[k]]) == Room(ts[k]) + Rooms([]);
    assert ts[..n] == ts[..k + 1] + ts[k + 1..n];
    PiecesJoin(ts[..k + 1], ts[k + 1..n]);
  }

  /** One token further in the first pass. */
  lemma MeasuredMore(ts: seq<string>, k: nat, p: int)
    requires Scanned(ts, 0, k, p) && (k == 0 || p != 0) && k < |ts|
    ensures Scanned(ts, 0, k + 1, p + Turn(ts[k])) && Rooms(ts[..k + 1]) == Rooms(ts[..k]) + Room(ts[k])
  {
    hide Scanned, Rooms, Room, Turn, Pieces, Piece;
    ScannedMore(ts, 0, k, p);
    PiecesMore(ts, k, |ts|);
  }

  lemma LinkedNext(c: Chunk?, chain: seq<Chunk>, k: nat)
    requires Linked(c, chain)
    ensures k < |chain| ==> chain[k].next == At(chain, k + 1)
    ensures c == At(chain, 0)
  {
  }

  /** The first pass of `chunk2sexp`. */
  method Measure(c: Chunk, ghost chain: seq<Chunk>) returns (ok: bool, len: nat)
    requires Linked(c, chain)
    ensures ok <==> Reach(Vals(chain), 0).Some?
    ensures ok ==> len == Rooms(Vals(chain)[..Reach(Vals(chain), 0).value])
  {
    ghost var ts, k := Vals(chain), 0;
    var ck: Chunk?, p := c, 0;
    len := 0;
    assert ts[0..] == ts && Scanned(ts, 0, 0, 0);
    LinkedNext(c, chain, 0);
    hide Scanned, Reach, Rooms, Room, Pieces, Vals, Turn, Linked;
    while true
      invariant k <= |chain| && ck == At(chain, k)
      invariant Scanned(ts, 0, k, p) && (k == 0 || p != 0)
      invariant len == Rooms(ts[..k])
      decreases |chain| - k
    {
      if ck == null {
        ScannedEnd(ts, 0, k, p);
        return false, 0;
      }
      LinkedNext(c, chain, k);
      MeasuredMore(ts, k, p);
      len := len + Room(ck.val);
      p := p + Turn(ck.val);
      ck := ck.next;
      k := k + 1;
      if p == 0 {
        ScannedEnd(ts, 0, k, p);
        return true, len;
      }
    }
  }

  lemma ScannedInside(ts: seq<string>, from: int, k: nat, p: int)
    requires Scanned(ts, from, k, p) && (k == 0 || p != 0) && Reach(ts, from).Some?
    ensures k < Reach(ts, from).value
  {
  }

  /** One token of the second pass. */
  method FillOne(buf: array<char>, sp: nat, val: string) returns (sp': nat)
    requires sp + |Piece(val)| <= buf.Length
    modifies buf
    ensures sp' == sp + |Piece(val)| && buf[..sp'] == old(buf[..sp]) + Piece(val)
  {
    if val == "(" || val == ")" {
      Put(buf, sp, val);
      sp' := sp + 1;
    } else {
      var text := Decoded(val);
      hide Unescaped;
      var lf := Print(|text|) + ":";
      Put(buf, sp, lf);
      assert buf[..sp + |lf|] == old(buf[..sp]) + lf;
      sp' := sp + |lf|;
      Put(buf, sp', text);
      sp' := sp' + |text|;
    }
  }

  /** The atom that is copied: decoded if there is a backslash in it. */
  method Decoded(val: string) returns (text: string)
    ensures text == Unescaped(val)
  {
    if '\\' in val {
      var bytes := new char[|val|];
      Put(bytes, 0, val);
      assert bytes[..] == val;
      var _, len := DeEscape(bytes);
      text := bytes[..len];
    } else {
      UnescapedPlain(val);
      text := val;
    }
  }

  /** The second pass of `chunk2sexp`. */
  method Fill(buf: array<char>, c: Chunk, ghost chain: seq<Chunk>) returns (sp: nat)
    requires Linked(c, chain) && Reach(Vals(chain), 0).Some?
    requires |Pieces(Vals(chain)[..Reach(Vals(chain), 0).value])| <= buf.Length
    modifies buf
    ensures sp <= buf.Length && buf[..sp] == Pieces(Vals(chain)[..Reach(Vals(chain), 0).value])
  {
    ghost var ts, k := Vals(chain), 0;
    ghost var n := Reach(ts, 0).value;
    var ck: Chunk?, p := c, 0;
    sp := 0;
    assert ts[0..] == ts && Scanned(ts, 0, 0, 0);
    LinkedNext(c, chain, 0);
    assert ts[..0] == [] && Pieces([]) == "";
    hide Scanned, Reach, Pieces, Piece, Vals, Turn, Linked;
    while true
      invariant k < n && ck == At(chain, k)
      invariant Scanned(ts, 0, k, p) && (k == 0 || p != 0)
      invariant sp <= buf.Length && buf[..sp] == Pieces(ts[..k])
      decreases n - k
    {
      LinkedNext(c, chain, k);
      ScannedMore(ts, 0, k, p);
      PiecesMore(ts, k, n);
      sp := FillOne(buf, sp, ck.val);
      p := p + Turn(ck.val);
      ck := ck.next;
      k := k + 1;
      if p == 0 {
        ScannedEnd(ts, 0, k, p);
        return;
      }
      ScannedInside(ts, 0, k, p);
    }
  }

  /** `chunk2sexp`: `chain` is the list behind `c`. */
  method ChunkToSexp(c: Chunk?, ghost chain: seq<Chunk>) returns (res: Option<string>)
    requires Linked(c, chain)
    requires Fits(Vals(chain))
    ensures res == Converted(Vals(chain))
  {
    if c == null {
      return None;
    }
    if c.val != "(" {
      return None;
    }
    var ok, len := Measure(c, chain);
    if !ok {
      return None;
    }
    var val := new char[len + 1];
    var sp := Fill(val, c, chain);
    val[sp] := '\0';
    res := Some(val[..sp]);
  }

  // ----- reading and converting -----

  /** A loop that starts one level further out stops later. */
  lemma {:induction false} ReachDeeper(ts: seq<string>, p: int)
    requires p >= 1 && Reach(ts, p).Some? && Reach(ts, p + 1).Some?
    ensures Reach(ts, p).value < Reach(ts, p + 1).value
  {
    if p + Turn(ts[0]) != 0 { ReachDeeper(ts[1..], p + Turn(ts[0])); }
  }

  lemma {:induction false} ReachPrefix(ts: seq<string>, m: nat, p: int)
    requires m <= |ts|
    ensures Reach(ts[..m], p) == if Reach(ts, p).Some? && Reach(ts, p).value <= m then Reach(ts, p) else None
  {
    if m > 0 && p + Turn(ts[0]) != 0 {
      assert ts[..m][1..] == ts[1..][..m - 1];
      ReachPrefix(ts[1..], m - 1, p + Turn(ts[0]));
    }
  }

  /** The tokens that `get_sexp` takes decide the conversion. */
  lemma ConvertedTaken(ts: seq<string>)
    ensures Converted(ts[..Taken(ts)]) == Converted(ts)
    ensures Fits(ts) ==> Fits(ts[..Taken(ts)])
  {
    if ts != [] && ts[0] == "(" {
      if Reach(ts[1..], 1).Some? && Reach(ts[1..], 2).Some? { ReachDeeper(ts[1..], 1); }
      ReachPrefix(ts, Taken(ts), 0);
      if Reach(ts, 0).Some? {
        assert Reach(ts, 0).value <= Taken(ts);
        assert ts[..Taken(ts)][..Reach(ts, 0).value] == ts[..Reach(ts, 0).value];
      }
    }
  }

  /** `sexp_normalize` from the chunks of its text on: a list comes out in canonical form, whatever follows it. */
  method Normalize(tokens: seq<string>) returns (res: Option<string>)
    requires Fits(tokens)
    ensures res == Converted(tokens)
  {
    var ib := new Source(tokens);
    var root := new Chunk("");
    var last, added := GetSexp(ib, root);
    ConvertedTaken(tokens);
    res := ChunkToSexp(root.next, added);
  }
}
