/** The output buffer of server/iobuf.c: what it holds, how it grows, and the frames built in it. */
module IoBuf {
  import opened Basics
  import opened Decimal
  import opened Octets
  import Sexp

  const MAXBUF := 262144
  const IOBUFSIZE := 4096
  const CAP := MAXBUF + IOBUFSIZE - 1

  // ----- what the operations do to the contents -----

  /** The written text, the read position, the start `p` of the message under construction, and the size. */
  datatype State = State(text: string, r: nat, p: int, bsize: nat) {
    function Left(): int {
      bsize - 1 - |text|
    }
  }

  predicate Sound(st: State) {
    st.r <= |st.text| < st.bsize <= CAP
  }

  /** The size after `iobuf_resize`, if it agrees to grow. */
  function Grown(bsize: nat, increase: nat): Option<nat> {
    if bsize == MAXBUF then None
    else if increase == 0 then Some(if bsize + IOBUFSIZE > MAXBUF then bsize + MAXBUF else bsize + IOBUFSIZE)
    else if bsize + increase > MAXBUF then None
    else if increase < IOBUFSIZE then Some(bsize + IOBUFSIZE)
    else Some(bsize + increase)
  }

  /** A positive increase never passes the bound; one of 0 does if and only if the usual step would pass the maximum. */
  lemma GrowthBoundIff(bsize: nat, increase: nat)
    requires bsize <= CAP && Grown(bsize, increase).Some?
    ensures bsize < Grown(bsize, increase).value
    ensures Grown(bsize, increase).value <= CAP <==> increase > 0 || bsize + IOBUFSIZE <= MAXBUF
  {
  }

  /** A positive increase is granted up to 262144 bytes in all, in steps of at least 4096. */
  lemma GrowsBy(bsize: nat, increase: nat)
    requires increase > 0
    ensures Grown(bsize, increase).Some? <==> bsize + increase <= 262144
    ensures Grown(bsize, increase).Some? ==> Grown(bsize, increase).value == bsize + Max(increase, 4096)
  {
  }

  /** The state with room for `n` more bytes, grown by what is missing if need be. */
  function Fit(st: State, n: nat): Option<State> {
    if n <= st.Left() then Some(st)
    else match Grown(st.bsize, n - st.Left())
      case None => None
      case Some(size) => Some(st.(bsize := size))
  }

  /** A call succeeds, gives up without touching anything, or goes on through a pointer outside the buffer. */
  datatype Result = Success | Overflow | Dangling

  /** `s` written at the end. */
  function Append(st: State, s: string): (State, Result) {
    match Fit(st, |s|)
    case None => (st, Overflow)
    case Some(st') => (st'.(text := st.text + s), Success)
  }

  /**
   * `src` moved in at `where`; the positions are not adjusted. If the buffer has to grow, `moved` says whether
   * the allocator moved the block: then `where`, which the caller computed before, points into the old one.
   */
  function Insert(st: State, where: int, src: string, moved: bool): (State, Result) {
    if |src| <= st.Left() then Spliced(st, where, src)
    else match Grown(st.bsize, |src|)
      case None => (st, Overflow)
      case Some(size) => if moved then (st.(bsize := size), Dangling) else Spliced(st.(bsize := size), where, src)
  }

  function Spliced(st: State, where: int, src: string): (State, Result) {
    if 0 <= where <= |st.text| then (st.(text := st.text[..where] + src + st.text[where..]), Success)
    else (st, Dangling)
  }

  /** The length field of the message from `p` on; the length is an `unsigned int`. */
  function Tag(st: State): string {
    Print((|st.text| - st.p) % 0x1_0000_0000) + ":"
  }

  /** The message from `p` on is closed with its length in front. */
  function LenTag(st: State, moved: bool): (State, Result) {
    var res := Insert(st, st.p, Tag(st), moved);
    if res.1 == Success then (res.0.(p := |res.0.text|), Success) else res
  }

  predicate White(c: char) {
    c == ' ' || c == '\n' || c == '\t' || c == '\U{0B}' || c == '\r' || c == '\U{0C}'
  }

  /** The first position from `r` on that holds no whitespace. */
  function SkipWhite(text: string, r: nat): (k: nat)
    requires r <= |text|
    ensures r <= k <= |text| && (k < |text| ==> !White(text[k]))
    ensures forall i :: r <= i < k ==> White(text[i])
    decreases |text| - r
  {
    if r < |text| && White(text[r]) then SkipWhite(text, r + 1) else r
  }

  /** The unread text, without leading whitespace, is moved to the front. */
  function Shift(st: State): State
    requires st.r <= |st.text|
  {
    var k := SkipWhite(st.text, st.r);
    if k == |st.text| then Flush(st) else State(st.text[k..], 0, |st.text| - st.p, st.bsize)
  }

  function Flush(st: State): State {
    State("", 0, 0, st.bsize)
  }

  // ----- growth and overflow -----

  /** Appending succeeds exactly as long as the text and its terminator fit the present or the largest size. */
  lemma AppendIff(st: State, s: string)
    requires Sound(st)
    ensures var (st', res) := Append(st, s);
      && Sound(st') && res != Dangling
      && (res == Success <==> |st.text| + |s| + 1 <= st.bsize || |st.text| + |s| + 1 <= MAXBUF)
      && (res == Success ==> st'.text == st.text + s && st'.r == st.r && st'.p == st.p && st.bsize <= st'.bsize)
      && (res == Overflow ==> st' == st)
  {
  }

  /** Inserting gives up earlier: it counts the whole insertion as growth even where part of it would fit. */
  lemma InsertIff(st: State, where: int, src: string, moved: bool)
    requires Sound(st)
    ensures var (st', res) := Insert(st, where, src, moved);
      && Sound(st')
      && (res == Overflow <==> |st.text| + |src| + 1 > st.bsize && st.bsize + |src| > MAXBUF)
      && (res == Success ==>
            && 0 <= where <= |st.text| && st'.text == st.text[..where] + src + st.text[where..]
            && st'.p == st.p && st'.r == st.r)
      && (res == Overflow ==> st' == st)
  {
    assert |src| == 0 ==> |src| <= st.Left();
  }

  /**
   * An insertion can go on through a dangling pointer if and only if it has to grow the buffer and may, or is not
   * refused and was given a place outside the text.
   */
  lemma InsertDanglesIff(st: State, where: int, src: string)
    requires Sound(st)
    ensures (exists moved :: Insert(st, where, src, moved).1 == Dangling) <==>
      || (|src| > st.Left() && st.bsize + |src| <= MAXBUF)
      || (!(0 <= where <= |st.text|) && |src| <= st.Left())
  {
    var grows := |src| > st.Left() && st.bsize + |src| <= MAXBUF;
    assert grows ==> Insert(st, where, src, true).1 == Dangling;
    assert !grows ==> Insert(st, where, src, true).1 == Insert(st, where, src, false).1;
  }

  /** So a length tag inside the text can dangle if and only if it is longer than what is left and growth is granted. */
  lemma TagDanglesIff(st: State)
    requires Sound(st) && 0 <= st.p <= |st.text|
    ensures (exists moved :: LenTag(st, moved).1 == Dangling) <==>
            |Tag(st)| > st.Left() && Grown(st.bsize, |Tag(st)|).Some?
  {
    InsertDanglesIff(st, st.p, Tag(st));
    assert forall moved :: LenTag(st, moved).1 == Insert(st, st.p, Tag(st), moved).1;
  }

  /** No octet string too long for the six-digit macro or the eight-byte length field gets past the size check. */
  lemma OctetRoom(st: State, s: string)
    requires Sound(st)
    ensures var l := |s| + Digits(|s|) + 1;
      && (Fit(st, l).Some? ==> l == |Encode(s)| && Fit(st, l) == Fit(st, |Encode(s)|))
      && (Fit(st, l).Some? ==> Digits(|s|) + 1 <= 7 && (Print(|s|) + ":")[..Digits(|s|) + 1] + s == Encode(s))
      && (Fit(st, l).None? ==> Fit(st, |Encode(s)|).None?)
  {
    Sexp.StoredLength(|s|);
  }

  /** Shifting and flushing keep the buffer sound and lose nothing but read text and whitespace. */
  lemma ShiftKeepsUnread(st: State)
    requires Sound(st)
    ensures Sound(Shift(st)) && Sound(Flush(st))
    ensures var k := |st.text| - |Shift(st).text|;
      && st.r <= k && st.text[k..] == Shift(st).text && forall i :: st.r <= i < k ==> White(st.text[i])
  {
    var k := SkipWhite(st.text, st.r);
    assert st.text[|st.text|..] == "";
    assert |st.text| - |Shift(st).text| == k;
  }

  /** After a shift `p` still marks the same byte if and only if it stood halfway between the cut and the end. */
  lemma ShiftMarkIff(st: State)
    requires Sound(st)
    ensures var k := SkipWhite(st.text, st.r);
      Shift(st).p == st.p - k <==> if k == |st.text| then st.p == k else 2 * st.p == |st.text| + k
  {
  }

  /** It ends up outside the text, where the next length tag follows it, if and only if it lay outside or in the cut. */
  lemma ShiftStraysIff(st: State)
    requires Sound(st)
    ensures var k := SkipWhite(st.text, st.r);
      0 <= Shift(st).p <= |Shift(st).text| <==> k == |st.text| || k <= st.p <= |st.text|
  {
  }

  // ----- any sequence of operations -----

  datatype Op =
    | DoAdd(s: string) | DoAddN(s: string, n: nat) | DoAddOctet(s: string)
    | DoInsert(where: int, src: string, moved: bool) | DoLenTag(moved: bool) | DoShift | DoFlush | DoConsume(n: nat)

  /** What the three adding calls append. */
  function Added(op: Op): string
    requires op.DoAdd? || (op.DoAddN? && op.n <= |op.s|) || op.DoAddOctet?
  {
    match op
    case DoAdd(s) => CString(s)
    case DoAddN(s, n) => if s == [] || s[0] == '\0' then "" else s[..n]
    case DoAddOctet(s) => if s == [] then "" else Encode(s)
  }

  /**
   * What a successful call appends: `iobuf_add` the characters before the first NUL, `iobuf_addn` the first `n`
   * unless the text is empty or starts with a NUL, `iobuf_add_octet` the length in decimal digits, a colon and the
   * string, unless it is empty.
   */
  lemma Appends(st: State, op: Op)
    requires Sound(st) && Enabled(st, op) && Step(st, op).1 == Success
    ensures var text := Step(st, op).0.text;
      match op
      case DoAdd(s) =>
        exists k: nat :: k <= |s| && text == st.text + s[..k] && '\0' !in s[..k] && (k < |s| ==> s[k] == '\0')
      case DoAddN(s, n) => text == if s != [] && s[0] != '\0' then st.text + s[..n] else st.text
      case DoAddOctet(s) =>
        if s == [] then text == st.text
        else exists d :: AllDigits(d) && Value(d) == |s| && d[0] != '0' && text == st.text + d + ":" + s
      case _ => true
  {
    match op
    case DoAdd(s) =>
      var k := |CString(s)|;
      assert s[..k] == CString(s);
    case DoAddN(s, n) =>
      assert st.text + "" == st.text;
    case DoAddOctet(s) =>
      assert st.text + "" == st.text;
      if s != [] {
        var d := Print(|s|);
        PrintValue(|s|);
        NoLeadingZero(|s|);
        assert st.text + (d + ":" + s) == st.text + d + ":" + s;
      }
    case _ =>
  }

  lemma {:induction false} NoLeadingZero(n: nat)
    requires n > 0
    ensures Print(n)[0] != '0'
  {
    if n >= 10 { NoLeadingZero(n / 10); }
  }

  /** The white characters are the space and the codes from 9 to 13. */
  lemma WhiteIff(c: char)
    ensures White(c) <==> c as int == 32 || 9 <= c as int <= 13
  {
  }

  /** What the callers have to see to: they hand over and take away what is there. */
  predicate Enabled(st: State, op: Op) {
    match op
    case DoAddN(s, n) => n <= |s|
    case DoShift => st.r <= |st.text|
    case DoConsume(n) => st.r + n <= |st.text|
    case _ => true
  }

  function Step(st: State, op: Op): (State, Result)
    requires Enabled(st, op)
  {
    match op
    case DoInsert(where, src, moved) => Insert(st, where, src, moved)
    case DoLenTag(moved) => LenTag(st, moved)
    case DoShift => (Shift(st), Success)
    case DoFlush => (Flush(st), Success)
    case DoConsume(n) => (st.(r := st.r + n), Success)
    case _ => Append(st, Added(op))
  }

  /** A run ends in a state, or is lost when a call writes through a dangling pointer. */
  datatype Ending = Good(state: State) | Lost

  predicate Allowed(st: State, ops: seq<Op>)
    decreases |ops|
  {
    ops == [] || (Enabled(st, ops[0]) && (Step(st, ops[0]).1 == Dangling || Allowed(Step(st, ops[0]).0, ops[1..])))
  }

  function Run(st: State, ops: seq<Op>): Ending
    requires Allowed(st, ops)
    decreases |ops|
  {
    if ops == [] then Good(st)
    else if Step(st, ops[0]).1 == Dangling then Lost
    else Run(Step(st, ops[0]).0, ops[1..])
  }

  lemma StepSound(st: State, op: Op)
    requires Sound(st) && Enabled(st, op)
    ensures Sound(Step(st, op).0)
    ensures Step(st, op).1 == Overflow ==> Step(st, op).0 == st
  {
    match op
    case DoInsert(where, src, moved) => InsertIff(st, where, src, moved);
    case DoLenTag(moved) => InsertIff(st, st.p, Tag(st), moved);
    case DoShift => ShiftKeepsUnread(st);
    case DoFlush =>
    case DoConsume(n) =>
    case _ => AppendIff(st, Added(op));
  }

  /** Every run from a new buffer stays within 262144 + 4095 bytes, with room for the terminator. */
  lemma {:induction false} RunSound(st: State, ops: seq<Op>)
    requires Sound(st) && Allowed(st, ops)
    ensures Run(st, ops).Good? ==> Sound(Run(st, ops).state)
    decreases |ops|
  {
    if ops != [] && Step(st, ops[0]).1 != Dangling {
      StepSound(st, ops[0]);
      RunSound(Step(st, ops[0]).0, ops[1..]);
    }
  }

  // ----- frames -----

  /** Messages one after the other, each with its length in front. */
  function Frames(msgs: seq<string>): string {
    if msgs == [] then "" else Encode(msgs[0]) + Frames(msgs[1..])
  }

  lemma {:induction false} FramesSnoc(msgs: seq<string>, m: string)
    ensures Frames(msgs + [m]) == Frames(msgs) + Encode(m)
  {
    if msgs == [] {
      assert msgs + [m] == [m] && Frames([m]) == Encode(m) + Frames([]);
    } else {
      assert (msgs + [m])[1..] == msgs[1..] + [m];
      FramesSnoc(msgs[1..], m);
    }
  }

  /** A client's building: pieces and closings. */
  predicate Building(op: Op) {
    op.DoAdd? || op.DoAddN? || op.DoAddOctet? || op.DoLenTag?
  }

  predicate AllBuilding(ops: seq<Op>) {
    forall i :: 0 <= i < |ops| ==> Building(ops[i])
  }

  /** The closed messages and the open one after a run of building operations, failed calls adding nothing. */
  function Built(st: State, ops: seq<Op>, msgs: seq<string>, open: string): (seq<string>, string)
    requires Allowed(st, ops) && AllBuilding(ops)
    decreases |ops|
  {
    if ops == [] then (msgs, open)
    else
      assert Building(ops[0]) && Enabled(st, ops[0]);
      var (st', res) := Step(st, ops[0]);
      match res
      case Dangling => (msgs, open)
      case Overflow => Built(st', ops[1..], msgs, open)
      case Success =>
        if ops[0].DoLenTag? then Built(st', ops[1..], msgs + [open], "")
        else Built(st', ops[1..], msgs, open + Added(ops[0]))
  }

  predicate Framed(st: State, msgs: seq<string>, open: string) {
    0 <= st.p <= |st.text| && st.text[..st.p] == Frames(msgs) && st.text[st.p..] == open
  }

  lemma TagFramed(st: State, moved: bool, msgs: seq<string>, open: string)
    requires Sound(st) && Framed(st, msgs, open)
    ensures var (st', res) := LenTag(st, moved); res == Success ==> Framed(st', msgs + [open], "")
    ensures var (st', res) := LenTag(st, moved); res == Overflow ==> st' == st
  {
    var tag := Print(|open|) + ":";
    assert tag == Tag(st);
    InsertIff(st, st.p, tag, moved);
    FramesSnoc(msgs, open);
    assert st.text[..st.p] + tag + st.text[st.p..] == Frames(msgs) + Encode(open);
  }

  lemma AppendFramed(st: State, s: string, msgs: seq<string>, open: string)
    requires Sound(st) && Framed(st, msgs, open)
    ensures var (st', res) := Append(st, s);
      (res == Success ==> Framed(st', msgs, open + s)) && (res == Overflow ==> st' == st)
  {
    AppendIff(st, s);
    assert (st.text + s)[..st.p] == st.text[..st.p];
    assert (st.text + s)[st.p..] == st.text[st.p..] + s;
  }

  lemma StepFramed(st: State, op: Op, msgs: seq<string>, open: string)
    requires Sound(st) && Framed(st, msgs, open) && Building(op) && Enabled(st, op)
    ensures var (st', res) := Step(st, op);
      match res
      case Dangling => true
      case Overflow => st' == st
      case Success => if op.DoLenTag? then Framed(st', msgs + [open], "") else Framed(st', msgs, open + Added(op))
  {
    hide Framed, LenTag, Append;
    if op.DoLenTag? {
      TagFramed(st, op.moved, msgs, open);
    } else {
      AppendFramed(st, Added(op), msgs, open);
    }
  }

  /** Unless a tag dangles, the contents are the frames of the closed messages and then the open one. */
  lemma {:induction false} RunFramed(st: State, ops: seq<Op>, msgs: seq<string>, open: string)
    requires Sound(st) && Framed(st, msgs, open) && Allowed(st, ops) && AllBuilding(ops) && Run(st, ops).Good?
    ensures var (msgs', open') := Built(st, ops, msgs, open); Framed(Run(st, ops).state, msgs', open')
    decreases |ops|
  {
    if ops != [] {
      var (st', res) := Step(st, ops[0]);
      StepSound(st, ops[0]);
      StepFramed(st, ops[0], msgs, open);
      if res == Overflow {
        RunFramed(st', ops[1..], msgs, open);
      } else if ops[0].DoLenTag? {
        RunFramed(st', ops[1..], msgs + [open], "");
      } else {
        RunFramed(st', ops[1..], msgs, open + Added(ops[0]));
      }
    }
  }

  /** One length-value tuple: digits, a colon and that many bytes. */
  function TakeLv(s: string): (r: Option<(string, string)>)
    ensures r.Some? ==> |r.value.1| < |s|
  {
    var l := Span(s);
    if l == 0 || l == |s| || s[l] != ':' || |s| - l - 1 < Value(s[..l]) then None
    else
      var n := Value(s[..l]);
      Some((s[l + 1..l + 1 + n], s[l + 1 + n..]))
  }

  /** All tuples of a text. */
  function ReadAll(s: string): Option<seq<string>>
    decreases |s|
  {
    if s == "" then Some([])
    else match TakeLv(s)
      case None => None
      case Some((m, rest)) =>
        (match ReadAll(rest)
         case None => None
         case Some(ms) => Some([m] + ms))
  }

  lemma TakeFrame(m: string, rest: string)
    ensures Encode(m) + rest != "" && TakeLv(Encode(m) + rest) == Some((m, rest))
    ensures m != "" ==> TakeStr(Encode(m) + rest) == Str(m, rest)
    ensures m == "" ==> TakeStr(Encode(m) + rest) == NoStr
  {
    var d, s := Print(|m|), Encode(m) + rest;
    assert s == d + (":" + m + rest);
    SpanPrefix(d, ":" + m + rest);
    assert s[..|d|] == d;
    PrintValue(|m|);
    assert s[|d| + 1..|d| + 1 + |m|] == m && s[|d| + 1 + |m|..] == rest;
  }

  lemma ReadStep(s: string, m: string, rest: string, ms: seq<string>)
    requires s != "" && TakeLv(s) == Some((m, rest)) && ReadAll(rest) == Some(ms)
    ensures ReadAll(s) == Some([m] + ms)
  {
  }

  /** A length-value reader recovers exactly the messages. */
  lemma {:induction false} FramesRead(msgs: seq<string>)
    ensures ReadAll(Frames(msgs)) == Some(msgs)
    decreases |msgs|
  {
    if msgs != [] {
      TakeFrame(msgs[0], Frames(msgs[1..]));
      FramesRead(msgs[1..]);
      hide TakeLv, Encode, ReadAll;
      ReadStep(Frames(msgs), msgs[0], Frames(msgs[1..]), msgs[1..]);
      assert [msgs[0]] + msgs[1..] == msgs;
    }
  }

  /** The messages closed in a run that begins with a new buffer are what a reader of the closed part gets. */
  lemma ClosedMessagesRead(size: nat, ops: seq<Op>)
    requires 1 <= size <= CAP && Allowed(State("", 0, 0, size), ops) && AllBuilding(ops)
    requires Run(State("", 0, 0, size), ops).Good?
    ensures var st := Run(State("", 0, 0, size), ops).state;
      && 0 <= st.p <= |st.text|
      && ReadAll(st.text[..st.p]) == Some(Built(State("", 0, 0, size), ops, [], "").0)
  {
    var st := State("", 0, 0, size);
    RunFramed(st, ops, [], "");
    FramesRead(Built(st, ops, [], "").0);
  }

  /** A message that fills a buffer of 1024 bytes is lost when its tag makes the allocator move the block. */
  lemma TagCanDangle(m: string)
    requires |m| == 1023 && '\0' !in m
    ensures var st, ops := State("", 0, 0, 1024), [DoAdd(m), DoLenTag(true)];
      Allowed(st, ops) && Run(st, ops) == Lost
  {
    var st, ops := State("", 0, 0, 1024), [DoAdd(m), DoLenTag(true)];
    assert CString(m) == m;
    var st1 := Step(st, ops[0]).0;
    assert st1 == State("" + m, 0, 0, 1024);
    assert ops[1..] == [DoLenTag(true)] && |Tag(st1)| > 0;
  }

  /** What a list of building operations may add: every tag has at most seven bytes. */
  function Need(ops: seq<Op>): nat
    requires AllBuilding(ops) && forall i :: 0 <= i < |ops| ==> Enabled(State("", 0, 0, 0), ops[i])
  {
    if ops == [] then 0
    else
      assert Building(ops[0]) && Enabled(State("", 0, 0, 0), ops[0]);
      (if ops[0].DoLenTag? then 7 else |Added(ops[0])|) + Need(ops[1..])
  }

  /** One operation that fits succeeds, with at most that many bytes, and leaves the mark inside the text. */
  lemma RoomyStep(st: State, op: Op)
    requires Sound(st) && 0 <= st.p <= |st.text| && Building(op) && Enabled(st, op)
    requires |st.text| + (if op.DoLenTag? then 7 else |Added(op)|) < st.bsize
    ensures var (st', res) := Step(st, op);
      && res == Success && Sound(st') && 0 <= st'.p <= |st'.text| && st'.bsize == st.bsize
      && |st'.text| <= |st.text| + (if op.DoLenTag? then 7 else |Added(op)|)
  {
    hide LenTag, Append, Sound, Encode, CString;
    if op.DoLenTag? {
      RoomyTag(st, op.moved);
    } else {
      RoomyAppend(st, Added(op));
    }
  }

  lemma RoomyTag(st: State, moved: bool)
    requires Sound(st) && 0 <= st.p <= |st.text| && |st.text| + 7 < st.bsize
    ensures var (st', res) := LenTag(st, moved);
      && res == Success && Sound(st') && 0 <= st'.p <= |st'.text| && st'.bsize == st.bsize
      && |st'.text| <= |st.text| + 7
  {
    DigitsExactIff(|st.text| - st.p);
    hide Print;
    assert |Tag(st)| <= 7;
    InsertIff(st, st.p, Tag(st), moved);
    hide Tag;
  }

  lemma RoomyAppend(st: State, s: string)
    requires Sound(st) && 0 <= st.p <= |st.text| && |st.text| + |s| < st.bsize
    ensures var (st', res) := Append(st, s);
      && res == Success && Sound(st') && 0 <= st'.p <= |st'.text| && st'.bsize == st.bsize
      && |st'.text| <= |st.text| + |s|
  {
    AppendIff(st, s);
  }

  /** A caller that starts with room for everything loses nothing, whatever the allocator does. */
  lemma {:induction false} RoomyRunIsGood(st: State, ops: seq<Op>)
    requires Sound(st) && 0 <= st.p <= |st.text| && AllBuilding(ops)
    requires forall i :: 0 <= i < |ops| ==> Enabled(State("", 0, 0, 0), ops[i])
    requires |st.text| + Need(ops) < st.bsize
    ensures Allowed(st, ops) && Run(st, ops).Good?
    decreases |ops|
  {
    if ops != [] {
      assert Building(ops[0]) && Enabled(State("", 0, 0, 0), ops[0]) && Enabled(st, ops[0]);
      RoomyStep(st, ops[0]);
      hide Step, Sound;
      RoomyRunIsGood(Step(st, ops[0]).0, ops[1..]);
    }
  }

  /** The server's own `get_str` reads a frame back if and only if its message is not empty. */
  lemma ServerReadsIff(m: string, rest: string)
    ensures TakeStr(Encode(m) + rest) == Str(m, rest) <==> m != ""
  {
    TakeFrame(m, rest);
  }

  // ----- the buffer -----

  /** Moving the tail and then copying into the gap inserts. */
  lemma Moved(a: string, where: nat, w: nat, src: string)
    requires where <= w && w + |src| <= |a|
    ensures var b := a[..where + |src|] + a[where..w] + a[w + |src|..];
      (b[..where] + src + b[where + |src|..])[..w + |src|] == a[..w][..where] + src + a[..w][where..]
  {
    var b := a[..where + |src|] + a[where..w] + a[w + |src|..];
    assert b[..where] == a[..w][..where];
    assert b[where + |src|..w + |src|] == a[..w][where..];
    assert b[where + |src|..][..w - where] == b[where + |src|..w + |src|];
  }

  /** `realloc` to a larger size. */
  method Realloc(buf: array<char>, size: nat) returns (tmp: array<char>)
    requires buf.Length <= size
    ensures fresh(tmp) && tmp.Length == size && tmp[..buf.Length] == buf[..]
  {
    tmp := new char[size];
    for i := 0 to buf.Length
      invariant tmp[..i] == buf[..i]
    {
      tmp[i] := buf[i];
    }
  }

  /** `spocp_iobuf_t`, with positions as offsets from the start of `buf`. */
  class Buffer {
    var buf: array<char>
    var r: nat
    var w: nat
    var p: int
    var bsize: nat
    var left: nat

    /** The counters add up and the positions are inside the buffer. */
    ghost predicate Laid()
      reads this, buf
    {
      w + left + 1 == bsize == buf.Length && r <= w
    }

    ghost predicate Valid()
      reads this, buf
    {
      Laid() && Sound(View())
    }

    ghost function View(): State
      requires w <= buf.Length
      reads this, buf
    {
      State(buf[..w], r, p, bsize)
    }

    /** `iobuf_new`. */
    constructor (size: nat)
      requires size >= 1
      ensures Laid() && (size <= CAP ==> Valid()) && fresh(buf) && View() == State("", 0, 0, size) && buf[w] == '\0'
    {
      buf := new char[size](_ => '\0');
      r, w, p := 0, 0, 0;
      left, bsize := size - 1, size;
      new;
      buf[w] := '\0';
    }

    /** `iobuf_resize`. */
    method Resize(increase: nat) returns (ok: bool)
      requires Laid()
      modifies this
      ensures Laid() && (buf == old(buf) || fresh(buf)) && (old(Valid()) && increase > 0 ==> Valid())
      ensures ok == Grown(old(bsize), increase).Some?
      ensures View() == old(View()).(bsize := if ok then Grown(old(bsize), increase).value else old(bsize))
    {
      if bsize == MAXBUF {
        return false;
      }
      var nr := bsize;
      if increase != 0 {
        if bsize + increase > MAXBUF {
          return false;
        } else if increase < IOBUFSIZE {
          bsize := bsize + IOBUFSIZE;
        } else {
          bsize := bsize + increase;
        }
      } else if bsize + IOBUFSIZE > MAXBUF {
        bsize := bsize + MAXBUF;
      } else {
        bsize := bsize + IOBUFSIZE;
      }
      left := left + (bsize - nr);
      var tmp := Realloc(buf, bsize);
      tmp[bsize - 1] := '\0';
      assert tmp[..w] == buf[..w];
      buf := tmp;
      ok := true;
    }

    /** The tail of the adding calls: the bytes, the terminator and the counters. */
    method Write(s: string)
      requires Valid() && |s| <= left
      modifies this, buf
      ensures Valid() && buf == old(buf) && buf[w] == '\0' && left == old(left) - |s|
      ensures View() == old(View()).(text := old(View()).text + s)
    {
      Sexp.Put(buf, w, s);
      assert buf[..w + |s|] == old(buf[..w]) + s;
      w := w + |s|;
      buf[w] := '\0';
      left := left - |s|;
      assert buf[..w] == old(buf[..w]) + s;
    }

    /** A length field and the bytes behind it. */
    method WriteBoth(field: string, s: string)
      requires Valid() && |field| + |s| <= left
      modifies this, buf
      ensures Valid() && buf == old(buf) && buf[w] == '\0'
      ensures View() == old(View()).(text := old(View()).text + (field + s))
    {
      hide Sound;
      Write(field);
      Write(s);
      assert View().text == old(View()).text + (field + s);
    }

    /** The size check in front of the adding calls. */
    method Reserve(n: nat) returns (ok: bool)
      requires Valid()
      modifies this
      ensures Valid() && (buf == old(buf) || fresh(buf))
      ensures ok == Fit(old(View()), n).Some? && (ok ==> n <= left)
      ensures View() == if ok then Fit(old(View()), n).value else old(View())
    {
      ok := true;
      if left < n {
        ok := Resize(n - left);
      }
    }

    /** `iobuf_add`. */
    method Add(s: string) returns (ok: bool)
      requires Valid()
      modifies this, buf
      ensures Valid() && (buf == old(buf) || fresh(buf))
      ensures (View(), if ok then Success else Overflow) == Append(old(View()), CString(s))
    {
      if s == [] || s[0] == '\0' {
        assert old(View()).text + "" == old(View()).text;
        return true;
      }
      var n := |CString(s)|;
      assert s[..n] == CString(s);
      hide CString, Fit;
      ok := Reserve(n);
      if ok {
        Write(s[..n]);
      }
    }

    /** `iobuf_addn`: a leading NUL byte, or nothing to add, is a success that adds nothing. */
    method AddN(s: string, n: nat) returns (ok: bool)
      requires Valid() && n <= |s|
      modifies this, buf
      ensures Valid() && (buf == old(buf) || fresh(buf))
      ensures (View(), if ok then Success else Overflow) == Append(old(View()), Added(DoAddN(s, n)))
    {
      if s == [] || s[0] == '\0' {
        assert old(View()).text + "" == old(View()).text;
        return true;
      }
      hide Fit;
      ok := Reserve(n);
      if ok {
        Write(s[..n]);
      }
    }

    /** `iobuf_add_octet`: the canonical form of the octet string, its length field never cut short. */
    method AddOctet(s: string) returns (ok: bool)
      requires Valid()
      modifies this, buf
      ensures Valid() && (buf == old(buf) || fresh(buf))
      ensures (View(), if ok then Success else Overflow) == Append(old(View()), Added(DoAddOctet(s)))
    {
      if s == [] {
        assert old(View()).text + "" == old(View()).text;
        return true;
      }
      var lf := Digits(|s|) + 1;
      var l := |s| + lf;
      OctetRoom(View(), s);
      hide Fit, Digits, Encode, Print;
      ok := Reserve(l);
      if ok {
        var lenfield := (Print(|s|) + ":")[..lf];
        WriteBoth(lenfield, s);
      }
    }

    /** `iobuf_insert`; `moved` is whether a growth moves the block, after which `where` is a dead pointer. */
    method InsertAt(where: int, src: string, moved: bool) returns (res: Result)
      requires Valid()
      modifies this, buf
      ensures Valid() && (buf == old(buf) || fresh(buf))
      ensures (View(), res) == Insert(old(View()), where, src, moved)
    {
      if left < |src| {
        var ok := Resize(|src|);
        if !ok {
          return Overflow;
        }
        if moved {
          return Dangling;
        }
      }
      if !(0 <= where <= w) {
        return Dangling;
      }
      MoveIn(where, src);
      res := Success;
    }

    /** The move, the copy and the counters of `iobuf_insert`. */
    method MoveIn(where: nat, src: string)
      requires Valid() && where <= w && |src| <= left
      modifies this, buf
      ensures Valid() && buf == old(buf)
      ensures View() == old(View()).(text := old(View().text[..where] + src + View().text[where..]))
    {
      ghost var a := buf[..];
      Moved(a, where, w, src);
      Sexp.Put(buf, where + |src|, buf[where..w]);
      ghost var b := buf[..];
      assert b == a[..where + |src|] + a[where..w] + a[w + |src|..];
      Sexp.Put(buf, where, src);
      assert buf[..] == b[..where] + src + b[where + |src|..];
      w := w + |src|;
      left := left - |src|;
      assert buf[..w] == buf[..][..w];
    }

    /** `iobuf_add_len_tag`. */
    method AddLenTag(moved: bool) returns (res: Result)
      requires Valid()
      modifies this, buf
      ensures Valid() && (buf == old(buf) || fresh(buf))
      ensures (View(), res) == LenTag(old(View()), moved)
    {
      var len := (w - p) % 0x1_0000_0000;
      res := InsertAt(p, Print(len) + ":", moved);
      if res == Success {
        p := w;
      }
    }

    /** `iobuf_shift`. */
    method ShiftText()
      requires Valid()
      modifies this, buf
      ensures Valid() && buf == old(buf) && View() == Shift(old(View())) && buf[w] == '\0'
    {
      while r <= w && White(buf[r])
        invariant r <= w + 1 && w == old(w) && buf == old(buf) && buf[..] == old(buf[..])
        invariant bsize == old(bsize) && p == old(p)
        invariant r <= w ==> SkipWhite(buf[..w], r) == SkipWhite(buf[..w], old(r))
        invariant r > w ==> SkipWhite(buf[..w], old(r)) == w
      {
        r := r + 1;
      }
      if r >= w {
        p, r, w := 0, 0, 0;
        left := bsize - 1;
        buf[w] := '\0';
      } else {
        var len := w - r;
        var last := w - p;
        Sexp.Put(buf, 0, buf[r..w]);
        r := 0;
        w := len;
        p := last;
        left := bsize - len - 1;
        buf[w] := '\0';
      }
    }

    /** `iobuf_flush`. */
    method FlushText()
      requires Valid()
      modifies this, buf
      ensures Valid() && buf == old(buf) && View() == Flush(old(View())) && buf[w] == '\0'
    {
      p, r, w := 0, 0, 0;
      buf[w] := '\0';
      left := bsize - 1;
    }
  }
}
