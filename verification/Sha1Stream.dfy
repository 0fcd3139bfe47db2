/** The streaming implementation in lib/sha1.c, with its `unsigned long` words taken as 64 bits wide. */
module Sha1Stream {
  import opened Sha1Spec

  /** The low 32 bits of the machine word `x` are `w`; the code never looks at the others. */
  predicate Low(x: bv64, w: bv32) {
    (x & 0xFFFF_FFFF) == w as bv64
  }

  /** The macro `S(x,n)` for the three shift counts in use. */
  function S1(x: bv64): bv64 { (x << 1) | ((x & 0xFFFF_FFFF) >> 31) }
  function S5(x: bv64): bv64 { (x << 5) | ((x & 0xFFFF_FFFF) >> 27) }
  function S30(x: bv64): bv64 { (x << 30) | ((x & 0xFFFF_FFFF) >> 2) }

  /** The three definitions of the macro `F`. */
  function FastChoose(x: bv64, y: bv64, z: bv64): bv64 { z ^ (x & (y ^ z)) }
  function FastParity(x: bv64, y: bv64, z: bv64): bv64 { x ^ y ^ z }
  function FastMajority(x: bv64, y: bv64, z: bv64): bv64 { (x & y) | (z & (x | y)) }

  /** The macros `F` and `K` that are in force in round `t`. */
  function FastF(t: nat, x: bv64, y: bv64, z: bv64): bv64 {
    if t < 20 then FastChoose(x, y, z)
    else if t < 40 then FastParity(x, y, z)
    else if t < 60 then FastMajority(x, y, z)
    else FastParity(x, y, z)
  }

  function FastK(t: nat): bv64 {
    if t < 20 then 0x5A827999 else if t < 40 then 0x6ED9EBA1 else if t < 60 then 0x8F1BBCDC else 0xCA62C1D6
  }

  /** C's `+` on two `unsigned long` words. */
  function Plus(x: bv64, y: bv64): bv64 { x + y }

  /** The low half of a machine word. */
  function Lo(x: bv64): bv32 { (x & 0xFFFF_FFFF) as bv32 }

  lemma LowIsLo(x: bv64, w: bv32)
    ensures Low(x, w) <==> w == Lo(x)
  {
  }

  lemma LowPlus(x: bv64, v: bv32, y: bv64, w: bv32)
    requires Low(x, v) && Low(y, w)
    ensures Low(Plus(x, y), Add(v, w))
  {
    hide Low, Lo, Plus, Add;
    LowIsLo(x, v);
    LowIsLo(y, w);
    LoPlus(x, y);
    LowIsLo(Plus(x, y), Add(v, w));
  }

  lemma LoPlus(x: bv64, y: bv64)
    ensures Lo(Plus(x, y)) == Add(Lo(x), Lo(y))
  {
    hide Plus, Add;
    PlusLow(x, y);
  }

  lemma PlusLow(x: bv64, y: bv64)
    ensures (Plus(x, y) & 0xFFFF_FFFF) as bv32 == Add((x & 0xFFFF_FFFF) as bv32, (y & 0xFFFF_FFFF) as bv32)
  {
    PlusBits(x, y, Plus(x, y));
  }

  lemma PlusBits(x: bv64, y: bv64, p: bv64)
    requires p == x + y
    ensures (p & 0xFFFF_FFFF) as bv32 == ((x & 0xFFFF_FFFF) as bv32) + ((y & 0xFFFF_FFFF) as bv32)
  {
  }

  /** The value that the macro `R(t)` stores. */
  function Feed(w3: bv64, w8: bv64, w14: bv64, w16: bv64): bv64 { S1(w3 ^ w8 ^ w14 ^ w16) }

  lemma LowFeed(a: bv64, a': bv32, b: bv64, b': bv32, c: bv64, c': bv32, d: bv64, d': bv32)
    requires Low(a, a') && Low(b, b') && Low(c, c') && Low(d, d')
    ensures Low(Feed(a, b, c, d), Expand(a', b', c', d'))
  {
    XorBits(a, a', b, b', c, c', d, d');
    LowRotate1(a ^ b ^ c ^ d, a' ^ b' ^ c' ^ d');
  }

  lemma XorBits(a: bv64, a': bv32, b: bv64, b': bv32, c: bv64, c': bv32, d: bv64, d': bv32)
    requires Low(a, a') && Low(b, b') && Low(c, c') && Low(d, d')
    ensures Low(a ^ b ^ c ^ d, a' ^ b' ^ c' ^ d')
  {
  }

  lemma LowRotate(x: bv64, v: bv32)
    requires Low(x, v)
    ensures Low(S1(x), Rotl1(v)) && Low(S5(x), Rotl5(v)) && Low(S30(x), Rotl30(v))
  {
    LowRotate1(x, v);
    LowRotate5(x, v);
    LowRotate30(x, v);
  }

  lemma LowRotate1(x: bv64, v: bv32)
    requires Low(x, v)
    ensures Low(S1(x), Rotl1(v))
  {
    hide Low;
    Rotate1Bits(x, v);
  }

  lemma Rotate1Bits(x: bv64, v: bv32)
    requires Low(x, v)
    ensures Low((x << 1) | ((x & 0xFFFF_FFFF) >> 31), (v << 1) | (v >> 31))
  {
  }

  lemma LowRotate5(x: bv64, v: bv32)
    requires Low(x, v)
    ensures Low(S5(x), Rotl5(v))
  {
    hide Low;
    Rotate5Bits(x, v);
  }

  lemma Rotate5Bits(x: bv64, v: bv32)
    requires Low(x, v)
    ensures Low((x << 5) | ((x & 0xFFFF_FFFF) >> 27), (v << 5) | (v >> 27))
  {
  }

  lemma LowRotate30(x: bv64, v: bv32)
    requires Low(x, v)
    ensures Low(S30(x), Rotl30(v))
  {
    hide Low;
    Rotate30Bits(x, v);
  }

  lemma Rotate30Bits(x: bv64, v: bv32)
    requires Low(x, v)
    ensures Low((x << 30) | ((x & 0xFFFF_FFFF) >> 2), (v << 30) | (v >> 2))
  {
  }

  lemma LowChoose(x: bv64, u: bv32, y: bv64, v: bv32, z: bv64, w: bv32)
    requires Low(x, u) && Low(y, v) && Low(z, w)
    ensures Low(FastChoose(x, y, z), Choose(u, v, w))
  {
  }

  lemma LowParity(x: bv64, u: bv32, y: bv64, v: bv32, z: bv64, w: bv32)
    requires Low(x, u) && Low(y, v) && Low(z, w)
    ensures Low(FastParity(x, y, z), Parity(u, v, w))
  {
  }

  lemma LowMajority(x: bv64, u: bv32, y: bv64, v: bv32, z: bv64, w: bv32)
    requires Low(x, u) && Low(y, v) && Low(z, w)
    ensures Low(FastMajority(x, y, z), Majority(u, v, w))
  {
  }

  lemma LowF(t: nat, x: bv64, u: bv32, y: bv64, v: bv32, z: bv64, w: bv32)
    requires Low(x, u) && Low(y, v) && Low(z, w)
    ensures Low(FastF(t, x, y, z), F(t, u, v, w))
  {
    hide Low, FastChoose, FastParity, FastMajority, Choose, Parity, Majority;
    LowChoose(x, u, y, v, z, w);
    LowParity(x, u, y, v, z, w);
    LowMajority(x, u, y, v, z, w);
  }

  lemma LowK(t: nat)
    ensures Low(FastK(t), K(t))
  {
  }

  /** The five variables hold, in their low halves, the registers `r`. */
  predicate Holds(a: bv64, b: bv64, c: bv64, d: bv64, e: bv64, r: Regs) {
    Low(a, r.a) && Low(b, r.b) && Low(c, r.c) && Low(d, r.d) && Low(e, r.e)
  }

  /** The macro `P(a,b,c,d,e,x)` changes only `e` and `b`; read in the order e,a,b,c,d it is one round. */
  method P(t: nat, a: bv64, b: bv64, c: bv64, d: bv64, e: bv64, x: bv64, ghost r: Regs, ghost w: bv32)
    returns (e': bv64, b': bv64)
    requires Holds(a, b, c, d, e, r) && Low(x, w)
    ensures Holds(e', a, b', c, d, Round(t, r, w))
  {
    hide Low, FastTemp, Temp, FastF, FastK, F, K, S5, Rotl5, S30, Rotl30;
    e' := FastTemp(e, S5(a), FastF(t, b, c, d), FastK(t), x);
    b' := S30(b);
    LowRotate(a, r.a);
    LowRotate(b, r.b);
    LowF(t, b, r.b, c, r.c, d, r.d);
    LowK(t);
    LowTemp(S5(a), Rotl5(r.a), FastF(t, b, c, d), F(t, r.b, r.c, r.d), e, r.e, FastK(t), K(t), x, w);
  }

  /** The sum in the macro `P`. */
  function FastTemp(e: bv64, s: bv64, f: bv64, k: bv64, x: bv64): bv64 { e + (s + f + k + x) }

  lemma LowTemp(s: bv64, s': bv32, f: bv64, f': bv32, e: bv64, e': bv32, k: bv64, k': bv32, x: bv64, x': bv32)
    requires Low(s, s') && Low(f, f') && Low(e, e') && Low(k, k') && Low(x, x')
    ensures Low(FastTemp(e, s, f, k, x), Temp(s', f', e', x', k'))
  {
    hide Low, Lo, FastTemp, Temp;
    LowIsLo(s, s');
    LowIsLo(f, f');
    LowIsLo(e, e');
    LowIsLo(k, k');
    LowIsLo(x, x');
    LoTemp(e, s, f, k, x);
    LowIsLo(FastTemp(e, s, f, k, x), Temp(s', f', e', x', k'));
  }

  lemma LoTemp(e: bv64, s: bv64, f: bv64, k: bv64, x: bv64)
    ensures Lo(FastTemp(e, s, f, k, x)) == Temp(Lo(s), Lo(f), Lo(e), Lo(x), Lo(k))
  {
    hide FastTemp, Temp;
    TempLow(e, s, f, k, x);
  }

  lemma TempLow(e: bv64, s: bv64, f: bv64, k: bv64, x: bv64)
    ensures (FastTemp(e, s, f, k, x) & 0xFFFF_FFFF) as bv32 ==
            Temp((s & 0xFFFF_FFFF) as bv32, (f & 0xFFFF_FFFF) as bv32, (e & 0xFFFF_FFFF) as bv32,
                 (x & 0xFFFF_FFFF) as bv32, (k & 0xFFFF_FFFF) as bv32)
  {
    SumBits(e, s, f, k, x, FastTemp(e, s, f, k, x));
  }

  lemma SumBits(e: bv64, s: bv64, f: bv64, k: bv64, x: bv64, sum: bv64)
    requires sum == e + (s + f + k + x)
    ensures (sum & 0xFFFF_FFFF) as bv32 ==
            ((s & 0xFFFF_FFFF) as bv32) + ((f & 0xFFFF_FFFF) as bv32) + ((e & 0xFFFF_FFFF) as bv32) +
            ((x & 0xFFFF_FFFF) as bv32) + ((k & 0xFFFF_FFFF) as bv32)
  {
  }

  /** The circular array holds the sixteen words of the schedule that end before word `t`. */
  predicate Window(w: seq<bv64>, block: seq<byte>, t: nat)
    requires |w| == 16 && |block| == 64
  {
    forall i :: 0 <= i < 16 ==> Low(w[i], Schedule(block, Slot(t, i)))
  }

  /** The number of the word that slot `i` holds before word `t` is computed. */
  function Slot(t: nat, i: nat): (k: nat)
    requires i < 16
    ensures k % 16 == i
  {
    if t <= 16 then i else t - 1 - (t - 1 - i) % 16
  }

  /** The macro `R(t)`, or a plain `W[t]` in the first sixteen rounds. */
  method NextWord(w: array<bv64>, t: nat, ghost block: seq<byte>) returns (x: bv64)
    requires w.Length == 16 && |block| == 64 && Window(w[..], block, if t < 16 then 16 else t)
    modifies w
    ensures Low(x, Schedule(block, t)) && Window(w[..], block, if t < 16 then 16 else t + 1)
  {
    hide Low, Feed, Schedule;
    if t < 16 {
      x := w[t];
    } else {
      WindowStep(w[..], block, t);
      x := Feed(w[(t - 3) % 16], w[(t - 8) % 16], w[(t - 14) % 16], w[t % 16]);
      w[t % 16] := x;
    }
  }

  lemma WindowStep(w: seq<bv64>, block: seq<byte>, t: nat)
    requires |w| == 16 && |block| == 64 && t >= 16 && Window(w, block, t)
    ensures var x := Feed(w[(t - 3) % 16], w[(t - 8) % 16], w[(t - 14) % 16], w[t % 16]);
      Low(x, Schedule(block, t)) && Window(w[t % 16 := x], block, t + 1)
  {
    hide Low, Feed, Expand, Schedule, Window;
    var a, b, c, d := w[(t - 3) % 16], w[(t - 8) % 16], w[(t - 14) % 16], w[t % 16];
    WindowAt(w, block, t, 3);
    WindowAt(w, block, t, 8);
    WindowAt(w, block, t, 14);
    WindowAt(w, block, t, 16);
    assert (t - 16) % 16 == t % 16;
    LowFeed(a, Schedule(block, t - 3), b, Schedule(block, t - 8),
      c, Schedule(block, t - 14), d, Schedule(block, t - 16));
    ScheduleStep(block, t);
    WindowUpdate(w, block, t, Feed(a, b, c, d));
  }

  /** The word `k` places back is where the macro looks for it. */
  lemma WindowAt(w: seq<bv64>, block: seq<byte>, t: nat, k: nat)
    requires |w| == 16 && |block| == 64 && t >= 16 && Window(w, block, t) && 1 <= k <= 16
    ensures Low(w[(t - k) % 16], Schedule(block, t - k))
  {
    hide Low, Schedule;
    SlotOf(t, k);
  }

  lemma ScheduleStep(block: seq<byte>, t: nat)
    requires |block| == 64 && t >= 16
    ensures Schedule(block, t)
         == Expand(Schedule(block, t - 3), Schedule(block, t - 8), Schedule(block, t - 14), Schedule(block, t - 16))
  {
  }

  lemma WindowUpdate(w: seq<bv64>, block: seq<byte>, t: nat, x: bv64)
    requires |w| == 16 && |block| == 64 && t >= 16 && Window(w, block, t) && Low(x, Schedule(block, t))
    ensures Window(w[t % 16 := x], block, t + 1)
  {
    hide Low, Schedule, Slot;
    var w' := w[t % 16 := x];
    forall i | 0 <= i < 16 ensures Low(w'[i], Schedule(block, Slot(t + 1, i))) {
      SlotStep(t, i);
    }
  }

  lemma SlotOf(t: nat, k: nat)
    requires t >= 16 && 1 <= k <= 16
    ensures Slot(t, (t - k) % 16) == t - k
  {
  }

  lemma SlotStep(t: nat, i: nat)
    requires t >= 16 && i < 16
    ensures Slot(t + 1, i) == if i == t % 16 then t else Slot(t, i)
  {
  }

  /** `GET_UINT32`. */
  function FastPack(p: byte, q: byte, r: byte, s: byte): bv64 {
    (s as bv64) | ((r as bv64) << 8) | ((q as bv64) << 16) | ((p as bv64) << 24)
  }

  function GetWord(b: seq<byte>, i: nat): bv64
    requires i + 3 < |b|
  {
    FastPack(b[i], b[i + 1], b[i + 2], b[i + 3])
  }

  lemma LowGetWord(b: seq<byte>, i: nat)
    requires i + 3 < |b|
    ensures Low(GetWord(b, i), Word(b, i))
  {
    hide Low, FastPack, Pack;
    LowPack(b[i], b[i + 1], b[i + 2], b[i + 3]);
  }

  lemma LowPack(p: byte, q: byte, r: byte, s: byte)
    ensures Low(FastPack(p, q, r, s), Pack(p, q, r, s))
  {
  }

  /** Five consecutive `P` macros: the variables change their roles and end up in their own again. */
  method FiveRounds(w: array<bv64>, t: nat, A0: bv64, B0: bv64, C0: bv64, D0: bv64, E0: bv64,
                    ghost block: seq<byte>, ghost h: Regs)
    returns (A: bv64, B: bv64, C: bv64, D: bv64, E: bv64)
    requires w.Length == 16 && |block| == 64 && Window(w[..], block, if t < 16 then 16 else t)
    requires Holds(A0, B0, C0, D0, E0, Rounds(block, h, t))
    modifies w
    ensures Window(w[..], block, if t + 5 < 16 then 16 else t + 5)
    ensures Holds(A, B, C, D, E, Rounds(block, h, t + 5))
  {
    hide Low, Schedule, Round, Window, Slot, Holds;
    A, B, C, D, E := A0, B0, C0, D0, E0;
    var x := NextWord(w, t, block);
    E, B := P(t, A, B, C, D, E, x, Rounds(block, h, t), Schedule(block, t));
    x := NextWord(w, t + 1, block);
    D, A := P(t + 1, E, A, B, C, D, x, Rounds(block, h, t + 1), Schedule(block, t + 1));
    x := NextWord(w, t + 2, block);
    C, E := P(t + 2, D, E, A, B, C, x, Rounds(block, h, t + 2), Schedule(block, t + 2));
    x := NextWord(w, t + 3, block);
    B, D := P(t + 3, C, D, E, A, B, x, Rounds(block, h, t + 3), Schedule(block, t + 3));
    x := NextWord(w, t + 4, block);
    A, C := P(t + 4, B, C, D, E, A, x, Rounds(block, h, t + 4), Schedule(block, t + 4));
  }

  lemma WindowStart(w: seq<bv64>, block: seq<byte>)
    requires |w| == 16 && |block| == 64
    requires forall i :: 0 <= i < 16 ==> w[i] == GetWord(block, 4 * i)
    ensures Window(w, block, 16)
  {
    hide Low, GetWord, Word;
    forall i | 0 <= i < 16 ensures Low(w[i], Schedule(block, Slot(16, i))) {
      LowGetWord(block, 4 * i);
    }
  }

  lemma LowAddAll(a: bv64, b: bv64, c: bv64, d: bv64, e: bv64, r: Regs,
                  a': bv64, b': bv64, c': bv64, d': bv64, e': bv64, r': Regs)
    requires Holds(a, b, c, d, e, r) && Holds(a', b', c', d', e', r')
    ensures Holds(Plus(a, a'), Plus(b, b'), Plus(c, c'), Plus(d, d'), Plus(e, e'),
      Regs(Add(r.a, r'.a), Add(r.b, r'.b), Add(r.c, r'.c), Add(r.d, r'.d), Add(r.e, r'.e)))
  {
    hide Low, Plus, Add;
    LowPlus(a, r.a, a', r'.a);
    LowPlus(b, r.b, b', r'.b);
    LowPlus(c, r.c, c', r'.c);
    LowPlus(d, r.d, d', r'.d);
    LowPlus(e, r.e, e', r'.e);
  }

  predicate StateHolds(s: seq<bv64>, r: Regs) {
    |s| == 5 && Holds(s[0], s[1], s[2], s[3], s[4], r)
  }

  /** The rounds of one choice of the macros `F` and `K`. */
  method TwentyRounds(w: array<bv64>, t: nat, A0: bv64, B0: bv64, C0: bv64, D0: bv64, E0: bv64,
                      ghost block: seq<byte>, ghost h: Regs)
    returns (A: bv64, B: bv64, C: bv64, D: bv64, E: bv64)
    requires w.Length == 16 && |block| == 64 && Window(w[..], block, if t < 16 then 16 else t)
    requires Holds(A0, B0, C0, D0, E0, Rounds(block, h, t))
    modifies w
    ensures Window(w[..], block, t + 20)
    ensures Holds(A, B, C, D, E, Rounds(block, h, t + 20))
  {
    hide Rounds, Window, Holds;
    A, B, C, D, E := FiveRounds(w, t, A0, B0, C0, D0, E0, block, h);
    A, B, C, D, E := FiveRounds(w, t + 5, A, B, C, D, E, block, h);
    A, B, C, D, E := FiveRounds(w, t + 10, A, B, C, D, E, block, h);
    A, B, C, D, E := FiveRounds(w, t + 15, A, B, C, D, E, block, h);
  }

  /** `sha1_process`: one call computes the compression of section 7. */
  method Process(state: array<bv64>, data: seq<byte>, ghost h: Regs)
    requires |data| == 64 && StateHolds(state[..], h)
    modifies state
    ensures StateHolds(state[..], Compress(h, data))
  {
    hide Low, Schedule, Rounds, Window, GetWord, Holds, Plus, Add;
    var w := new bv64[16](i requires 0 <= i < 16 => GetWord(data, 4 * i));
    WindowStart(w[..], data);
    var A, B, C, D, E := state[0], state[1], state[2], state[3], state[4];
    RoundsStart(data, h);
    A, B, C, D, E := TwentyRounds(w, 0, A, B, C, D, E, data, h);
    A, B, C, D, E := TwentyRounds(w, 20, A, B, C, D, E, data, h);
    A, B, C, D, E := TwentyRounds(w, 40, A, B, C, D, E, data, h);
    A, B, C, D, E := TwentyRounds(w, 60, A, B, C, D, E, data, h);
    LowAddAll(state[0], state[1], state[2], state[3], state[4], h, A, B, C, D, E, Rounds(data, h, 80));
    AddToState(state, A, B, C, D, E);
  }

  /** The last five lines of `sha1_process`. */
  method AddToState(state: array<bv64>, A: bv64, B: bv64, C: bv64, D: bv64, E: bv64)
    requires state.Length == 5
    modifies state
    ensures state[..] ==
        old([Plus(state[0], A), Plus(state[1], B), Plus(state[2], C), Plus(state[3], D), Plus(state[4], E)])
  {
    hide Plus;
    state[0] := Plus(state[0], A);
    state[1] := Plus(state[1], B);
    state[2] := Plus(state[2], C);
    state[3] := Plus(state[3], D);
    state[4] := Plus(state[4], E);
  }

  lemma RoundsStart(block: seq<byte>, h: Regs)
    requires |block| == 64
    ensures Rounds(block, h, 0) == h
  {
  }

  // ----- the streaming interface -----

  method Memcpy(dst: array<byte>, off: nat, src: seq<byte>)
    requires off + |src| <= dst.Length
    modifies dst
    ensures dst[..] == old(dst[..off]) + src + old(dst[off + |src|..])
  {
    forall i | 0 <= i < |src| {
      dst[off + i] := src[i];
    }
  }

  /** The high counter word is the upper half of the length in bits of `n` bytes, modulo 2^64. */
  predicate HighExact(total1: nat, n: nat) {
    total1 % TWO32 == (8 * n) / TWO32 % TWO32
  }

  /** `length << 3` on a 64-bit `unsigned long`. */
  function Bits(length: nat): nat {
    8 * length % TWO64
  }

  /** The carry test on line 213 gives the carry of the low counter word. */
  predicate CarrySeen(total0: nat, length: nat) {
    Bits(length) < TWO32 || total0 + Bits(length) % TWO32 >= TWO32
  }

  /** The new values of the counter words, lines 209 to 213. */
  function Count(total0: nat, total1: nat, length: nat): (nat, nat) {
    var low := (total0 + Bits(length)) % TWO64 % TWO32;
    var high := (total1 + length / 0x2000_0000) % TWO64;
    (low, (high + if low < Bits(length) then 1 else 0) % TWO64)
  }

  lemma ModMod(x: int)
    ensures x % TWO64 % TWO32 == x % TWO32
  {
    var q := x / TWO64;
    assert x == x % TWO64 + TWO32 * (TWO32 * q);
    ModShift(x % TWO64, TWO32 * q);
  }

  lemma ModShift(x: int, k: int)
    ensures (x + TWO32 * k) % TWO32 == x % TWO32
  {
  }

  lemma LowCount(total0: nat, total1: nat, n: nat, length: nat)
    requires total0 == 8 * n % TWO32
    ensures Count(total0, total1, length).0 == 8 * (n + length) % TWO32
  {
    ModMod(total0 + Bits(length));
    ModMod(8 * length);
    var a, b := 8 * n / TWO32, 8 * length / TWO64;
    assert total0 + Bits(length) == 8 * (n + length) + TWO32 * (-a - TWO32 * b);
    ModShift(8 * (n + length), -a - TWO32 * b);
  }

  /** The counter stays exact through one call if and only if the carry test sees the carry. */
  lemma HighCount(total0: nat, total1: nat, n: nat, length: nat)
    requires total0 == 8 * n % TWO32 && HighExact(total1, n)
    ensures HighExact(Count(total0, total1, length).1, n + length) <==> CarrySeen(total0, length)
  {
    var bits := Bits(length);
    var low, high := Count(total0, total1, length).0, Count(total0, total1, length).1;
    var c := if low < bits then 1 else 0;
    ModMod(8 * length);
    ModMod(total0 + bits);
    var carry := if total0 + bits % TWO32 >= TWO32 then 1 else 0;
    CarryAdds(8 * n, 8 * length);
    assert 8 * (n + length) == 8 * n + 8 * length && bits % TWO32 == 8 * length % TWO32;
    assert 8 * length / TWO32 == length / 0x2000_0000;
    HighSum(total1, length / 0x2000_0000, c, carry, 8 * n / TWO32);
    assert c == carry <==> CarrySeen(total0, length) by {
      if bits < TWO32 {
        assert bits % TWO32 == bits;
      }
    }
  }

  lemma CarryAdds(x: nat, y: nat)
    ensures (x + y) / TWO32 == x / TWO32 + y / TWO32 + if x % TWO32 + y % TWO32 >= TWO32 then 1 else 0
  {
    assert x == TWO32 * (x / TWO32) + x % TWO32 && y == TWO32 * (y / TWO32) + y % TWO32;
  }

  lemma HighSum(t: nat, k: nat, c: nat, carry: nat, m: nat)
    requires t % TWO32 == m % TWO32 && c <= 1 && carry <= 1
    ensures ((t + k) % TWO64 + c) % TWO64 % TWO32 == (m + k + carry) % TWO32 <==> c == carry
  {
    ModMod((t + k) % TWO64 + c);
    var q, p := (t + k) / TWO64, t / TWO32 - m / TWO32;
    assert (t + k) % TWO64 + c == m + k + c + TWO32 * (p - TWO32 * q);
    ModShift(m + k + c, p - TWO32 * q);
  }

  lemma OffsetInBlock(n: nat)
    ensures 8 * n % TWO32 / 8 % 64 == n % 64
  {
    var q := 8 * n / TWO32;
    assert 8 * n % TWO32 == 8 * (n - 0x2000_0000 * q);
    assert 8 * n % TWO32 / 8 == n - 64 * (0x80_0000 * q);
    assert n % 64 == (n - 64 * (0x80_0000 * q)) % 64;
  }

  /** The registers hold the complete blocks of `m`, and the buffer starts with the incomplete one. */
  ghost predicate Absorbed(state: seq<bv64>, buffer: seq<byte>, m: seq<byte>) {
    && StateHolds(state, Blocks(m, INITIAL))
    && |buffer| == 64 && buffer[..|m| % 64] == m[|m| - |m| % 64..]
  }

  /** `struct sha1_context`; `msg` is the message given to it so far. */
  class Context {
    var total0: nat
    var total1: nat
    const state: array<bv64>
    const buffer: array<byte>
    ghost var msg: seq<byte>

    ghost predicate Valid()
      reads this, state, buffer
    {
      total0 == 8 * |msg| % TWO32 && Absorbed(state[..], buffer[..], msg)
    }

    /** The counter is the length of the message in bits, modulo 2^64. */
    ghost predicate Exact()
      reads this
    {
      HighExact(total1, |msg|)
    }

    /** `sha1_starts`. */
    constructor ()
      ensures Valid() && Exact() && msg == [] && fresh(state) && fresh(buffer)
    {
      total0, total1, msg := 0, 0, [];
      state := new bv64[5] [0x67452301, 0xEFCDAB89, 0x98BADCFE, 0x10325476, 0xC3D2E1F0];
      buffer := new byte[64];
    }

    /** `sha1_update`: the message grows by the input, whatever its length. */
    method Update(input: seq<byte>)
      requires Valid() && |input| < TWO64
      modifies this, state, buffer
      ensures Valid() && msg == old(msg) + input
      ensures old(Exact()) ==> (Exact() <==> CarrySeen(old(total0), |input|))
      ensures (total0, total1) == if input == [] then old((total0, total1)) else old(Count(total0, total1, |input|))
    {
      hide StateHolds, Blocks;
      if |input| == 0 {
        assert msg + input == msg;
        return;
      }
      OffsetInBlock(|msg|);
      var left := total0 / 8 % 64;
      LowCount(total0, total1, |msg|, |input|);
      if Exact() { HighCount(total0, total1, |msg|, |input|); }
      total0, total1 := Count(total0, total1, |input|).0, Count(total0, total1, |input|).1;
      Absorb(state, buffer, msg, left, input);
      msg := msg + input;
    }

    /** `sha1_finish`: the digest of the message with the counter words as its length field. */
    method Finish() returns (digest: seq<byte>)
      requires Valid()
      modifies this, state, buffer
      ensures digest == Output(Blocks(old(msg) + old(Padding(|msg|, total1, total0)), INITIAL))
      ensures old(Exact()) ==> digest == Sha1(old(msg))
    {
      hide Blocks, Be32, StateHolds, Output, Count, CarrySeen;
      ghost var m, high, low := msg, total1, total0;
      var msglen := Be32(total1) + Be32(total0);
      OffsetInBlock(|msg|);
      var last := total0 / 8 % 64;
      var padn := if last < 56 then 56 - last else 120 - last;
      Update(([0x80] + Zeros(63))[..padn]);
      Update(msglen);
      PaddingPieces(m, high, low);
      digest := PutState(state, Blocks(msg, INITIAL));
      if HighExact(high, |m|) {
        ExactPadding(m, high);
      }
    }
  }

  lemma PaddingPieces(m: seq<byte>, high: int, low: int)
    ensures var padn := if |m| % 64 < 56 then 56 - |m| % 64 else 120 - |m| % 64;
      m + ([0x80] + Zeros(63))[..padn] + (Be32(high) + Be32(low)) == m + Padding(|m|, high, low)
  {
    hide Be32;
    var padn := PadLength(|m|);
    assert ([0x80] + Zeros(63))[..padn] == [0x80] + Zeros(padn - 1);
  }

  /** An exact counter is the length field that section 4 asks for. */
  lemma ExactPadding(m: seq<byte>, high: nat)
    requires HighExact(high, |m|)
    ensures m + Padding(|m|, high, 8 * |m| % TWO32) == Padded(m)
  {
    Be32Mod(high);
    Be32Mod(8 * |m| / TWO32);
    HighHalf(8 * |m|);
  }

  /** A counter that is off gives another padding, so the digest is that of another bit string. */
  lemma WrongPadding(m: seq<byte>, high: nat)
    requires !HighExact(high, |m|)
    ensures m + Padding(|m|, high, 8 * |m| % TWO32) != Padded(m)
  {
    hide Be32, PadLength;
    var want, low, k := 8 * |m| % TWO64 / TWO32, 8 * |m| % TWO32, |m| + PadLength(|m|);
    HighHalf(8 * |m|);
    if Be32(high) == Be32(want) { Be32Injective(high, want); }
    PaddingField(m, high, low);
    PaddingField(m, want, low);
  }

  lemma PaddingField(m: seq<byte>, high: int, low: int)
    ensures var k := |m| + PadLength(|m|);
      |m + Padding(|m|, high, low)| == k + 8 && (m + Padding(|m|, high, low))[k..k + 4] == Be32(high)
  {
    hide Be32, PadLength;
  }

  lemma Be32Injective(x: nat, y: nat)
    requires Be32(x) == Be32(y)
    ensures x % TWO32 == y % TWO32
  {
    ByteInjective(x / 0x100_0000, y / 0x100_0000);
    ByteInjective(x / 0x1_0000, y / 0x1_0000);
    ByteInjective(x / 0x100, y / 0x100);
    ByteInjective(x, y);
    Digits256(x);
    Digits256(y);
  }

  lemma ByteInjective(x: int, y: int)
    requires Byte(x) == Byte(y)
    ensures x % 256 == y % 256
  {
    ByteValue(x % 256);
    ByteValue(y % 256);
  }

  lemma ByteValue(k: int)
    requires 0 <= k < 256
    ensures k as byte as int == k
  {
    var b := ByteAt(k);
    ByteBack(b);
  }

  lemma {:induction false} ByteAt(k: int) returns (b: byte)
    requires 0 <= k < 256
    ensures b as int == k
  {
    if k == 0 {
      b := 0;
    } else {
      b := ByteAt(k - 1);
      NextByte(b);
      b := b + 1;
    }
  }

  lemma NextByte(b: byte)
    requires b < 255
    ensures (b + 1) as int == b as int + 1
  {
  }

  lemma ByteBack(b: byte)
    ensures b as int as byte == b
  {
  }

  lemma Digits256(x: nat)
    ensures x % TWO32 ==
        x / 0x100_0000 % 256 * 0x100_0000 + x / 0x1_0000 % 256 * 0x1_0000 + x / 0x100 % 256 * 0x100 + x % 256
  {
    var a := x / 0x100;
    var b := a / 0x100;
    assert x / 0x1_0000 == b && x / 0x100_0000 == b / 0x100;
    assert x == 0x100 * a + x % 0x100 && a == 0x100 * b + a % 0x100;
    assert b == 0x100 * (b / 0x100) + b % 0x100;
    assert b / 0x100 == 0x100 * (x / TWO32) + b / 0x100 % 0x100;
  }

  /** A first call with 2^29 bytes counts one carry too many: the high word is 2 instead of 1. */
  lemma LargePieceMiscounts()
    ensures Count(0, 0, 0x2000_0000) == (0, 2) && HighExact(1, 0x2000_0000) && !HighExact(2, 0x2000_0000)
  {
    assert Bits(0x2000_0000) == TWO32;
  }

  lemma HighHalf(x: nat)
    ensures x % TWO64 / TWO32 == x / TWO32 % TWO32
  {
    var q, r := x / TWO64, x % TWO64;
    assert x == TWO32 * (TWO32 * q) + r;
    assert x / TWO32 == TWO32 * q + r / TWO32;
    assert r / TWO32 < TWO32;
    ModShift(r / TWO32, q);
  }

  lemma Be32Mod(n: nat)
    ensures Be32(n) == Be32(n % TWO32)
  {
    var q, r := n / TWO32, n % TWO32;
    assert n / 0x100_0000 == r / 0x100_0000 + 256 * q;
    assert n / 0x1_0000 == r / 0x1_0000 + 256 * (256 * q);
    assert n / 0x100 == r / 0x100 + 256 * (0x1_0000 * q);
    assert n == r + 256 * (0x100_0000 * q);
    ByteMod(r / 0x100_0000, q);
    ByteMod(r / 0x1_0000, 256 * q);
    ByteMod(r / 0x100, 0x1_0000 * q);
    ByteMod(r, 0x100_0000 * q);
  }

  lemma ByteMod(x: int, k: int)
    ensures Byte(x + 256 * k) == Byte(x)
  {
    assert (x + 256 * k) % 256 == x % 256;
  }

  /** `PUT_UINT32`. */
  function PutWord(n: bv64): seq<byte> {
    [((n >> 24) & 0xFF) as byte, ((n >> 16) & 0xFF) as byte, ((n >> 8) & 0xFF) as byte, (n & 0xFF) as byte]
  }

  lemma LowBytes(x: bv64, w: bv32)
    requires Low(x, w)
    ensures PutWord(x) == BytesOf(w)
  {
    LowByteBits(x, w);
  }

  lemma LowByteBits(x: bv64, w: bv32)
    requires (x & 0xFFFF_FFFF) == w as bv64
    ensures ((x >> 24) & 0xFF) as byte == ((w >> 24) & 0xFF) as byte
    ensures ((x >> 16) & 0xFF) as byte == ((w >> 16) & 0xFF) as byte
    ensures ((x >> 8) & 0xFF) as byte == ((w >> 8) & 0xFF) as byte
    ensures (x & 0xFF) as byte == (w & 0xFF) as byte
  {
  }

  /** The last five lines of `sha1_finish`. */
  method PutState(state: array<bv64>, ghost r: Regs) returns (digest: seq<byte>)
    requires StateHolds(state[..], r)
    ensures digest == Output(r)
  {
    hide Low, PutWord, BytesOf;
    digest := PutWord(state[0]) + PutWord(state[1]) + PutWord(state[2]) + PutWord(state[3]) + PutWord(state[4]);
    LowBytes(state[0], r.a);
    LowBytes(state[1], r.b);
    LowBytes(state[2], r.c);
    LowBytes(state[3], r.d);
    LowBytes(state[4], r.e);
  }

  function Concat(pieces: seq<seq<byte>>): seq<byte> {
    if pieces == [] then [] else Concat(pieces[..|pieces| - 1]) + pieces[|pieces| - 1]
  }

  lemma ConcatSteps(pieces: seq<seq<byte>>)
    ensures Concat(pieces[..0]) == []
    ensures forall k :: 0 <= k < |pieces| ==> Concat(pieces[..k + 1]) == Concat(pieces[..k]) + pieces[k]
  {
    forall k | 0 <= k < |pieces| ensures Concat(pieces[..k + 1]) == Concat(pieces[..k]) + pieces[k] {
      assert pieces[..k + 1][..k] == pieces[..k];
    }
  }

  /** Below 2^29 bytes the carry test is always right. */
  lemma SmallPiece(total0: nat, length: nat)
    requires length < 0x2000_0000
    ensures CarrySeen(total0, length)
  {
  }

  /** However a message is cut into calls of less than 2^29 bytes, the digest is that of the whole. */
  method Digest(pieces: seq<seq<byte>>) returns (digest: seq<byte>)
    requires forall i :: 0 <= i < |pieces| ==> |pieces[i]| < 0x2000_0000
    ensures digest == Sha1(Concat(pieces))
  {
    hide Sha1, Count, CarrySeen, HighExact, Absorbed, Concat, Blocks, Padding;
    var ctx := new Context();
    ConcatSteps(pieces);
    for k := 0 to |pieces|
      invariant ctx.Valid() && ctx.Exact() && ctx.msg == Concat(pieces[..k])
      invariant fresh(ctx) && fresh(ctx.state) && fresh(ctx.buffer)
    {
      SmallPiece(ctx.total0, |pieces[k]|);
      ctx.Update(pieces[k]);
    }
    assert pieces[..|pieces|] == pieces;
    digest := ctx.Finish();
  }

  /** The first `c` bytes of `whole` are in the registers; the others are in the input from `i` on. */
  ghost predicate Taken(state: seq<bv64>, buffer: seq<byte>, msg: seq<byte>, input: seq<byte>,
                        left: nat, i: nat, c: nat)
  {
    && c % 64 == 0 && c <= |msg + input| && i <= |input| && |buffer| == 64
    && StateHolds(state, Blocks((msg + input)[..c], INITIAL))
    && (left == 0 ==> c == |msg| + i)
    && (left > 0 ==> c + left == |msg| && i == 0 && left + |input| < 64 && buffer[..left] == msg[c..])
  }

  /** Lines 215 to 221 of `sha1_update`: complete the buffered block. */
  method FillBuffer(state: array<bv64>, buffer: array<byte>, ghost msg: seq<byte>, left0: nat, input: seq<byte>)
    returns (left: nat, i: nat, ghost c: nat)
    requires Absorbed(state[..], buffer[..], msg) && left0 == |msg| % 64
    modifies state, buffer
    ensures Taken(state[..], buffer[..], msg, input, left, i, c)
  {
    hide StateHolds, Blocks;
    c := |msg| - |msg| % 64;
    ghost var whole := msg + input;
    left, i := left0, 0;
    var fill := 64 - left;
    BlocksTail(msg, c, INITIAL);
    assert whole[..c] == msg[..c];
    if left > 0 && |input| >= fill {
      assert whole[c..c + 64] == msg[c..] + input[..fill];
      Memcpy(buffer, left, input[..fill]);
      assert buffer[..] == msg[c..] + input[..fill];
      Process(state, buffer[..], Blocks(whole[..c], INITIAL));
      BlocksNext(whole, c, INITIAL);
      left, i, c := 0, fill, c + 64;
    }
  }

  /** Lines 223 to 227 of `sha1_update`: take whole blocks straight from the input. */
  method TakeBlocks(state: array<bv64>, buffer: array<byte>, ghost msg: seq<byte>, ghost left: nat,
                    i0: nat, ghost c0: nat, input: seq<byte>)
    returns (i: nat, ghost c: nat)
    requires Taken(state[..], buffer[..], msg, input, left, i0, c0)
    modifies state
    ensures Taken(state[..], buffer[..], msg, input, left, i, c) && |input| - i < 64
  {
    hide StateHolds, Blocks;
    i, c := i0, c0;
    while |input| - i >= 64
      invariant Taken(state[..], buffer[..], msg, input, left, i, c)
    {
      assert input[i..i + 64] == (msg + input)[c..c + 64];
      Process(state, input[i..i + 64], Blocks((msg + input)[..c], INITIAL));
      BlocksNext(msg + input, c, INITIAL);
      i, c := i + 64, c + 64;
    }
  }

  /** Lines 215 to 231 of `sha1_update`: complete the buffered block, take whole blocks, keep the rest. */
  method Absorb(state: array<bv64>, buffer: array<byte>, ghost msg: seq<byte>, left0: nat, input: seq<byte>)
    requires Absorbed(state[..], buffer[..], msg) && left0 == |msg| % 64
    modifies state, buffer
    ensures Absorbed(state[..], buffer[..], msg + input)
  {
    hide StateHolds, Blocks;
    var left, i, c := FillBuffer(state, buffer, msg, left0, input);
    i, c := TakeBlocks(state, buffer, msg, left, i, c, input);
    KeepRest(buffer, msg, left, i, c, input);
    BlockRemainder(c, |msg + input| - c);
    BlocksTail(msg + input, c, INITIAL);
  }

  /** Lines 229 to 231 of `sha1_update`: the rest of the input goes into the buffer. */
  method KeepRest(buffer: array<byte>, ghost msg: seq<byte>, left: nat, i: nat, ghost c: nat, input: seq<byte>)
    requires buffer.Length == 64 && i <= |input| < i + 64 && c <= |msg + input|
    requires left == 0 ==> c == |msg| + i
    requires left > 0 ==> c + left == |msg| && i == 0 && left + |input| < 64 && buffer[..left] == msg[c..]
    modifies buffer
    ensures |msg + input| - c < 64 && buffer[..|msg + input| - c] == (msg + input)[c..]
  {
    assert (msg + input)[c..] == (if left == 0 then input[i..] else msg[c..] + input);
    if |input| - i > 0 {
      Memcpy(buffer, left, input[i..]);
    }
  }

  lemma BlockRemainder(c: nat, r: nat)
    requires c % 64 == 0 && r < 64
    ensures (c + r) % 64 == r
  {
  }
}
