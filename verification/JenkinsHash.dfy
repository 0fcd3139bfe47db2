/** The word mixer and the byte hash of lib/hashfunc.c. */
module JenkinsHash {
  import opened Basics

  const WORDS: int := 0x1_0000_0000

  type Byte = x: int | 0 <= x < 256
  /** An `unsigned int` of 32 bits. */
  type Word = x: int | 0 <= x < WORDS

  /** The three registers. */
  datatype Regs = Regs(a: Word, b: Word, c: Word)

  const GOLDEN: Word := 0x9e3779b9

  // ----- the operators of C on `unsigned int` -----

  function Plus(x: Word, y: Word): Word { (x + y) % WORDS }
  function Minus(x: Word, y: Word): Word { (x - y) % WORDS }
  function Shr(x: Word, k: nat): Word { if k == 0 then x else Shr(x / 2, k - 1) }
  function Shl(x: Word, k: nat): Word decreases k { if k == 0 then x else Shl((2 * x) % WORDS, k - 1) }
  function Xor(x: Word, y: Word): Word { Pow32(); XorBits(x, y, 32) }

  lemma Pow32()
    ensures Pow2(32) == WORDS
  {
    assert Pow2(8) == 256;
    assert Pow2(16) == 65536;
    assert Pow2(24) == 16777216;
  }

  function XorBit(b: nat, t: nat): (r: nat)
    ensures r < 2
  {
    if b == t then 0 else 1
  }

  /** Exclusive or, bit by bit from the lowest. */
  function XorBits(x: nat, y: nat, n: nat): (r: nat)
    requires x < Pow2(n) && y < Pow2(n)
    ensures r < Pow2(n)
  {
    if n == 0 then 0 else XorBit(x % 2, y % 2) + 2 * XorBits(x / 2, y / 2, n - 1)
  }

  lemma Halves(bit: nat, rest: nat)
    requires bit < 2
    ensures (bit + 2 * rest) % 2 == bit && (bit + 2 * rest) / 2 == rest
  {
  }

  lemma {:induction false} XorBitsTwice(x: nat, t: nat, n: nat)
    requires x < Pow2(n) && t < Pow2(n)
    ensures XorBits(XorBits(x, t, n), t, n) == x
  {
    if n > 0 {
      var bit, rest := XorBit(x % 2, t % 2), XorBits(x / 2, t / 2, n - 1);
      Halves(bit, rest);
      XorBitsTwice(x / 2, t / 2, n - 1);
      assert XorBit(bit, t % 2) == x % 2;
    }
  }

  lemma XorTwice(x: Word, t: Word)
    ensures Xor(Xor(x, t), t) == x
  {
    Pow32();
    XorBitsTwice(x, t, 32);
  }

  lemma MinusPlus(x: Word, y: Word)
    ensures Plus(Minus(x, y), y) == x
    ensures Minus(Plus(x, y), y) == x
  {
  }

  // ----- one word update and its inverse -----

  /** `x -= y; x -= z; x ^= t`. */
  function Take(x: Word, y: Word, z: Word, t: Word): Word {
    Xor(Minus(Minus(x, y), z), t)
  }

  function Give(x: Word, y: Word, z: Word, t: Word): Word {
    Plus(Plus(Xor(x, t), z), y)
  }

  lemma TakeGive(x: Word, y: Word, z: Word, t: Word)
    ensures Give(Take(x, y, z, t), y, z, t) == x
    ensures Take(Give(x, y, z, t), y, z, t) == x
  {
    hide Plus, Minus, Xor;
    XorTwice(Minus(Minus(x, y), z), t);
    MinusPlus(Minus(x, y), z);
    MinusPlus(x, y);
    MinusPlus(Plus(Xor(x, t), z), y);
    MinusPlus(Xor(x, t), z);
    XorTwice(x, t);
  }

  // ----- the mixer -----

  /** One of the three lines of `mix`: right, left and right by the given amounts. */
  function Line(s: Regs, p: nat, q: nat, r: nat): Regs
    requires p < 32 && q < 32 && r < 32
  {
    var a := Take(s.a, s.b, s.c, Shr(s.c, p));
    var b := Take(s.b, s.c, a, Shl(a, q));
    var c := Take(s.c, a, b, Shr(b, r));
    Regs(a, b, c)
  }

  function Unline(s: Regs, p: nat, q: nat, r: nat): Regs
    requires p < 32 && q < 32 && r < 32
  {
    var c := Give(s.c, s.a, s.b, Shr(s.b, r));
    var b := Give(s.b, c, s.a, Shl(s.a, q));
    var a := Give(s.a, b, c, Shr(c, p));
    Regs(a, b, c)
  }

  lemma LineInverse(s: Regs, p: nat, q: nat, r: nat)
    requires p < 32 && q < 32 && r < 32
    ensures Unline(Line(s, p, q, r), p, q, r) == s
    ensures Line(Unline(s, p, q, r), p, q, r) == s
  {
    hide Take, Give, Shr, Shl;
    var l := Line(s, p, q, r);
    TakeGive(s.c, l.a, l.b, Shr(l.b, r));
    TakeGive(s.b, s.c, l.a, Shl(l.a, q));
    TakeGive(s.a, s.b, s.c, Shr(s.c, p));
    var u := Unline(s, p, q, r);
    TakeGive(s.a, u.b, u.c, Shr(u.c, p));
    TakeGive(s.b, u.c, s.a, Shl(s.a, q));
    TakeGive(s.c, s.a, s.b, Shr(s.b, r));
  }

  function Mix(s: Regs): Regs {
    Line(Line(Line(s, 13, 8, 13), 12, 16, 5), 3, 10, 15)
  }

  function Unmix(s: Regs): Regs {
    Unline(Unline(Unline(s, 3, 10, 15), 12, 16, 5), 13, 8, 13)
  }

  /** "Mix three 32-bit values reversibly": a bijection on triples of words. */
  lemma MixBijective(s: Regs)
    ensures Unmix(Mix(s)) == s
    ensures Mix(Unmix(s)) == s
  {
    hide Line, Unline;
    var s1 := Line(s, 13, 8, 13);
    var s2 := Line(s1, 12, 16, 5);
    LineInverse(s, 13, 8, 13);
    LineInverse(s1, 12, 16, 5);
    LineInverse(s2, 3, 10, 15);
    var u2 := Unline(s, 3, 10, 15);
    var u1 := Unline(u2, 12, 16, 5);
    LineInverse(s, 3, 10, 15);
    LineInverse(u2, 12, 16, 5);
    LineInverse(u1, 13, 8, 13);
  }

  lemma MixInjective(s: Regs, t: Regs)
    requires Mix(s) == Mix(t)
    ensures s == t
  {
    hide Mix, Unmix;
    MixBijective(s);
    MixBijective(t);
  }

  /** The `mix` macro as the sequence of updates it is. */
  method MixWords(s: Regs) returns (m: Regs)
    ensures m == Mix(s)
  {
    var a, b, c := s.a, s.b, s.c;
    hide Minus, Xor, Shr, Shl;
    a := Minus(a, b); a := Minus(a, c); a := Xor(a, Shr(c, 13));
    b := Minus(b, c); b := Minus(b, a); b := Xor(b, Shl(a, 8));
    c := Minus(c, a); c := Minus(c, b); c := Xor(c, Shr(b, 13));
    ghost var s1 := Regs(a, b, c);
    assert s1 == Line(s, 13, 8, 13);
    a := Minus(a, b); a := Minus(a, c); a := Xor(a, Shr(c, 12));
    b := Minus(b, c); b := Minus(b, a); b := Xor(b, Shl(a, 16));
    c := Minus(c, a); c := Minus(c, b); c := Xor(c, Shr(b, 5));
    ghost var s2 := Regs(a, b, c);
    assert s2 == Line(s1, 12, 16, 5);
    a := Minus(a, b); a := Minus(a, c); a := Xor(a, Shr(c, 3));
    b := Minus(b, c); b := Minus(b, a); b := Xor(b, Shl(a, 10));
    c := Minus(c, a); c := Minus(c, b); c := Xor(c, Shr(b, 15));
    m := Regs(a, b, c);
    assert m == Line(s2, 3, 10, 15);
  }

  // ----- bytes into words -----

  /** Four bytes, the first one lowest. */
  function Pack(k0: Byte, k1: Byte, k2: Byte, k3: Byte): Word {
    k0 + k1 * 0x100 + k2 * 0x10000 + k3 * 0x1000000
  }

  lemma PackInjective(k0: Byte, k1: Byte, k2: Byte, k3: Byte, l0: Byte, l1: Byte, l2: Byte, l3: Byte)
    requires Pack(k0, k1, k2, k3) == Pack(l0, l1, l2, l3)
    ensures k0 == l0 && k1 == l1 && k2 == l2 && k3 == l3
  {
    Digit(k0, k1 + k2 * 0x100 + k3 * 0x10000, l0, l1 + l2 * 0x100 + l3 * 0x10000);
    Digit(k1, k2 + k3 * 0x100, l1, l2 + l3 * 0x100);
    Digit(k2, k3, l2, l3);
  }

  lemma Digit(k: Byte, rest: nat, l: Byte, rest': nat)
    requires k + 0x100 * rest == l + 0x100 * rest'
    ensures k == l && rest == rest'
  {
  }

  lemma PlusInjective(x: Word, y: Word, w: Word, v: Word)
    requires Plus(x, w) == Plus(y, v)
    ensures x == y <==> w == v
  {
  }

  /** A block of twelve bytes added to the registers. */
  function Absorb(s: Regs, k: seq<Byte>): Regs
    requires |k| == 12
  {
    Regs(Plus(s.a, Pack(k[0], k[1], k[2], k[3])),
         Plus(s.b, Pack(k[4], k[5], k[6], k[7])),
         Plus(s.c, Pack(k[8], k[9], k[10], k[11])))
  }

  /** Different registers or different blocks, but not both, stay different. */
  lemma AbsorbInjective(s: Regs, t: Regs, k: seq<Byte>, l: seq<Byte>)
    requires |k| == |l| == 12 && (s == t || k == l) && Absorb(s, k) == Absorb(t, l)
    ensures s == t && k == l
  {
    hide Plus, Pack;
    PlusInjective(s.a, t.a, Pack(k[0], k[1], k[2], k[3]), Pack(l[0], l[1], l[2], l[3]));
    PlusInjective(s.b, t.b, Pack(k[4], k[5], k[6], k[7]), Pack(l[4], l[5], l[6], l[7]));
    PlusInjective(s.c, t.c, Pack(k[8], k[9], k[10], k[11]), Pack(l[8], l[9], l[10], l[11]));
    if s == t {
      PackInjective(k[0], k[1], k[2], k[3], l[0], l[1], l[2], l[3]);
      PackInjective(k[4], k[5], k[6], k[7], l[4], l[5], l[6], l[7]);
      PackInjective(k[8], k[9], k[10], k[11], l[8], l[9], l[10], l[11]);
      assert k == l;
    }
  }

  /** The whole blocks of a key, one after the other. */
  function Blocks(s: Regs, k: seq<Byte>): Regs
    decreases |k|
  {
    if |k| < 12 then s else Blocks(Mix(Absorb(s, k[..12])), k[12..])
  }

  /** A byte of the tail, zero where the tail is shorter. */
  function Pad(t: seq<Byte>, i: nat): Byte {
    if i < |t| then t[i] else 0
  }

  /** The last bytes and the length; the lowest byte of `c` is left to the length. */
  function Tail(s: Regs, t: seq<Byte>, length: Word): Regs {
    Regs(Plus(s.a, Pack(Pad(t, 0), Pad(t, 1), Pad(t, 2), Pad(t, 3))),
         Plus(s.b, Pack(Pad(t, 4), Pad(t, 5), Pad(t, 6), Pad(t, 7))),
         Plus(Plus(s.c, length), Pack(0, Pad(t, 8), Pad(t, 9), Pad(t, 10))))
  }

  lemma TailInjective(s: Regs, s': Regs, t: seq<Byte>, t': seq<Byte>, n: Word)
    requires |t| == |t'| < 12 && (s == s' || t == t') && Tail(s, t, n) == Tail(s', t', n)
    ensures s == s' && t == t'
  {
    hide Plus, Pack;
    PlusInjective(s.a, s'.a,
      Pack(Pad(t, 0), Pad(t, 1), Pad(t, 2), Pad(t, 3)),
      Pack(Pad(t', 0), Pad(t', 1), Pad(t', 2), Pad(t', 3)));
    PlusInjective(s.b, s'.b,
      Pack(Pad(t, 4), Pad(t, 5), Pad(t, 6), Pad(t, 7)),
      Pack(Pad(t', 4), Pad(t', 5), Pad(t', 6), Pad(t', 7)));
    PlusInjective(Plus(s.c, n), Plus(s'.c, n),
      Pack(0, Pad(t, 8), Pad(t, 9), Pad(t, 10)),
      Pack(0, Pad(t', 8), Pad(t', 9), Pad(t', 10)));
    if s == s' {
      PackInjective(Pad(t, 0), Pad(t, 1), Pad(t, 2), Pad(t, 3), Pad(t', 0), Pad(t', 1), Pad(t', 2), Pad(t', 3));
      PackInjective(Pad(t, 4), Pad(t, 5), Pad(t, 6), Pad(t, 7), Pad(t', 4), Pad(t', 5), Pad(t', 6), Pad(t', 7));
      PackInjective(0, Pad(t, 8), Pad(t, 9), Pad(t, 10), 0, Pad(t', 8), Pad(t', 9), Pad(t', 10));
      assert t == t';
    } else {
      PlusInjective(s.c, s'.c, n, n);
    }
  }

  /** A key whose length an `unsigned int` can hold. */
  predicate Key(k: seq<Byte>) {
    |k| < WORDS
  }

  /** The registers after the last `mix`. */
  function Reached(k: seq<Byte>, initval: Word): Regs
    requires Key(k)
  {
    Mix(Tail(Blocks(Regs(GOLDEN, GOLDEN, initval), k), k[|k| - |k| % 12..], |k|))
  }

  // ----- difference survives -----

  lemma {:induction false} BlocksInjective(s: Regs, t: Regs, k: seq<Byte>)
    requires Blocks(s, k) == Blocks(t, k)
    ensures s == t
    decreases |k|
  {
    if |k| >= 12 {
      hide Mix, Absorb;
      BlocksInjective(Mix(Absorb(s, k[..12])), Mix(Absorb(t, k[..12])), k[12..]);
      MixInjective(Absorb(s, k[..12]), Absorb(t, k[..12]));
      AbsorbInjective(s, t, k[..12], k[..12]);
    }
  }

  /** Two keys differ, and only within block `j`. */
  ghost predicate DifferInBlock(k: seq<Byte>, l: seq<Byte>, j: nat) {
    && |k| == |l| && 12 * j + 12 <= |k|
    && k[..12 * j] == l[..12 * j] && k[12 * j + 12..] == l[12 * j + 12..]
    && k[12 * j..12 * j + 12] != l[12 * j..12 * j + 12]
  }

  lemma {:induction false} BlocksDiffer(s: Regs, k: seq<Byte>, l: seq<Byte>, j: nat)
    requires DifferInBlock(k, l, j)
    ensures Blocks(s, k) != Blocks(s, l)
    decreases j
  {
    hide Mix, Absorb;
    var k', l' := k[12..], l[12..];
    var s1, s2 := Mix(Absorb(s, k[..12])), Mix(Absorb(s, l[..12]));
    if j == 0 {
      assert k' == l' && k[..12] == k[0..12] && l[..12] == l[0..12];
      if s1 == s2 {
        MixInjective(Absorb(s, k[..12]), Absorb(s, l[..12]));
        AbsorbInjective(s, s, k[..12], l[..12]);
        assert false;
      }
      if Blocks(s1, k') == Blocks(s2, k') { BlocksInjective(s1, s2, k'); }
    } else {
      assert k[..12] == k[..12 * j][..12] && l[..12] == l[..12 * j][..12];
      DifferNext(k, l, j);
      BlocksDiffer(s1, k', l', j - 1);
    }
  }

  lemma DifferNext(k: seq<Byte>, l: seq<Byte>, j: nat)
    requires DifferInBlock(k, l, j) && j > 0
    ensures DifferInBlock(k[12..], l[12..], j - 1)
  {
    var m := 12 * j;
    assert k[12..][..m - 12] == k[..m][12..] && l[12..][..m - 12] == l[..m][12..];
    assert k[12..][m..] == k[m + 12..] && l[12..][m..] == l[m + 12..];
    assert k[12..][m - 12..m] == k[m..m + 12] && l[12..][m - 12..m] == l[m..m + 12];
  }

  /** However many blocks there are, a difference inside one of them reaches the final registers. */
  lemma BlockDifferenceReaches(k: seq<Byte>, l: seq<Byte>, j: nat, initval: Word)
    requires Key(k) && DifferInBlock(k, l, j)
    ensures Reached(k, initval) != Reached(l, initval)
  {
    hide Mix, Tail, Blocks;
    var s, n := Regs(GOLDEN, GOLDEN, initval), |k| - |k| % 12;
    BlocksDiffer(s, k, l, j);
    assert k[n..] == k[12 * j + 12..][n - 12 * j - 12..] && l[n..] == l[12 * j + 12..][n - 12 * j - 12..];
    if Reached(k, initval) == Reached(l, initval) {
      MixInjective(Tail(Blocks(s, k), k[n..], |k|), Tail(Blocks(s, l), l[n..], |l|));
      TailInjective(Blocks(s, k), Blocks(s, l), k[n..], l[n..], |k|);
      assert false;
    }
  }

  lemma {:induction false} BlocksOfWhole(s: Regs, k: seq<Byte>, l: seq<Byte>, m: nat)
    requires |k| == |l| && 12 * m <= |k| < 12 * m + 12 && k[..12 * m] == l[..12 * m]
    ensures Blocks(s, k) == Blocks(s, l)
    decreases m
  {
    if m > 0 {
      hide Mix, Absorb;
      var n := 12 * m;
      assert k[..12] == k[..n][..12] && l[..12] == l[..n][..12];
      assert k[12..][..n - 12] == k[..n][12..] && l[12..][..n - 12] == l[..n][12..];
      BlocksOfWhole(Mix(Absorb(s, k[..12])), k[12..], l[12..], m - 1);
    }
  }

  /** So does a difference within the tail. */
  lemma TailDifferenceReaches(k: seq<Byte>, l: seq<Byte>, initval: Word)
    requires Key(k) && |k| == |l| && k != l && k[..|k| - |k| % 12] == l[..|k| - |k| % 12]
    ensures Reached(k, initval) != Reached(l, initval)
  {
    hide Mix, Tail, Blocks;
    var s, n := Regs(GOLDEN, GOLDEN, initval), |k| - |k| % 12;
    BlocksOfWhole(s, k, l, |k| / 12);
    if Reached(k, initval) == Reached(l, initval) {
      assert k == k[..n] + k[n..] && l == l[..n] + l[n..];
      MixInjective(Tail(Blocks(s, k), k[n..], |k|), Tail(Blocks(s, l), l[n..], |l|));
      TailInjective(Blocks(s, k), Blocks(s, l), k[n..], l[n..], |k|);
      assert false;
    }
  }

  /** And, as chained hashing needs, a difference in the previous hash value. */
  lemma InitialDifferenceReaches(k: seq<Byte>, v: Word, v': Word)
    requires Key(k) && v != v'
    ensures Reached(k, v) != Reached(k, v')
  {
    hide Mix, Tail, Blocks;
    var s, s', n := Regs(GOLDEN, GOLDEN, v), Regs(GOLDEN, GOLDEN, v'), |k| - |k| % 12;
    if Reached(k, v) == Reached(k, v') {
      MixInjective(Tail(Blocks(s, k), k[n..], |k|), Tail(Blocks(s', k), k[n..], |k|));
      TailInjective(Blocks(s, k), Blocks(s', k), k[n..], k[n..], |k|);
      BlocksInjective(s, s', k);
      assert false;
    }
  }

  // ----- the loop and the falling switch -----

  lemma PlusPlus(x: Word, u: Word, v: Word)
    requires u + v < WORDS
    ensures Plus(Plus(x, u), v) == Plus(x, u + v)
  {
  }

  /** Bytes added from the highest down. */
  lemma FallThrough(x: Word, k0: Byte, k1: Byte, k2: Byte, k3: Byte)
    ensures Plus(Plus(Plus(Plus(x, k3 * 0x1000000), k2 * 0x10000), k1 * 0x100), k0) == Plus(x, Pack(k0, k1, k2, k3))
  {
    hide Plus;
    PlusPlus(x, k3 * 0x1000000, k2 * 0x10000);
    PlusPlus(x, k3 * 0x1000000 + k2 * 0x10000, k1 * 0x100);
    PlusPlus(x, k3 * 0x1000000 + k2 * 0x10000 + k1 * 0x100, k0);
  }

  lemma PlusZero(x: Word)
    ensures Plus(x, 0) == x
  {
  }

  /** The switch over the last bytes. */
  method AddTail(s: Regs, t: seq<Byte>, length: Word) returns (r: Regs)
    requires |t| < 12
    ensures r == Tail(s, t, length)
  {
    hide Plus, Pack;
    var a, b, c := s.a, s.b, s.c;
    var len := |t|;
    c := Plus(c, length);
    ghost var c0 := c;
    PlusZero(c); PlusZero(b); PlusZero(a);
    if len >= 11 { c := Plus(c, t[10] as int * 0x1000000); }
    assert c == Plus(c0, Pad(t, 10) as int * 0x1000000); PlusZero(c);
    ghost var c1 := c;
    if len >= 10 { c := Plus(c, t[9] as int * 0x10000); }
    assert c == Plus(c1, Pad(t, 9) as int * 0x10000); PlusZero(c);
    ghost var c2 := c;
    if len >= 9 { c := Plus(c, t[8] as int * 0x100); }
    assert c == Plus(c2, Pad(t, 8) as int * 0x100); PlusZero(c);
    FallThrough(c0, 0, Pad(t, 8), Pad(t, 9), Pad(t, 10));
    if len >= 8 { b := Plus(b, t[7] as int * 0x1000000); }
    ghost var b1 := b;
    assert b1 == Plus(s.b, Pad(t, 7) as int * 0x1000000); PlusZero(b);
    if len >= 7 { b := Plus(b, t[6] as int * 0x10000); }
    ghost var b2 := b;
    assert b2 == Plus(b1, Pad(t, 6) as int * 0x10000); PlusZero(b);
    if len >= 6 { b := Plus(b, t[5] as int * 0x100); }
    ghost var b3 := b;
    assert b3 == Plus(b2, Pad(t, 5) as int * 0x100); PlusZero(b);
    if len >= 5 { b := Plus(b, t[4]); }
    assert b == Plus(b3, Pad(t, 4));
    FallThrough(s.b, Pad(t, 4), Pad(t, 5), Pad(t, 6), Pad(t, 7));
    if len >= 4 { a := Plus(a, t[3] as int * 0x1000000); }
    ghost var a1 := a;
    assert a1 == Plus(s.a, Pad(t, 3) as int * 0x1000000); PlusZero(a);
    if len >= 3 { a := Plus(a, t[2] as int * 0x10000); }
    ghost var a2 := a;
    assert a2 == Plus(a1, Pad(t, 2) as int * 0x10000); PlusZero(a);
    if len >= 2 { a := Plus(a, t[1] as int * 0x100); }
    ghost var a3 := a;
    assert a3 == Plus(a2, Pad(t, 1) as int * 0x100); PlusZero(a);
    if len >= 1 { a := Plus(a, t[0]); }
    assert a == Plus(a3, Pad(t, 0));
    FallThrough(s.a, Pad(t, 0), Pad(t, 1), Pad(t, 2), Pad(t, 3));
    r := Regs(a, b, c);
  }

  /** `bj_hash`. */
  method Hash(k: seq<Byte>, initval: Word) returns (h: Word)
    requires Key(k)
    ensures h == Reached(k, initval).c
  {
    hide Absorb, Mix, Tail;
    var s := Regs(GOLDEN, GOLDEN, initval);
    var at: nat, len: nat := 0, |k|;
    assert k[0..] == k;
    while len >= 12
      invariant at + len == |k| && at % 12 == 0
      invariant Blocks(s, k[at..]) == Blocks(Regs(GOLDEN, GOLDEN, initval), k)
    {
      assert k[at..][..12] == k[at..at + 12] && k[at..][12..] == k[at + 12..];
      s := MixWords(Absorb(s, k[at..at + 12]));
      at := at + 12;
      len := len - 12;
    }
    assert at == |k| - |k| % 12;
    s := AddTail(s, k[at..], |k|);
    s := MixWords(s);
    h := s.c;
  }
}
