/** What the operators of the hash compute, and one of its answers. */
module HashAnswer {
  import opened Basics
  import opened JenkinsHash

  /** The constant is the golden ratio: 2^32 times (sqrt 5 - 1) / 2, without the fraction. */
  lemma GoldenRatio()
    ensures var k := 2 * GOLDEN + WORDS; k * k <= 5 * WORDS * WORDS < (k + 2) * (k + 2)
  {
  }

  /** Shifting to the right divides by a power of two. */
  lemma {:induction false} ShrDivides(x: Word, k: nat)
    ensures Shr(x, k) == x / Pow2(k)
  {
    if k > 0 {
      ShrDivides(x / 2, k - 1);
      DivTwice(x, Pow2(k - 1));
    }
  }

  lemma DivTwice(x: nat, d: nat)
    requires d > 0
    ensures x / 2 / d == x / (2 * d)
  {
    var q := x / (2 * d);
    var r := x - 2 * d * q;
    assert x / 2 == d * q + r / 2 && r / 2 < d;
    DivUnique(x / 2, d, q, r / 2);
  }

  lemma DivUnique(x: nat, d: nat, q: nat, r: nat)
    requires d > 0 && x == d * q + r && r < d
    ensures x / d == q
  {
    var e := x / d - q;
    assert d * e == r - x % d;
    if e > 0 {
      AtLeastOnce(d, e);
    } else if e < 0 {
      AtLeastOnce(d, -e);
    }
  }

  lemma AtLeastOnce(d: nat, e: int)
    requires e >= 1
    ensures d * e >= d
  {
  }

  /** Shifting to the left multiplies by a power of two, modulo 2^32. */
  lemma {:induction false} ShlMultiplies(x: Word, k: nat)
    ensures Shl(x, k) == x * Pow2(k) % WORDS
    decreases k
  {
    if k > 0 {
      ShlMultiplies(2 * x % WORDS, k - 1);
      ModTimes(2 * x, Pow2(k - 1));
      assert 2 * x * Pow2(k - 1) == x * Pow2(k);
    } else {
      assert x * Pow2(0) == x;
    }
  }

  lemma ModTimes(x: nat, m: nat)
    ensures (x % WORDS) * m % WORDS == x * m % WORDS
  {
    var q := x / WORDS;
    assert x * m == (x % WORDS) * m + WORDS * (q * m) by { assert x == x % WORDS + WORDS * q; }
    ModPlus((x % WORDS) * m, q * m);
  }

  lemma ModPlus(x: nat, k: nat)
    ensures (x + WORDS * k) % WORDS == x % WORDS
  {
  }

  /** Bit `i` of a number, counted from the lowest. */
  function Bit(x: nat, i: nat): nat
    decreases i
  {
    if i == 0 then x % 2 else Bit(x / 2, i - 1)
  }

  /** A bit of an exclusive or is set if and only if exactly one of the two bits is. */
  lemma {:induction false} XorBitAt(x: nat, y: nat, n: nat, i: nat)
    requires x < Pow2(n) && y < Pow2(n) && i < n
    ensures Bit(XorBits(x, y, n), i) == if Bit(x, i) == Bit(y, i) then 0 else 1
    decreases n
  {
    var bit, rest := XorBit(x % 2, y % 2), XorBits(x / 2, y / 2, n - 1);
    Halves(bit, rest);
    assert XorBits(x, y, n) == bit + 2 * rest;
    if i > 0 {
      XorBitAt(x / 2, y / 2, n - 1, i - 1);
    }
  }

  /** The bytes of a word, the first one lowest. */
  lemma PackBytes(k0: Byte, k1: Byte, k2: Byte, k3: Byte)
    ensures var w := Pack(k0, k1, k2, k3);
      w % 0x100 == k0 && w / 0x100 % 0x100 == k1 && w / 0x10000 % 0x100 == k2 && w / 0x1000000 == k3
  {
    var w := Pack(k0, k1, k2, k3);
    var w1, w2 := k1 + k2 * 0x100 + k3 * 0x10000, k2 + k3 * 0x100;
    assert w == k0 + 0x100 * w1 && w1 == k1 + 0x100 * w2;
    assert w / 0x100 == w1 && w / 0x10000 == w2;
  }

  // ----- the answer for the empty key -----

  /** A number by its hexadecimal digits, the lowest first. */
  datatype Hex = End | Digit(low: nat, high: Hex)

  function Val(h: Hex): nat {
    if h.End? then 0 else h.low + 16 * Val(h.high)
  }

  /** The digit `r` is the exclusive or of the digits `x` and `y`. */
  predicate Nibble(x: nat, y: nat, r: nat) {
    && x < 16 && y < 16 && r % 2 == XorBit(x % 2, y % 2) && r / 2 % 2 == XorBit(x / 2 % 2, y / 2 % 2)
    && r / 4 % 2 == XorBit(x / 4 % 2, y / 4 % 2) && r / 8 == XorBit(x / 8, y / 8)
  }

  predicate XorHex(x: Hex, y: Hex, r: Hex, n: nat) {
    if n == 0 then x.End? && y.End? && r.End?
    else x.Digit? && y.Digit? && r.Digit? && Nibble(x.low, y.low, r.low) && XorHex(x.high, y.high, r.high, n - 1)
  }

  lemma FrontBit(a: nat, x: nat, b: nat, y: nat, n: nat)
    requires a < 2 && b < 2 && x < Pow2(n) && y < Pow2(n)
    ensures a + 2 * x < Pow2(n + 1) && b + 2 * y < Pow2(n + 1)
    ensures XorBits(a + 2 * x, b + 2 * y, n + 1) == XorBit(a, b) + 2 * XorBits(x, y, n)
  {
    Halves(a, x);
    Halves(b, y);
  }

  lemma FrontBits(
    a0: nat, a1: nat, a2: nat, a3: nat, x: nat, b0: nat, b1: nat, b2: nat, b3: nat, y: nat, n: nat)
    requires a0 < 2 && a1 < 2 && a2 < 2 && a3 < 2 && b0 < 2 && b1 < 2 && b2 < 2 && b3 < 2
    requires x < Pow2(n) && y < Pow2(n)
    ensures var (u, v) := (a0 + 2 * (a1 + 2 * (a2 + 2 * (a3 + 2 * x))), b0 + 2 * (b1 + 2 * (b2 + 2 * (b3 + 2 * y))));
      && u < Pow2(n + 4) && v < Pow2(n + 4)
      && XorBits(u, v, n + 4) ==
         XorBit(a0, b0) + 2 * (XorBit(a1, b1) + 2 * (XorBit(a2, b2) + 2 * (XorBit(a3, b3) + 2 * XorBits(x, y, n))))
  {
    hide XorBits, Pow2, XorBit;
    FrontBit(a3, x, b3, y, n);
    var x1, y1 := a3 + 2 * x, b3 + 2 * y;
    FrontBit(a2, x1, b2, y1, n + 1);
    var x2, y2 := a2 + 2 * x1, b2 + 2 * y1;
    FrontBit(a1, x2, b1, y2, n + 2);
    FrontBit(a0, a1 + 2 * x2, b0, b1 + 2 * y2, n + 3);
  }

  lemma FrontDigit(a: nat, x: nat, b: nat, y: nat, r: nat, n: nat)
    requires Nibble(a, b, r) && x < Pow2(n) && y < Pow2(n)
    ensures a + 16 * x < Pow2(n + 4) && b + 16 * y < Pow2(n + 4)
    ensures XorBits(a + 16 * x, b + 16 * y, n + 4) == r + 16 * XorBits(x, y, n)
  {
    hide XorBits, Pow2;
    FourBits(a, x);
    FourBits(b, y);
    FourBits(r, XorBits(x, y, n));
    FrontBits(a % 2, a / 2 % 2, a / 4 % 2, a / 8, x, b % 2, b / 2 % 2, b / 4 % 2, b / 8, y, n);
  }

  lemma FourBits(a: nat, x: nat)
    ensures a / 8 < 2 ==> a % 2 + 2 * (a / 2 % 2 + 2 * (a / 4 % 2 + 2 * (a / 8 + 2 * x))) == a + 16 * x
  {
  }

  /** The number of bits of `n` digits. */
  function Bits(n: nat): nat {
    if n == 0 then 0 else Bits(n - 1) + 4
  }

  lemma {:induction false} XorDigits(x: Hex, y: Hex, r: Hex, n: nat)
    requires XorHex(x, y, r, n)
    ensures Val(x) < Pow2(Bits(n)) && Val(y) < Pow2(Bits(n)) && XorBits(Val(x), Val(y), Bits(n)) == Val(r)
  {
    hide Nibble;
    if n > 0 {
      XorDigits(x.high, y.high, r.high, n - 1);
      assert Val(x) == x.low + 16 * Val(x.high) && Val(y) == y.low + 16 * Val(y.high);
      assert Val(r) == r.low + 16 * Val(r.high) && Nibble(x.low, y.low, r.low);
      hide XorBits, Pow2, Val, XorHex;
      FrontDigit(x.low, Val(x.high), y.low, Val(y.high), r.low, Bits(n - 1));
    }
  }

  /** Exclusive or, digit by digit. */
  lemma XorOfHex(x: Hex, y: Hex, r: Hex)
    requires XorHex(x, y, r, 8)
    ensures Val(x) < WORDS && Val(y) < WORDS && Val(r) < WORDS && Xor(Val(x), Val(y)) == Val(r)
  {
    Pow32();
    assert Bits(8) == 32;
    XorDigits(x, y, r, 8);
  }

  function Hex8(h: nat, g: nat, f: nat, e: nat, d: nat, c: nat, b: nat, a: nat): nat {
    a + 0x10 * b + 0x100 * c + 0x1000 * d + 0x1_0000 * e + 0x10_0000 * f + 0x100_0000 * g + 0x1000_0000 * h
  }

  lemma Xor8(
    x7: nat, x6: nat, x5: nat, x4: nat, x3: nat, x2: nat, x1: nat, x0: nat,
    y7: nat, y6: nat, y5: nat, y4: nat, y3: nat, y2: nat, y1: nat, y0: nat,
    r7: nat, r6: nat, r5: nat, r4: nat, r3: nat, r2: nat, r1: nat, r0: nat)
    requires Nibble(x7, y7, r7) && Nibble(x6, y6, r6) && Nibble(x5, y5, r5) && Nibble(x4, y4, r4)
    requires Nibble(x3, y3, r3) && Nibble(x2, y2, r2) && Nibble(x1, y1, r1) && Nibble(x0, y0, r0)
    ensures var (x, y) := (Hex8(x7, x6, x5, x4, x3, x2, x1, x0), Hex8(y7, y6, y5, y4, y3, y2, y1, y0));
      x < WORDS && y < WORDS && Xor(x, y) == Hex8(r7, r6, r5, r4, r3, r2, r1, r0)
  {
    hide Nibble, XorHex, Val, Xor, Low4;
    var x := Low4(x3, x2, x1, x0, Low4(x7, x6, x5, x4, End));
    var y := Low4(y3, y2, y1, y0, Low4(y7, y6, y5, y4, End));
    var r := Low4(r3, r2, r1, r0, Low4(r7, r6, r5, r4, End));
    ValLow4(x3, x2, x1, x0, Low4(x7, x6, x5, x4, End));
    ValLow4(x7, x6, x5, x4, End);
    ValLow4(y3, y2, y1, y0, Low4(y7, y6, y5, y4, End));
    ValLow4(y7, y6, y5, y4, End);
    ValLow4(r3, r2, r1, r0, Low4(r7, r6, r5, r4, End));
    ValLow4(r7, r6, r5, r4, End);
    XorEnd();
    XorLow4(x7, x6, x5, x4, End, y7, y6, y5, y4, End, r7, r6, r5, r4, End, 0);
    XorLow4(x3, x2, x1, x0, Low4(x7, x6, x5, x4, End), y3, y2, y1, y0, Low4(y7, y6, y5, y4, End),
            r3, r2, r1, r0, Low4(r7, r6, r5, r4, End), 4);
    XorOfHex(x, y, r);
  }

  function Low4(d: nat, c: nat, b: nat, a: nat, high: Hex): Hex {
    Digit(a, Digit(b, Digit(c, Digit(d, high))))
  }

  lemma XorEnd()
    ensures XorHex(End, End, End, 0)
  {
  }

  lemma XorLow4(
    x3: nat, x2: nat, x1: nat, x0: nat, x: Hex, y3: nat, y2: nat, y1: nat, y0: nat, y: Hex,
    r3: nat, r2: nat, r1: nat, r0: nat, r: Hex, n: nat)
    requires Nibble(x3, y3, r3) && Nibble(x2, y2, r2) && Nibble(x1, y1, r1) && Nibble(x0, y0, r0)
    requires XorHex(x, y, r, n)
    ensures XorHex(Low4(x3, x2, x1, x0, x), Low4(y3, y2, y1, y0, y), Low4(r3, r2, r1, r0, r), n + 4)
  {
    hide Nibble;
    assert XorHex(Digit(x3, x), Digit(y3, y), Digit(r3, r), n + 1);
    assert XorHex(Digit(x2, Digit(x3, x)), Digit(y2, Digit(y3, y)), Digit(r2, Digit(r3, r)), n + 2);
  }

  lemma ValLow4(d: nat, c: nat, b: nat, a: nat, high: Hex)
    ensures Val(Low4(d, c, b, a, high)) == a + 0x10 * b + 0x100 * c + 0x1000 * d + 0x1_0000 * Val(high)
    ensures Val(End) == 0
  {
    assert Val(Digit(d, high)) == d + 16 * Val(high);
    assert Val(Digit(c, Digit(d, high))) == c + 16 * Val(Digit(d, high));
  }

  lemma Shifts(x: Word, k: nat)
    requires k < 17
    ensures Shr(x, k) == x / Power(k) && Shl(x, k) == x * Power(k) % WORDS
  {
    ShrDivides(x, k);
    ShlMultiplies(x, k);
    hide Shr, Shl;
    Powers(k);
  }

  function Power(k: nat): (r: nat)
    ensures r > 0
  {
    match k
    case 3 => 8
    case 5 => 32
    case 8 => 256
    case 10 => 1024
    case 12 => 4096
    case 13 => 8192
    case 15 => 32768
    case 16 => 65536
    case _ => Pow2(k)
  }

  lemma Powers(k: nat)
    ensures Power(k) == Pow2(k)
  {
    assert Pow2(8) == 256 && Pow2(13) == 8192 && Pow2(16) == 65536;
  }

  lemma Line1()
    ensures Line(Regs(0x9E3779B9, 0x9E3779B9, 0x00000000), 13, 8, 13) == Regs(0x00000000, 0x9E3779B9, 0x61CC77FC)
  {
    hide Xor, Shr, Shl;
    Shifts(0x00000000, 13);
    Shifts(0x00000000, 8);
    Shifts(0x9E3779B9, 13);
    Line1A();
    Line1B();
    Line1C();
  }

  lemma Line1A()
    ensures Xor(0x00000000, 0x00000000) == 0x00000000
  {
    hide Xor;
    Xor8(0x0, 0x0, 0x0, 0x0, 0x0, 0x0, 0x0, 0x0,
      0x0, 0x0, 0x0, 0x0, 0x0, 0x0, 0x0, 0x0,
      0x0, 0x0, 0x0, 0x0, 0x0, 0x0, 0x0, 0x0);
  }

  lemma Line1B()
    ensures Xor(0x9E3779B9, 0x00000000) == 0x9E3779B9
  {
    hide Xor;
    Xor8(0x9, 0xE, 0x3, 0x7, 0x7, 0x9, 0xB, 0x9,
      0x0, 0x0, 0x0, 0x0, 0x0, 0x0, 0x0, 0x0,
      0x9, 0xE, 0x3, 0x7, 0x7, 0x9, 0xB, 0x9);
  }

  lemma Line1C()
    ensures Xor(0x61C88647, 0x0004F1BB) == 0x61CC77FC
  {
    hide Xor;
    Xor8(0x6, 0x1, 0xC, 0x8, 0x8, 0x6, 0x4, 0x7,
      0x0, 0x0, 0x0, 0x4, 0xF, 0x1, 0xB, 0xB,
      0x6, 0x1, 0xC, 0xC, 0x7, 0x7, 0xF, 0xC);
  }

  lemma Line2()
    ensures Line(Regs(0x00000000, 0x9E3779B9, 0x61CC77FC), 12, 16, 5) == Regs(0xFFFA128C, 0x2EFCEF31, 0x33A29146)
  {
    hide Xor, Shr, Shl;
    Shifts(0x61CC77FC, 12);
    Shifts(0xFFFA128C, 16);
    Shifts(0x2EFCEF31, 5);
    Line2A();
    Line2B();
    Line2C();
  }

  lemma Line2A()
    ensures Xor(0xFFFC0E4B, 0x00061CC7) == 0xFFFA128C
  {
    hide Xor;
    Xor8(0xF, 0xF, 0xF, 0xC, 0x0, 0xE, 0x4, 0xB,
      0x0, 0x0, 0x0, 0x6, 0x1, 0xC, 0xC, 0x7,
      0xF, 0xF, 0xF, 0xA, 0x1, 0x2, 0x8, 0xC);
  }

  lemma Line2B()
    ensures Xor(0x3C70EF31, 0x128C0000) == 0x2EFCEF31
  {
    hide Xor;
    Xor8(0x3, 0xC, 0x7, 0x0, 0xE, 0xF, 0x3, 0x1,
      0x1, 0x2, 0x8, 0xC, 0x0, 0x0, 0x0, 0x0,
      0x2, 0xE, 0xF, 0xC, 0xE, 0xF, 0x3, 0x1);
  }

  lemma Line2C()
    ensures Xor(0x32D5763F, 0x0177E779) == 0x33A29146
  {
    hide Xor;
    Xor8(0x3, 0x2, 0xD, 0x5, 0x7, 0x6, 0x3, 0xF,
      0x0, 0x1, 0x7, 0x7, 0xE, 0x7, 0x7, 0x9,
      0x3, 0x3, 0xA, 0x2, 0x9, 0x1, 0x4, 0x6);
  }

  lemma Line3()
    ensures Line(Regs(0xFFFA128C, 0x2EFCEF31, 0x33A29146), 3, 10, 15) == Regs(0x9B2EC03D, 0xDB2B69AE, 0xBD49D10D)
  {
    hide Xor, Shr, Shl;
    Shifts(0x33A29146, 3);
    Shifts(0x9B2EC03D, 10);
    Shifts(0xDB2B69AE, 15);
    Line3A();
    Line3B();
    Line3C();
  }

  lemma Line3A()
    ensures Xor(0x9D5A9215, 0x06745228) == 0x9B2EC03D
  {
    hide Xor;
    Xor8(0x9, 0xD, 0x5, 0xA, 0x9, 0x2, 0x1, 0x5,
      0x0, 0x6, 0x7, 0x4, 0x5, 0x2, 0x2, 0x8,
      0x9, 0xB, 0x2, 0xE, 0xC, 0x0, 0x3, 0xD);
  }

  lemma Line3B()
    ensures Xor(0x602B9DAE, 0xBB00F400) == 0xDB2B69AE
  {
    hide Xor;
    Xor8(0x6, 0x0, 0x2, 0xB, 0x9, 0xD, 0xA, 0xE,
      0xB, 0xB, 0x0, 0x0, 0xF, 0x4, 0x0, 0x0,
      0xD, 0xB, 0x2, 0xB, 0x6, 0x9, 0xA, 0xE);
  }

  lemma Line3C()
    ensures Xor(0xBD48675B, 0x0001B656) == 0xBD49D10D
  {
    hide Xor;
    Xor8(0xB, 0xD, 0x4, 0x8, 0x6, 0x7, 0x5, 0xB,
      0x0, 0x0, 0x0, 0x1, 0xB, 0x6, 0x5, 0x6,
      0xB, 0xD, 0x4, 0x9, 0xD, 0x1, 0x0, 0xD);
  }

  /** The hash of the empty key with the initial value 0. */
  lemma EmptyKeyHash()
    ensures Reached([], 0) == Regs(0x9B2EC03D, 0xDB2B69AE, 0xBD49D10D)
  {
    Line1();
    Line2();
    Line3();
    NoBytes();
    hide Line, Mix;
    MixIs(Regs(0x9E3779B9, 0x9E3779B9, 0x00000000), Regs(0x00000000, 0x9E3779B9, 0x61CC77FC),
      Regs(0xFFFA128C, 0x2EFCEF31, 0x33A29146), Regs(0x9B2EC03D, 0xDB2B69AE, 0xBD49D10D));
  }

  lemma NoBytes()
    ensures Reached([], 0) == Mix(Regs(GOLDEN, GOLDEN, 0))
  {
    hide Mix;
  }

  lemma MixIs(s: Regs, s1: Regs, s2: Regs, s3: Regs)
    requires Line(s, 13, 8, 13) == s1 && Line(s1, 12, 16, 5) == s2 && Line(s2, 3, 10, 15) == s3
    ensures Mix(s) == s3
  {
    hide Line;
  }
}
