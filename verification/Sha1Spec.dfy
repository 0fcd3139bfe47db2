/** SHA-1 as FIPS 180-1 defines it: 32-bit words, an 80-word schedule and shifted registers. */
module Sha1Spec {
  type byte = bv8

  datatype Regs = Regs(a: bv32, b: bv32, c: bv32, d: bv32, e: bv32)

  /** Section 3: addition modulo 2^32. */
  function Add(x: bv32, y: bv32): bv32 { x + y }

  /** Section 3: the circular shifts S^1, S^5 and S^30. */
  function Rotl1(x: bv32): bv32 { (x << 1) | (x >> 31) }
  function Rotl5(x: bv32): bv32 { (x << 5) | (x >> 27) }
  function Rotl30(x: bv32): bv32 { (x << 30) | (x >> 2) }

  /** Section 5: the logical functions. */
  function Choose(b: bv32, c: bv32, d: bv32): bv32 { (b & c) | (!b & d) }
  function Parity(b: bv32, c: bv32, d: bv32): bv32 { b ^ c ^ d }
  function Majority(b: bv32, c: bv32, d: bv32): bv32 { (b & c) | (b & d) | (c & d) }

  function F(t: nat, b: bv32, c: bv32, d: bv32): bv32 {
    if t < 20 then Choose(b, c, d)
    else if t < 40 then Parity(b, c, d)
    else if t < 60 then Majority(b, c, d)
    else Parity(b, c, d)
  }

  /** Section 6: the constants. */
  function K(t: nat): bv32 {
    if t < 20 then 0x5A827999 else if t < 40 then 0x6ED9EBA1 else if t < 60 then 0x8F1BBCDC else 0xCA62C1D6
  }

  /** Section 7: the initial values of H0..H4. */
  const INITIAL := Regs(0x67452301, 0xEFCDAB89, 0x98BADCFE, 0x10325476, 0xC3D2E1F0)

  /** Section 2: a word is four bytes, the first one on the left. */
  function Pack(p: byte, q: byte, r: byte, s: byte): bv32 {
    (s as bv32) | ((r as bv32) << 8) | ((q as bv32) << 16) | ((p as bv32) << 24)
  }

  function Word(b: seq<byte>, i: nat): bv32
    requires i + 3 < |b|
  {
    Pack(b[i], b[i + 1], b[i + 2], b[i + 3])
  }

  /** Section 7, step b: the next word from those 3, 8, 14 and 16 places before it. */
  function Expand(w3: bv32, w8: bv32, w14: bv32, w16: bv32): bv32 { Rotl1(w3 ^ w8 ^ w14 ^ w16) }

  /** Section 7, steps a and b: the words W(0)..W(79) of a block. */
  function Schedule(block: seq<byte>, t: nat): bv32
    requires |block| == 64
  {
    if t < 16 then Word(block, 4 * t)
    else Expand(Schedule(block, t - 3), Schedule(block, t - 8), Schedule(block, t - 14), Schedule(block, t - 16))
  }

  /** Section 7, step d: the sum called TEMP. */
  function Temp(s: bv32, f: bv32, e: bv32, w: bv32, k: bv32): bv32 { s + f + e + w + k }

  /** Section 7, step d: one round. */
  function Round(t: nat, r: Regs, w: bv32): Regs {
    Regs(Temp(Rotl5(r.a), F(t, r.b, r.c, r.d), r.e, w, K(t)), r.a, Rotl30(r.b), r.c, r.d)
  }

  function Rounds(block: seq<byte>, h: Regs, t: nat): Regs
    requires |block| == 64
  {
    if t == 0 then h else Round(t - 1, Rounds(block, h, t - 1), Schedule(block, t - 1))
  }

  /** Section 7, step e. */
  function Compress(h: Regs, block: seq<byte>): Regs
    requires |block| == 64
  {
    var r := Rounds(block, h, 80);
    Regs(Add(h.a, r.a), Add(h.b, r.b), Add(h.c, r.c), Add(h.d, r.d), Add(h.e, r.e))
  }

  /** The registers after all complete blocks of `m`. */
  function Blocks(m: seq<byte>, h: Regs): Regs {
    if |m| < 64 then h else Blocks(m[64..], Compress(h, m[..64]))
  }

  lemma {:induction false} BlocksAppend(m: seq<byte>, n: seq<byte>, h: Regs)
    requires |m| % 64 == 0
    ensures Blocks(m + n, h) == Blocks(n, Blocks(m, h))
    decreases |m|
  {
    if |m| == 0 {
      assert m + n == n;
    } else {
      assert (m + n)[..64] == m[..64] && (m + n)[64..] == m[64..] + n;
      BlocksAppend(m[64..], n, Compress(h, m[..64]));
    }
  }

  /** An incomplete last block is left alone. */
  lemma BlocksTail(m: seq<byte>, c: nat, h: Regs)
    requires c % 64 == 0 && c <= |m| < c + 64
    ensures Blocks(m, h) == Blocks(m[..c], h)
  {
    assert m == m[..c] + m[c..];
    BlocksAppend(m[..c], m[c..], h);
  }

  lemma BlocksNext(m: seq<byte>, c: nat, h: Regs)
    requires c % 64 == 0 && c + 64 <= |m|
    ensures Blocks(m[..c + 64], h) == Compress(Blocks(m[..c], h), m[c..c + 64])
  {
    var a, b := m[..c], m[c..c + 64];
    assert m[..c + 64] == a + b;
    BlocksAppend(a, b, h);
    assert b[..64] == b && b[64..] == [];
  }

  function Byte(n: int): byte {
    (n % 256) as byte
  }

  function Be32(n: int): (r: seq<byte>)
    ensures |r| == 4
  {
    [Byte(n / 0x100_0000), Byte(n / 0x1_0000), Byte(n / 0x100), Byte(n)]
  }

  function Zeros(n: nat): seq<byte> {
    seq(n, _ => 0)
  }

  /** The number of padding bytes that bring a message of `n` bytes to 8 bytes below a block boundary. */
  function PadLength(n: nat): (k: nat)
    ensures 1 <= k <= 64 && (n + k) % 64 == 56
  {
    if n % 64 < 56 then 56 - n % 64 else 120 - n % 64
  }

  /** Padding for a message of `n` bytes whose length field holds the words `high` and `low`. */
  function Padding(n: nat, high: int, low: int): seq<byte> {
    [0x80] + Zeros(PadLength(n) - 1) + Be32(high) + Be32(low)
  }

  const TWO32: int := 0x1_0000_0000
  const TWO64: int := 0x1_0000_0000_0000_0000

  /** Section 4: a one, zeros, and the length in bits as a 64-bit number. */
  function Padded(m: seq<byte>): seq<byte> {
    m + Padding(|m|, (8 * |m|) % TWO64 / TWO32, (8 * |m|) % TWO32)
  }

  function BytesOf(w: bv32): seq<byte> {
    [((w >> 24) & 0xFF) as byte, ((w >> 16) & 0xFF) as byte, ((w >> 8) & 0xFF) as byte, (w & 0xFF) as byte]
  }

  function Output(r: Regs): seq<byte> {
    BytesOf(r.a) + BytesOf(r.b) + BytesOf(r.c) + BytesOf(r.d) + BytesOf(r.e)
  }

  /** The message digest. */
  function Sha1(m: seq<byte>): seq<byte> {
    Output(Blocks(Padded(m), INITIAL))
  }
}
