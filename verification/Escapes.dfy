/** The backslash escapes of lib/oct.c, decoded in place. */
module Escapes {

  /** The value of a hexadecimal digit, if it is one. */
  function Hex(c: char): (v: int)
    ensures -1 <= v < 16
  {
    if 'a' <= c <= 'f' then c as int - 0x57
    else if 'A' <= c <= 'F' then c as int - 0x37
    else if '0' <= c <= '9' then c as int - 0x30
    else -1
  }

  /** The accumulated byte after the first digit; anything else leaves the byte of the escape before. */
  function High(x: char, c: nat): (r: nat)
    requires c < 256
    ensures r < 256
  {
    if Hex(x) >= 0 then Hex(x) * 16 else c
  }

  function Low(y: char, c: nat): (r: nat)
    requires c < 256
    ensures r < 256
  {
    if Hex(y) >= 0 then (c + Hex(y)) % 256 else c
  }

  /** The decoded text up to the end or to an escape that is cut off, and whether the end was reached. */
  function Decode(s: string, c: nat): (r: (string, bool))
    requires c < 256
    ensures |r.0| <= |s| && (r.1 && s != [] ==> r.0 != [])
  {
    if s == [] then ("", true)
    else if s[0] != '\\' then Then(s[0], Decode(s[1..], c))
    else if |s| == 1 then ("", false)
    else if s[1] == '\\' then Then('\\', Decode(s[2..], c))
    else if |s| == 2 then ("", false)
    else
      var b := Low(s[2], High(s[1], c));
      Then(b as char, Decode(s[3..], b))
  }

  function Then(x: char, r: (string, bool)): (string, bool) {
    ([x] + r.0, r.1)
  }

  /**
   * What `oct_de_escape` leaves: the decoded text, or on a cut-off escape the old length with the front
   * overwritten.
   */
  function Unescaped(s: string): (r: string)
    ensures |r| <= |s| && (s != [] ==> r != [])
  {
    var d := Decode(s, 0);
    if d.1 then d.0 else d.0 + s[|d.0|..]
  }

  lemma {:induction false} DecodePlain(s: string, c: nat)
    requires c < 256 && '\\' !in s
    ensures Decode(s, c) == (s, true)
  {
    if s != [] {
      DecodePlain(s[1..], c);
      assert [s[0]] + s[1..] == s;
    }
  }

  /** A text without a backslash stays as it is. */
  lemma UnescapedPlain(s: string)
    requires '\\' !in s
    ensures Unescaped(s) == s
  {
    DecodePlain(s, 0);
  }

  /** A text in which every backslash is doubled. */
  function Escaped(s: string): string {
    if s == [] then "" else (if s[0] == '\\' then "\\\\" else [s[0]]) + Escaped(s[1..])
  }

  lemma {:induction false} DecodeEscaped(s: string, c: nat)
    requires c < 256
    ensures Decode(Escaped(s), c) == (s, true)
  {
    if s != [] {
      var e := Escaped(s);
      DecodeEscaped(s[1..], c);
      if s[0] == '\\' {
        assert e[0] == '\\' && e[1] == '\\' && e[2..] == Escaped(s[1..]);
      } else {
        assert e[0] == s[0] && e[1..] == Escaped(s[1..]);
      }
      assert [s[0]] + s[1..] == s;
    }
  }

  /** Doubling the backslashes is undone. */
  lemma UnescapedEscaped(s: string)
    ensures Unescaped(Escaped(s)) == s
  {
    DecodeEscaped(s, 0);
  }

  /** A byte as a backslash and two hexadecimal digits, each in upper or lower case. */
  ghost predicate InHex(b: char, e: string) {
    && b < 256 as char && |e| == 3 && e[0] == '\\'
    && (e[1] == "0123456789abcdef"[b as int / 16] || e[1] == "0123456789ABCDEF"[b as int / 16])
    && (e[2] == "0123456789abcdef"[b as int % 16] || e[2] == "0123456789ABCDEF"[b as int % 16])
  }

  /** One character of a text: itself, a backslash doubled, or any byte in hexadecimal digits. */
  ghost predicate SpeltOut(x: char, e: string) {
    (x != '\\' && e == [x]) || (x == '\\' && e == "\\\\") || InHex(x, e)
  }

  function Joined(es: seq<string>): string {
    if es == [] then "" else es[0] + Joined(es[1..])
  }

  lemma HexByte(b: char, e: string, c: nat)
    requires c < 256 && InHex(b, e)
    ensures e[1] != '\\' && Low(e[2], High(e[1], c)) == b as int
  {
    HexDigit(b as int / 16, e[1]);
    HexDigit(b as int % 16, e[2]);
    hide Hex, InHex;
    assert High(e[1], c) == b as int / 16 * 16;
  }

  lemma HexDigit(v: nat, x: char)
    requires v < 16 && (x == "0123456789abcdef"[v] || x == "0123456789ABCDEF"[v])
    ensures Hex(x) == v && x != '\\'
  {
  }

  lemma {:induction false} DecodeSpelt(s: string, es: seq<string>, c: nat)
    requires c < 256 && |es| == |s| && forall i :: 0 <= i < |s| ==> SpeltOut(s[i], es[i])
    ensures Decode(Joined(es), c) == (s, true)
    decreases |s|
  {
    if s != [] {
      var e, more := es[0], Joined(es[1..]);
      var text := e + more;
      assert text[|e|..] == more && [s[0]] + s[1..] == s;
      if |e| == 3 {
        HexByte(s[0], e, c);
        assert text[0] == e[0] && text[1] == e[1] && text[2] == e[2];
        DecodeSpelt(s[1..], es[1..], s[0] as int);
      } else {
        DecodeSpelt(s[1..], es[1..], c);
      }
    }
  }

  /** Whichever way each character is spelt, decoding gives the text. */
  lemma UnescapedSpelt(s: string, es: seq<string>)
    requires |es| == |s| && forall i :: 0 <= i < |s| ==> SpeltOut(s[i], es[i])
    ensures Unescaped(Joined(es)) == s
  {
    DecodeSpelt(s, es, 0);
  }

  /** An escape without its last characters. */
  ghost predicate CutOff(tail: string) {
    |tail| > 0 && tail[0] == '\\' && (|tail| == 1 || (|tail| == 2 && tail[1] != '\\'))
  }

  lemma {:induction false} DecodeCut(s: string, es: seq<string>, c: nat, tail: string)
    requires c < 256 && |es| == |s| && (forall i :: 0 <= i < |s| ==> SpeltOut(s[i], es[i])) && CutOff(tail)
    ensures Decode(Joined(es) + tail, c) == (s, false)
    decreases |s|
  {
    if s == [] {
      assert Joined(es) + tail == tail;
    } else {
      var e, more := es[0], Joined(es[1..]) + tail;
      var text := e + more;
      assert Joined(es) + tail == text && text[|e|..] == more && [s[0]] + s[1..] == s;
      if |e| == 3 {
        HexByte(s[0], e, c);
        assert text[0] == e[0] && text[1] == e[1] && text[2] == e[2];
        DecodeCut(s[1..], es[1..], s[0] as int, tail);
      } else {
        DecodeCut(s[1..], es[1..], c, tail);
      }
    }
  }

  /** An escape that is cut off leaves the old length: the decoded text in front, and behind it what was there. */
  lemma UnescapedCut(s: string, es: seq<string>, tail: string)
    requires |es| == |s| && (forall i :: 0 <= i < |s| ==> SpeltOut(s[i], es[i])) && CutOff(tail)
    ensures var text := Joined(es) + tail; |s| <= |text| && Unescaped(text) == s + text[|s|..]
  {
    DecodeCut(s, es, 0, tail);
  }

  /** The decoding continued behind what is already written. */
  ghost function Behind(done: string, r: (string, bool)): (string, bool) {
    (done + r.0, r.1)
  }

  lemma BehindThen(done: string, x: char, r: (string, bool))
    ensures Behind(done, Then(x, r)) == Behind(done + [x], r)
    ensures Behind([], r) == r
  {
    assert done + ([x] + r.0) == done + [x] + r.0;
    assert [] + r.0 == r.0;
  }

  /** With `w` written and the byte `c` accumulated, the decoding goes on at `fp`. */
  ghost predicate At(s: string, w: string, fp: nat, c: nat) {
    |w| <= fp <= |s| && c < 256 && Decode(s, 0) == Behind(w, Decode(s[fp..], c))
  }

  lemma AtStart(s: string)
    ensures At(s, [], 0, 0)
  {
    assert s[0..] == s;
    BehindThen([], 'x', Decode(s, 0));
  }

  lemma AtPlain(s: string, w: string, fp: nat, c: nat)
    requires At(s, w, fp, c) && fp < |s| && s[fp] != '\\'
    ensures At(s, w + [s[fp]], fp + 1, c)
  {
    assert s[fp..][1..] == s[fp + 1..];
    BehindThen(w, s[fp], Decode(s[fp + 1..], c));
  }

  lemma AtDouble(s: string, w: string, fp: nat, c: nat)
    requires At(s, w, fp, c) && fp + 1 < |s| && s[fp] == '\\' && s[fp + 1] == '\\'
    ensures At(s, w + ['\\'], fp + 2, c)
  {
    assert s[fp..][2..] == s[fp + 2..];
    BehindThen(w, '\\', Decode(s[fp + 2..], c));
  }

  lemma AtHex(s: string, w: string, fp: nat, c: nat)
    requires At(s, w, fp, c) && fp + 2 < |s| && s[fp] == '\\' && s[fp + 1] != '\\'
    ensures var b := Low(s[fp + 2], High(s[fp + 1], c)); At(s, w + [b as char], fp + 3, b)
  {
    var b := Low(s[fp + 2], High(s[fp + 1], c));
    assert s[fp..][3..] == s[fp + 3..] && s[fp..][1] == s[fp + 1] && s[fp..][2] == s[fp + 2];
    BehindThen(w, b as char, Decode(s[fp + 3..], b));
  }

  lemma AtCut(s: string, w: string, fp: nat, c: nat)
    requires At(s, w, fp, c) && fp < |s| && s[fp] == '\\'
    requires fp + 1 == |s| || (fp + 2 == |s| && s[fp + 1] != '\\')
    ensures Decode(s, 0) == (w, false) && Unescaped(s) == w + s[|w|..]
  {
    assert w + "" == w;
  }

  lemma AtEnd(s: string, w: string, c: nat)
    requires At(s, w, |s|, c)
    ensures Decode(s, 0) == (w, true) && Unescaped(s) == w
  {
    assert w + "" == w;
  }

  /** `oct_de_escape`: reading runs ahead of writing in the same bytes. */
  method DeEscape(val: array<char>) returns (ok: bool, len: nat)
    modifies val
    ensures len <= val.Length && val[..len] == Unescaped(old(val[..])) && ok == Decode(old(val[..]), 0).1
  {
    hide At, Decode, Unescaped, High, Low;
    ghost var s, w := val[..], [];
    var fp, tp, c := 0, 0, 0;
    AtStart(s);
    while fp != val.Length
      invariant 0 <= tp <= fp <= val.Length == |s| && 0 <= c < 256 && |w| == tp
      invariant forall i :: 0 <= i < tp ==> val[i] == w[i]
      invariant forall i :: tp <= i < val.Length ==> val[i] == s[i]
      invariant At(s, w, fp, c)
      decreases val.Length - fp
    {
      if val[fp] == '\\' {
        fp := fp + 1;
        if fp == val.Length {
          AtCut(s, w, fp - 1, c);
          assert val[..] == w + s[tp..];
          return false, val.Length;
        }
        if val[fp] == '\\' {
          AtDouble(s, w, fp - 1, c);
          val[tp] := val[fp];
        } else {
          ghost var c0 := c;
          c := High(val[fp], c);
          fp := fp + 1;
          if fp == val.Length {
            AtCut(s, w, fp - 2, c0);
            assert val[..] == w + s[tp..];
            return false, val.Length;
          }
          AtHex(s, w, fp - 2, c0);
          c := Low(val[fp], c);
          val[tp] := c as char;
        }
      } else {
        AtPlain(s, w, fp, c);
        val[tp] := val[fp];
      }
      w := w + [val[tp]];
      tp, fp := tp + 1, fp + 1;
    }
    AtEnd(s, w, c);
    assert val[..tp] == w;
    ok, len := true, tp;
  }
}
