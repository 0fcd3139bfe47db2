/** Length-prefixed strings as `get_len` and `get_str` of lib/sexp.c take them from an octet string. */
module Octets {
  import opened Basics
  import opened Decimal

  /**
   * `octet_t` as a cursor: `rest` is the text from `val` on, `len` bytes long. The byte after the text
   * is taken to be the terminating NUL that the buffers of this program carry.
   */
  class Cursor {
    var rest: string

    constructor (text: string)
      ensures rest == text
    {
      rest := text;
    }
  }

  /** The text of a C string. */
  function CString(s: string): (t: string)
    ensures t <= s && '\0' !in t && (t < s ==> s[|t|] == '\0')
  {
    if s == [] || s[0] == '\0' then [] else [s[0]] + CString(s[1..])
  }

  /** `*val`: the byte under the cursor. */
  function Peek(s: string): char {
    if s == [] then '\0' else s[0]
  }

  /**
   * A string and the text after it; on an empty text a success with a wrapped length; or an error. Whatever
   * `get_len` objects to, its -1 becomes a huge unsigned length, so the error is always SPOCP_MISSING_CHAR.
   */
  datatype Taken = Str(text: string, rest: string) | Overrun | NoStr

  /** What `get_str` takes from the front of `s`. */
  function TakeStr(s: string): (r: Taken)
    ensures r.Str? ==> |r.rest| < |s| && |r.text| >= 1
    ensures r.Overrun? <==> s == []
  {
    var l := Span(s);
    if s == [] then Overrun
    else if l == |s| || s[l] != ':' || Value(s[..l]) == 0 || |s| - l - 1 < Value(s[..l]) then NoStr
    else
      var n := Value(s[..l]);
      Str(s[l + 1..l + 1 + n], s[l + 1 + n..])
  }

  ghost predicate AllDigits(d: string) {
    forall i :: 0 <= i < |d| ==> Digit(d[i])
  }

  /** The text starts with digits, a colon and as many bytes as the digits say, at least one. */
  ghost predicate Announced(s: string, d: string, text: string, rest: string) {
    AllDigits(d) && Value(d) == |text| && text != [] && s == d + ":" + text + rest
  }

  /** What is taken was there whole, behind its length; nothing else is taken. */
  lemma TakenIff(s: string, text: string, rest: string)
    ensures TakeStr(s) == Str(text, rest) <==> exists d :: Announced(s, d, text, rest)
  {
    if TakeStr(s) == Str(text, rest) {
      assert Announced(s, s[..Span(s)], text, rest);
    }
    forall d | Announced(s, d, text, rest) ensures TakeStr(s) == Str(text, rest) {
      assert s == d + (":" + text + rest);
      SpanPrefix(d, ":" + text + rest);
      assert s[..|d|] == d && s[|d| + 1..|d| + 1 + |text|] == text && s[|d| + 1 + |text|..] == rest;
    }
  }

  /** The digit loop of `get_len`. */
  method GetLen(s: string) returns (n: nat, l: nat)
    ensures l == Span(s) && n == Value(s[..l])
  {
    n, l := 0, 0;
    SpanAt(s, 0);
    while l < |s| && Digit(s[l])
      invariant l <= |s| && l + Span(s[l..]) == Span(s)
      invariant n == Value(s[..l])
    {
      SpanAt(s, l);
      assert s[..l + 1][..l] == s[..l];
      if n != 0 {
        n := n * 10;
      }
      n := n + DigitValue(s[l]);
      l := l + 1;
    }
    assert Span(s[l..]) == 0;
  }

  lemma SpanAt(s: string, l: nat)
    requires l <= |s|
    ensures l < |s| && Digit(s[l]) ==> Span(s[l..]) == 1 + Span(s[l + 1..])
    ensures s[0..] == s
  {
    if l < |s| { assert s[l..][1..] == s[l + 1..]; }
  }

  /** How far a failing `get_str` moves: to the colon, if there is a length in front of one. */
  function Skipped(s: string): (k: nat)
    ensures k <= |s|
  {
    var l := Span(s);
    if l < |s| && s[l] == ':' && Value(s[..l]) != 0 then l else 0
  }

  /** `get_str`: on success the cursor moves behind the string; a string cut short leaves it at the colon. */
  method GetStr(so: Cursor) returns (r: Taken)
    modifies so
    ensures r == TakeStr(old(so.rest)) && (r.Overrun? <==> old(so.rest) == [])
    ensures r.Str? ==> so.rest == r.rest
    ensures !r.Str? ==> so.rest == old(so.rest)[Skipped(old(so.rest))..]
  {
    var s := so.rest;
    if s == [] {
      return Overrun;
    }
    hide Span, Value;
    var n, l := GetLen(s);
    if n == 0 || l == |s| || s[l] != ':' {
      return NoStr;
    }
    so.rest := s[l..];
    if |so.rest| - 1 < n {
      return NoStr;
    }
    so.rest := so.rest[1..];
    assert so.rest == s[l + 1..];
    r := Str(so.rest[..n], so.rest[n..]);
    so.rest := so.rest[n..];
    assert r.rest == s[l + 1 + n..] && r.text == s[l + 1..l + 1 + n];
  }

  /** The canonical form of a byte string: its length, a colon and its bytes. */
  function Encode(a: string): string {
    Print(|a|) + ":" + a
  }

  /** A canonical byte string is taken back exactly, and the text after it is untouched. */
  lemma TakeEncoded(a: string, rest: string)
    requires a != []
    ensures TakeStr(Encode(a) + rest) == Str(a, rest)
  {
    var d, s := Print(|a|), Encode(a) + rest;
    assert s == d + (":" + a + rest);
    SpanPrefix(d, ":" + a + rest);
    assert s[..|d|] == d;
    PrintValue(|a|);
    assert s[|d| + 1..|d| + 1 + |a|] == a && s[|d| + 1 + |a|..] == rest;
  }
}
