/** The answers that FIPS 180-1 prints for its two short examples, computed from the definitions of `Sha1Spec`. */
module Sha1Answers {
  import opened Sha1Spec

  function W(b: seq<byte>, t: nat): bv32
    requires |b| == 64
  {
    Schedule(b, t)
  }

  function R(b: seq<byte>, h: Regs, t: nat): Regs
    requires |b| == 64
  {
    Rounds(b, h, t)
  }

  lemma NextWords(b: seq<byte>, t: nat)
    requires |b| == 64 && t >= 16
    ensures W(b, t + 0) == Expand(W(b, t + -3), W(b, t + -8), W(b, t + -14), W(b, t + -16))
    ensures W(b, t + 1) == Expand(W(b, t + -2), W(b, t + -7), W(b, t + -13), W(b, t + -15))
    ensures W(b, t + 2) == Expand(W(b, t + -1), W(b, t + -6), W(b, t + -12), W(b, t + -14))
    ensures W(b, t + 3) == Expand(W(b, t + 0), W(b, t + -5), W(b, t + -11), W(b, t + -13))
    ensures W(b, t + 4) == Expand(W(b, t + 1), W(b, t + -4), W(b, t + -10), W(b, t + -12))
    ensures W(b, t + 5) == Expand(W(b, t + 2), W(b, t + -3), W(b, t + -9), W(b, t + -11))
    ensures W(b, t + 6) == Expand(W(b, t + 3), W(b, t + -2), W(b, t + -8), W(b, t + -10))
    ensures W(b, t + 7) == Expand(W(b, t + 4), W(b, t + -1), W(b, t + -7), W(b, t + -9))
    ensures W(b, t + 8) == Expand(W(b, t + 5), W(b, t + 0), W(b, t + -6), W(b, t + -8))
    ensures W(b, t + 9) == Expand(W(b, t + 6), W(b, t + 1), W(b, t + -5), W(b, t + -7))
    ensures W(b, t + 10) == Expand(W(b, t + 7), W(b, t + 2), W(b, t + -4), W(b, t + -6))
    ensures W(b, t + 11) == Expand(W(b, t + 8), W(b, t + 3), W(b, t + -3), W(b, t + -5))
    ensures W(b, t + 12) == Expand(W(b, t + 9), W(b, t + 4), W(b, t + -2), W(b, t + -4))
    ensures W(b, t + 13) == Expand(W(b, t + 10), W(b, t + 5), W(b, t + -1), W(b, t + -3))
    ensures W(b, t + 14) == Expand(W(b, t + 11), W(b, t + 6), W(b, t + 0), W(b, t + -2))
    ensures W(b, t + 15) == Expand(W(b, t + 12), W(b, t + 7), W(b, t + 1), W(b, t + -1))
  {
  }

  lemma NextRounds(b: seq<byte>, h: Regs, from: nat)
    requires |b| == 64
    ensures forall t :: from <= t < from + 20 ==> R(b, h, t + 1) == Round(t, R(b, h, t), W(b, t))
  {
  }

  lemma RoundsStart(b: seq<byte>, h: Regs)
    requires |b| == 64
    ensures R(b, h, 0) == h
  {
  }

  lemma RoundsEnd(b: seq<byte>, h: Regs)
    requires |b| == 64
    ensures Compress(h, b) == var r := R(b, h, 80);
        Regs(Add(h.a, r.a), Add(h.b, r.b), Add(h.c, r.c), Add(h.d, r.d), Add(h.e, r.e))
  {
    hide Rounds, Add;
  }

  // ----- appendix A: the message abc -----

  ghost predicate AbcStart(b: seq<byte>)
    requires |b| == 64
  {
    W(b, 0) == 0x61626380 && W(b, 1) == 0x00000000 && W(b, 2) == 0x00000000 && W(b, 3) == 0x00000000 &&
    W(b, 4) == 0x00000000 && W(b, 5) == 0x00000000 && W(b, 6) == 0x00000000 && W(b, 7) == 0x00000000 &&
    W(b, 8) == 0x00000000 && W(b, 9) == 0x00000000 && W(b, 10) == 0x00000000 && W(b, 11) == 0x00000000 &&
    W(b, 12) == 0x00000000 && W(b, 13) == 0x00000000 && W(b, 14) == 0x00000000 && W(b, 15) == 0x00000018
  }

  ghost predicate AbcWords(b: seq<byte>)
    requires |b| == 64
  {
    W(b, 16) == 0xC2C4C700 && W(b, 17) == 0x00000000 && W(b, 18) == 0x00000030 && W(b, 19) == 0x85898E01 &&
    W(b, 20) == 0x00000000 && W(b, 21) == 0x00000060 && W(b, 22) == 0x0B131C03 && W(b, 23) == 0x00000030 &&
    W(b, 24) == 0x85898EC1 && W(b, 25) == 0x16263806 && W(b, 26) == 0x00000000 && W(b, 27) == 0x00000180 &&
    W(b, 28) == 0x2C4C700C && W(b, 29) == 0x000000F0 && W(b, 30) == 0x93AFB507 && W(b, 31) == 0x5898E048 &&
    W(b, 32) == 0x8E9A9202 && W(b, 33) == 0x00000600 && W(b, 34) == 0xB131C0F0 && W(b, 35) == 0x16263BC6 &&
    W(b, 36) == 0x4EBED41E && W(b, 37) == 0x626380A1 && W(b, 38) == 0x16263806 && W(b, 39) == 0x000018C0 &&
    W(b, 40) == 0xD2E138C4 && W(b, 41) == 0x00000F00 && W(b, 42) == 0x3AFB5079 && W(b, 43) == 0x898E04E5 &&
    W(b, 44) == 0xE2BA3C2B && W(b, 45) == 0x000060C0 && W(b, 46) == 0x053A37CD && W(b, 47) == 0x74458547
  }

  ghost predicate AbcRest(b: seq<byte>)
    requires |b| == 64
  {
    W(b, 48) == 0xDA9415ED && W(b, 49) == 0x26380A16 && W(b, 50) == 0x626383A1 && W(b, 51) == 0x4EBF54DE &&
    W(b, 52) == 0x3835B44B && W(b, 53) == 0x0000F600 && W(b, 54) == 0x1E84C7A3 && W(b, 55) == 0x98E04D98 &&
    W(b, 56) == 0x651D16A0 && W(b, 57) == 0x62658CA1 && W(b, 58) == 0x458544D6 && W(b, 59) == 0x44584CB7 &&
    W(b, 60) == 0x7BA06619 && W(b, 61) == 0x6380AEA2 && W(b, 62) == 0x0AE55269 && W(b, 63) == 0x627B49A1 &&
    W(b, 64) == 0x7CD45C9D && W(b, 65) == 0x000F0000 && W(b, 66) == 0xFB50753A && W(b, 67) == 0xEC6765E8 &&
    W(b, 68) == 0xBA3C2BE2 && W(b, 69) == 0x0060C000 && W(b, 70) == 0x3A37CD05 && W(b, 71) == 0x458546F4 &&
    W(b, 72) == 0xB8599DD6 && W(b, 73) == 0x380A1A26 && W(b, 74) == 0x01E02203 && W(b, 75) == 0xE7CC3456 &&
    W(b, 76) == 0xE6E60B69 && W(b, 77) == 0x00F60A00 && W(b, 78) == 0x5795EF4F && W(b, 79) == 0x822E0879
  }

  lemma AbcExpanded(b: seq<byte>)
    requires |b| == 64 && AbcStart(b)
    ensures AbcWords(b) && AbcRest(b)
  {
    NextWords(b, 16);
    NextWords(b, 32);
    NextWords(b, 48);
    NextWords(b, 64);
    hide W;
  }

  lemma AbcRounds20(b: seq<byte>)
    requires |b| == 64 && AbcStart(b) && AbcWords(b)
    ensures R(b, AbcIn(), 20) == Regs(0xFD9E1D7D, 0xDC64901D, 0x20AA99CA, 0xD3A49608, 0xC82F758B)
  {
    RoundsStart(b, AbcIn());
    NextRounds(b, AbcIn(), 0);
    hide W, R;
  }

  lemma AbcRounds40(b: seq<byte>)
    requires |b| == 64 && AbcWords(b)
    requires R(b, AbcIn(), 20) == Regs(0xFD9E1D7D, 0xDC64901D, 0x20AA99CA, 0xD3A49608, 0xC82F758B)
    ensures R(b, AbcIn(), 40) == Regs(0x32DE1CBA, 0x4C986405, 0xF718E5CF, 0x03D447F6, 0xF72EEC32)
  {
    NextRounds(b, AbcIn(), 20);
    hide W, R;
  }

  lemma AbcRounds60(b: seq<byte>)
    requires |b| == 64 && AbcWords(b) && AbcRest(b)
    requires R(b, AbcIn(), 40) == Regs(0x32DE1CBA, 0x4C986405, 0xF718E5CF, 0x03D447F6, 0xF72EEC32)
    ensures R(b, AbcIn(), 60) == Regs(0x3F52DE5A, 0x09D785FD, 0x3498BFD4, 0xF211824F, 0xD79915AB)
  {
    NextRounds(b, AbcIn(), 40);
    hide W, R;
  }

  lemma AbcRounds80(b: seq<byte>)
    requires |b| == 64 && AbcRest(b)
    requires R(b, AbcIn(), 60) == Regs(0x3F52DE5A, 0x09D785FD, 0x3498BFD4, 0xF211824F, 0xD79915AB)
    ensures R(b, AbcIn(), 80) == Regs(0x42541B35, 0x5738D5E1, 0x21834873, 0x681E6DF6, 0xD8FDF6AD)
  {
    NextRounds(b, AbcIn(), 60);
    hide W, R;
  }

  function AbcIn(): Regs {
    INITIAL
  }

  lemma AbcCompressed(b: seq<byte>)
    requires |b| == 64 && AbcStart(b)
    ensures Compress(AbcIn(), b) == Regs(0xA9993E36, 0x4706816A, 0xBA3E2571, 0x7850C26C, 0x9CD0D89D)
  {
    AbcExpanded(b);
    AbcRounds20(b);
    AbcRounds40(b);
    AbcRounds60(b);
    AbcRounds80(b);
    hide W, R;
    RoundsEnd(b, AbcIn());
  }

  // ----- appendix B: the first block of the longer message -----

  ghost predicate FirstStart(b: seq<byte>)
    requires |b| == 64
  {
    W(b, 0) == 0x61626364 && W(b, 1) == 0x62636465 && W(b, 2) == 0x63646566 && W(b, 3) == 0x64656667 &&
    W(b, 4) == 0x65666768 && W(b, 5) == 0x66676869 && W(b, 6) == 0x6768696A && W(b, 7) == 0x68696A6B &&
    W(b, 8) == 0x696A6B6C && W(b, 9) == 0x6A6B6C6D && W(b, 10) == 0x6B6C6D6E && W(b, 11) == 0x6C6D6E6F &&
    W(b, 12) == 0x6D6E6F70 && W(b, 13) == 0x6E6F7071 && W(b, 14) == 0x80000000 && W(b, 15) == 0x00000000
  }

  ghost predicate FirstWords(b: seq<byte>)
    requires |b| == 64
  {
    W(b, 16) == 0x0A063A3E && W(b, 17) == 0xD8DADCDF && W(b, 18) == 0xDADCDEC0 && W(b, 19) == 0xC8D2B4BE &&
    W(b, 20) == 0x6F757B5B && W(b, 21) == 0x757B5967 && W(b, 22) == 0x8DA16D70 && W(b, 23) == 0xDAEEFABA &&
    W(b, 24) == 0xFAF6CAB6 && W(b, 25) == 0xA6FB675A && W(b, 26) == 0x0C604CC8 && W(b, 27) == 0x604CC02C &&
    W(b, 28) == 0x49C0E6E2 && W(b, 29) == 0x2EE8CBBC && W(b, 30) == 0xCFD72EC4 && W(b, 31) == 0x97E9810E &&
    W(b, 32) == 0x0989CBE8 && W(b, 33) == 0xF24843FE && W(b, 34) == 0x5C40D0BA && W(b, 35) == 0xA8D9CC3B &&
    W(b, 36) == 0xB2B9666E && W(b, 37) == 0xBA7B71B7 && W(b, 38) == 0x20B28A72 && W(b, 39) == 0xB28AF500 &&
    W(b, 40) == 0x8AC87842 && W(b, 41) == 0x289ADDF4 && W(b, 42) == 0x56D51F21 && W(b, 43) == 0xD96B7FD2 &&
    W(b, 44) == 0x3868E778 && W(b, 45) == 0xAB5E4848 && W(b, 46) == 0x7F0E2118 && W(b, 47) == 0xDE87A111
  }

  ghost predicate FirstRest(b: seq<byte>)
    requires |b| == 64
  {
    W(b, 48) == 0xE8BE56B0 && W(b, 49) == 0x1A0AE652 && W(b, 50) == 0xCD5611C8 && W(b, 51) == 0x46EF29DC &&
    W(b, 52) == 0x60D3DA6D && W(b, 53) == 0xDDF3BA6E && W(b, 54) == 0x2737F5E9 && W(b, 55) == 0x4888A710 &&
    W(b, 56) == 0xD2A1177B && W(b, 57) == 0x9999633B && W(b, 58) == 0xD6C69D03 && W(b, 59) == 0xCCF6127B &&
    W(b, 60) == 0x7C58FE6D && W(b, 61) == 0xFDD99C68 && W(b, 62) == 0xF8E32074 && W(b, 63) == 0xE0BA3C7D &&
    W(b, 64) == 0x152198D6 && W(b, 65) == 0x7B3F1982 && W(b, 66) == 0x37F2D5B7 && W(b, 67) == 0x8596323E &&
    W(b, 68) == 0x810790D6 && W(b, 69) == 0xBEA0A942 && W(b, 70) == 0x11C7E1B1 && W(b, 71) == 0x6158D101 &&
    W(b, 72) == 0x5FCD77D9 && W(b, 73) == 0x7F2F12E6 && W(b, 74) == 0xF868CFB1 && W(b, 75) == 0xD6E997E9 &&
    W(b, 76) == 0xF526B852 && W(b, 77) == 0xB7578DCC && W(b, 78) == 0x55D99DF4 && W(b, 79) == 0x1FF69958
  }

  lemma FirstExpanded(b: seq<byte>)
    requires |b| == 64 && FirstStart(b)
    ensures FirstWords(b) && FirstRest(b)
  {
    NextWords(b, 16);
    NextWords(b, 32);
    NextWords(b, 48);
    NextWords(b, 64);
    hide W;
  }

  lemma FirstRounds20(b: seq<byte>)
    requires |b| == 64 && FirstStart(b) && FirstWords(b)
    ensures R(b, FirstIn(), 20) == Regs(0x6C445652, 0x944B1BD1, 0x509AE70D, 0x1AC1A012, 0x5098DF8E)
  {
    RoundsStart(b, FirstIn());
    NextRounds(b, FirstIn(), 0);
    hide W, R;
  }

  lemma FirstRounds40(b: seq<byte>)
    requires |b| == 64 && FirstWords(b)
    requires R(b, FirstIn(), 20) == Regs(0x6C445652, 0x944B1BD1, 0x509AE70D, 0x1AC1A012, 0x5098DF8E)
    ensures R(b, FirstIn(), 40) == Regs(0xADEB7478, 0x24957F22, 0x50FE1EBA, 0x564CFF26, 0xAADF0CBB)
  {
    NextRounds(b, FirstIn(), 20);
    hide W, R;
  }

  lemma FirstRounds60(b: seq<byte>)
    requires |b| == 64 && FirstWords(b) && FirstRest(b)
    requires R(b, FirstIn(), 40) == Regs(0xADEB7478, 0x24957F22, 0x50FE1EBA, 0x564CFF26, 0xAADF0CBB)
    ensures R(b, FirstIn(), 60) == Regs(0x9EF775C3, 0xF03D3782, 0xEB029E53, 0xE9A06DC8, 0x1DDB0E44)
  {
    NextRounds(b, FirstIn(), 40);
    hide W, R;
  }

  lemma FirstRounds80(b: seq<byte>)
    requires |b| == 64 && FirstRest(b)
    requires R(b, FirstIn(), 60) == Regs(0x9EF775C3, 0xF03D3782, 0xEB029E53, 0xE9A06DC8, 0x1DDB0E44)
    ensures R(b, FirstIn(), 80) == Regs(0x8CE34517, 0xD3AD7C25, 0x6B4E1883, 0x74351CD2, 0x86838382)
  {
    NextRounds(b, FirstIn(), 60);
    hide W, R;
  }

  function FirstIn(): Regs {
    INITIAL
  }

  lemma FirstCompressed(b: seq<byte>)
    requires |b| == 64 && FirstStart(b)
    ensures Compress(FirstIn(), b) == Regs(0xF4286818, 0xC37B27AE, 0x0408F581, 0x84677148, 0x4A566572)
  {
    FirstExpanded(b);
    FirstRounds20(b);
    FirstRounds40(b);
    FirstRounds60(b);
    FirstRounds80(b);
    hide W, R;
    RoundsEnd(b, FirstIn());
  }

  // ----- appendix B: the second block -----

  ghost predicate SecondStart(b: seq<byte>)
    requires |b| == 64
  {
    W(b, 0) == 0x00000000 && W(b, 1) == 0x00000000 && W(b, 2) == 0x00000000 && W(b, 3) == 0x00000000 &&
    W(b, 4) == 0x00000000 && W(b, 5) == 0x00000000 && W(b, 6) == 0x00000000 && W(b, 7) == 0x00000000 &&
    W(b, 8) == 0x00000000 && W(b, 9) == 0x00000000 && W(b, 10) == 0x00000000 && W(b, 11) == 0x00000000 &&
    W(b, 12) == 0x00000000 && W(b, 13) == 0x00000000 && W(b, 14) == 0x00000000 && W(b, 15) == 0x000001C0
  }

  ghost predicate SecondWords(b: seq<byte>)
    requires |b| == 64
  {
    W(b, 16) == 0x00000000 && W(b, 17) == 0x00000000 && W(b, 18) == 0x00000380 && W(b, 19) == 0x00000000 &&
    W(b, 20) == 0x00000000 && W(b, 21) == 0x00000700 && W(b, 22) == 0x00000000 && W(b, 23) == 0x00000380 &&
    W(b, 24) == 0x00000E00 && W(b, 25) == 0x00000000 && W(b, 26) == 0x00000000 && W(b, 27) == 0x00001C00 &&
    W(b, 28) == 0x00000000 && W(b, 29) == 0x00000D80 && W(b, 30) == 0x00003800 && W(b, 31) == 0x00000480 &&
    W(b, 32) == 0x00000000 && W(b, 33) == 0x00007000 && W(b, 34) == 0x00000E00 && W(b, 35) == 0x00003600 &&
    W(b, 36) == 0x0000E000 && W(b, 37) == 0x00000E00 && W(b, 38) == 0x00000000 && W(b, 39) == 0x0001CE00 &&
    W(b, 40) == 0x00000000 && W(b, 41) == 0x0000D800 && W(b, 42) == 0x00038000 && W(b, 43) == 0x00004F00 &&
    W(b, 44) == 0x00000000 && W(b, 45) == 0x00070E00 && W(b, 46) == 0x0000EE00 && W(b, 47) == 0x00037500
  }

  ghost predicate SecondRest(b: seq<byte>)
    requires |b| == 64
  {
    W(b, 48) == 0x000E0000 && W(b, 49) == 0x0000E000 && W(b, 50) == 0x00003600 && W(b, 51) == 0x001CEE00 &&
    W(b, 52) == 0x00000000 && W(b, 53) == 0x000DF000 && W(b, 54) == 0x00380000 && W(b, 55) == 0x0004C600 &&
    W(b, 56) == 0x0000E000 && W(b, 57) == 0x0070EE00 && W(b, 58) == 0x000EE000 && W(b, 59) == 0x00369E00 &&
    W(b, 60) == 0x00E00000 && W(b, 61) == 0x000ED600 && W(b, 62) == 0x0000E000 && W(b, 63) == 0x01CEA600 &&
    W(b, 64) == 0x00000000 && W(b, 65) == 0x00D80000 && W(b, 66) == 0x0380E000 && W(b, 67) == 0x004F0000 &&
    W(b, 68) == 0x00000000 && W(b, 69) == 0x070E0000 && W(b, 70) == 0x00EE0000 && W(b, 71) == 0x03751C00 &&
    W(b, 72) == 0x0E000000 && W(b, 73) == 0x00E0E000 && W(b, 74) == 0x00363800 && W(b, 75) == 0x1CEE9000 &&
    W(b, 76) == 0x00000000 && W(b, 77) == 0x0DF09000 && W(b, 78) == 0x3800E000 && W(b, 79) == 0x04C77400
  }

  lemma SecondExpanded(b: seq<byte>)
    requires |b| == 64 && SecondStart(b)
    ensures SecondWords(b) && SecondRest(b)
  {
    NextWords(b, 16);
    NextWords(b, 32);
    NextWords(b, 48);
    NextWords(b, 64);
    hide W;
  }

  lemma SecondRounds20(b: seq<byte>)
    requires |b| == 64 && SecondStart(b) && SecondWords(b)
    ensures R(b, SecondIn(), 20) == Regs(0xD8992153, 0xC2EB709F, 0x2946D62F, 0x9541F6DB, 0x365DC8D8)
  {
    RoundsStart(b, SecondIn());
    NextRounds(b, SecondIn(), 0);
    hide W, R;
  }

  lemma SecondRounds40(b: seq<byte>)
    requires |b| == 64 && SecondWords(b)
    requires R(b, SecondIn(), 20) == Regs(0xD8992153, 0xC2EB709F, 0x2946D62F, 0x9541F6DB, 0x365DC8D8)
    ensures R(b, SecondIn(), 40) == Regs(0x03BB6310, 0x84E2A5F2, 0x21F56E03, 0xB3BD6B84, 0x1A5B6901)
  {
    NextRounds(b, SecondIn(), 20);
    hide W, R;
  }

  lemma SecondRounds60(b: seq<byte>)
    requires |b| == 64 && SecondWords(b) && SecondRest(b)
    requires R(b, SecondIn(), 40) == Regs(0x03BB6310, 0x84E2A5F2, 0x21F56E03, 0xB3BD6B84, 0x1A5B6901)
    ensures R(b, SecondIn(), 60) == Regs(0xA65818F7, 0x5B086C42, 0xB9E15956, 0xEA1256A6, 0xDB69CB9F)
  {
    NextRounds(b, SecondIn(), 40);
    hide W, R;
  }

  lemma SecondRounds80(b: seq<byte>)
    requires |b| == 64 && SecondRest(b)
    requires R(b, SecondIn(), 60) == Regs(0xA65818F7, 0x5B086C42, 0xB9E15956, 0xEA1256A6, 0xDB69CB9F)
    ensures R(b, SecondIn(), 80) == Regs(0x906FD62C, 0x58C0AAC0, 0xB6A55520, 0x74E9B89D, 0x9AF00B7F)
  {
    NextRounds(b, SecondIn(), 60);
    hide W, R;
  }

  function SecondIn(): Regs {
    Regs(0xF4286818, 0xC37B27AE, 0x0408F581, 0x84677148, 0x4A566572)
  }

  lemma SecondCompressed(b: seq<byte>)
    requires |b| == 64 && SecondStart(b)
    ensures Compress(SecondIn(), b) == Regs(0x84983E44, 0x1C3BD26E, 0xBAAE4AA1, 0xF95129E5, 0xE54670F1)
  {
    SecondExpanded(b);
    SecondRounds20(b);
    SecondRounds40(b);
    SecondRounds60(b);
    SecondRounds80(b);
    hide W, R;
    RoundsEnd(b, SecondIn());
  }

  // ----- the two digests -----

  const ABC: seq<byte> := [0x61, 0x62, 0x63]

  /** The words of a padded block, by its bytes. */
  lemma WordAt(b: seq<byte>, t: nat, p: byte, q: byte, r: byte, s: byte)
    requires |b| == 64 && t < 16 && b[4 * t] == p && b[4 * t + 1] == q && b[4 * t + 2] == r && b[4 * t + 3] == s
    ensures W(b, t) == Pack(p, q, r, s)
  {
  }

  lemma AbcBlock()
    ensures |Padded(ABC)| == 64 && AbcStart(Padded(ABC))
  {
    hide Padded, Be32, AbcStart;
    var b := Padded(ABC);
    PaddedShort(ABC);
    LengthField(0, 0, 0, 0, 0);
    LengthField(24, 0, 0, 0, 24);
    AbcLayout(b, Zeros(52));
    AbcBytes(b);
  }

  lemma AbcLayout(b: seq<byte>, z: seq<byte>)
    requires |z| == 52 && (forall i :: 0 <= i < 52 ==> z[i] == 0)
    requires b == ABC + ([0x80] + z + [0, 0, 0, 0] + [0, 0, 0, 24])
    ensures |b| == 64 && b[0] == 0x61 && b[1] == 0x62 && b[2] == 0x63 && b[3] == 0x80 && b[63] == 24
    ensures forall i :: 4 <= i < 63 ==> b[i] == 0
  {
    assert b[4..56] == z && b[56..] == [0, 0, 0, 0] + [0, 0, 0, 24];
    forall i | 4 <= i < 63 ensures b[i] == 0 {
      if i < 56 {
        assert b[i] == b[4..56][i - 4];
      } else {
        assert b[i] == b[56..][i - 56];
      }
    }
  }

  lemma AbcBytes(b: seq<byte>)
    requires |b| == 64 && b[0] == 0x61 && b[1] == 0x62 && b[2] == 0x63 && b[3] == 0x80 && b[63] == 24
    requires forall i :: 4 <= i < 63 ==> b[i] == 0
    ensures AbcStart(b)
  {
    WordAt(b, 0, 0x61, 0x62, 0x63, 0x80);
    forall t | 1 <= t < 15 ensures W(b, t) == Pack(0, 0, 0, 0) { WordAt(b, t, 0, 0, 0, 0); }
    WordAt(b, 15, 0, 0, 0, 24);
    hide W;
  }

  lemma PaddedShort(m: seq<byte>)
    requires |m| < 64
    ensures Padded(m) == m + ([0x80] + Zeros(PadLength(|m|) - 1) + Be32(0) + Be32(8 * |m|))
  {
    hide Be32, Zeros;
    assert (8 * |m|) % TWO64 / TWO32 == 0 && (8 * |m|) % TWO32 == 8 * |m|;
  }

  /** The four bytes of a length. */
  lemma LengthField(n: nat, p: byte, q: byte, r: byte, s: byte)
    requires n / 0x100_0000 % 256 == p as int && n / 0x1_0000 % 256 == q as int
    requires n / 0x100 % 256 == r as int && n % 256 == s as int
    ensures Be32(n) == [p, q, r, s]
  {
    ByteIs(n / 0x100_0000, p);
    ByteIs(n / 0x1_0000, q);
    ByteIs(n / 0x100, r);
    ByteIs(n, s);
    hide Byte;
  }

  lemma ByteIs(n: int, b: byte)
    requires n % 256 == b as int
    ensures Byte(n) == b
  {
    assert b as int as byte == b;
  }

  /** Appendix A of FIPS 180-1. */
  lemma AbcDigest()
    ensures Sha1(ABC) == 
      [0xA9, 0x99, 0x3E, 0x36] + [0x47, 0x06, 0x81, 0x6A] + [0xBA, 0x3E, 0x25, 0x71]
      + [0x78, 0x50, 0xC2, 0x6C] + [0x9C, 0xD0, 0xD8, 0x9D]
  {
    var b := Padded(ABC);
    AbcBlock();
    hide Padded, Compress, Blocks, AbcStart;
    AbcCompressed(b);
    OneBlock(b, INITIAL);
    Spelled(0xA9993E36, 0xA9, 0x99, 0x3E, 0x36);
    Spelled(0x4706816A, 0x47, 0x06, 0x81, 0x6A);
    Spelled(0xBA3E2571, 0xBA, 0x3E, 0x25, 0x71);
    Spelled(0x7850C26C, 0x78, 0x50, 0xC2, 0x6C);
    Spelled(0x9CD0D89D, 0x9C, 0xD0, 0xD8, 0x9D);
    hide BytesOf, Pack;
  }

  lemma Spelled(w: bv32, p: byte, q: byte, r: byte, s: byte)
    requires w == Pack(p, q, r, s)
    ensures BytesOf(w) == [p, q, r, s]
  {
    BytesOfPack(p, q, r, s);
  }

  lemma OneBlock(b: seq<byte>, h: Regs)
    requires |b| == 64
    ensures Blocks(b, h) == Compress(h, b)
  {
    assert b[..64] == b && b[64..] == [];
    hide Compress;
  }

  /** abcd bcde cdef and so on up to nopq, one word of four letters each. */
  const LETTERS: seq<bv32> := [
    0x61626364, 0x62636465, 0x63646566, 0x64656667, 0x65666768, 0x66676869, 0x6768696A, 0x68696A6B, 0x696A6B6C,
    0x6A6B6C6D, 0x6B6C6D6E, 0x6C6D6E6F, 0x6D6E6F70, 0x6E6F7071]

  /** The bytes of a list of words. */
  function Bytes(ws: seq<bv32>): (m: seq<byte>)
    ensures |m| == 4 * |ws|
  {
    if ws == [] then [] else BytesOf(ws[0]) + Bytes(ws[1..])
  }

  lemma {:induction false} BytesAt(ws: seq<bv32>, t: nat)
    requires t < |ws|
    ensures Bytes(ws)[4 * t..4 * t + 4] == BytesOf(ws[t])
    decreases t
  {
    var m := Bytes(ws[1..]);
    assert Bytes(ws) == BytesOf(ws[0]) + m && |BytesOf(ws[0])| == 4;
    hide Bytes, BytesOf;
    if t > 0 {
      BytesAt(ws[1..], t - 1);
      assert Bytes(ws)[4 * t..4 * t + 4] == m[4 * (t - 1)..4 * (t - 1) + 4];
    }
  }

  lemma WordOfBytes(b: seq<byte>, t: nat, w: bv32)
    requires |b| == 64 && t < 16 && b[4 * t..4 * t + 4] == BytesOf(w)
    ensures W(b, t) == w
  {
    PackBytesOf(w);
    hide BytesOf, Pack;
    var c := b[4 * t..4 * t + 4];
    assert c[0] == b[4 * t] && c[1] == b[4 * t + 1] && c[2] == b[4 * t + 2] && c[3] == b[4 * t + 3];
    WordAt(b, t, c[0], c[1], c[2], c[3]);
  }

  /** Appendix B of FIPS 180-1. */
  lemma LettersDigest(ws: seq<bv32>)
    requires ws == LETTERS
    ensures Sha1(Bytes(ws)) == 
      [0x84, 0x98, 0x3E, 0x44] + [0x1C, 0x3B, 0xD2, 0x6E] + [0xBA, 0xAE, 0x4A, 0xA1]
      + [0xF9, 0x51, 0x29, 0xE5] + [0xE5, 0x46, 0x70, 0xF1]
  {
    var p := Padded(Bytes(ws));
    PaddedWords(ws);
    hide Padded, Compress, Blocks, Bytes, FirstStart, SecondStart, Fourteen;
    LettersStart(p[..64], ws);
    TwoBlocks(p, INITIAL);
    FirstCompressed(p[..64]);
    SecondCompressed(p[64..]);
    Spelled(0x84983E44, 0x84, 0x98, 0x3E, 0x44);
    Spelled(0x1C3BD26E, 0x1C, 0x3B, 0xD2, 0x6E);
    Spelled(0xBAAE4AA1, 0xBA, 0xAE, 0x4A, 0xA1);
    Spelled(0xF95129E5, 0xF9, 0x51, 0x29, 0xE5);
    Spelled(0xE54670F1, 0xE5, 0x46, 0x70, 0xF1);
    hide BytesOf, Pack;
  }

  lemma LettersStart(b: seq<byte>, ws: seq<bv32>)
    requires |b| == 64 && ws == LETTERS && Fourteen(b, ws)
    ensures FirstStart(b)
  {
    hide W;
  }

  lemma TwoBlocks(p: seq<byte>, h: Regs)
    requires |p| == 128
    ensures Blocks(p, h) == Compress(Compress(h, p[..64]), p[64..])
  {
    hide Compress;
    assert p == p[..64] + p[64..];
    BlocksAppend(p[..64], p[64..], h);
    OneBlock(p[..64], h);
    OneBlock(p[64..], Compress(h, p[..64]));
  }

  /** The words of the two blocks that fourteen words are padded to. */
  lemma PaddedWords(ws: seq<bv32>)
    requires |ws| == 14
    ensures var p := Padded(Bytes(ws)); |p| == 128 && Fourteen(p[..64], ws) && SecondStart(p[64..])
  {
    hide Padded, Be32, Fourteen, SecondStart, Bytes;
    var m, p := Bytes(ws), Padded(Bytes(ws));
    assert |m| == 56 && PadLength(56) == 64;
    PaddedShort(m);
    LengthField(0, 0, 0, 0, 0);
    LengthField(448, 0, 0, 1, 0xC0);
    assert p == m + ([0x80] + Zeros(63) + [0, 0, 0, 0] + [0, 0, 1, 0xC0]);
    var a, b := p[..64], p[64..];
    assert a == m + ([0x80] + Zeros(7));
    assert (forall i :: 0 <= i < 62 ==> b[i] == 0) && b[62] == 1 && b[63] == 0xC0;
    FirstBytes(a, ws);
    SecondBytes(b);
  }

  ghost predicate Fourteen(b: seq<byte>, ws: seq<bv32>)
    requires |b| == 64 && |ws| == 14
  {
    (forall t :: 0 <= t < 14 ==> W(b, t) == ws[t]) && W(b, 14) == 0x8000_0000 && W(b, 15) == 0
  }

  lemma FirstBytes(b: seq<byte>, ws: seq<bv32>)
    requires |ws| == 14 && b == Bytes(ws) + ([0x80] + Zeros(7))
    ensures |b| == 64 && Fourteen(b, ws)
  {
    assert |b| == 64;
    forall t | 0 <= t < 14 ensures W(b, t) == ws[t] {
      BytesAt(ws, t);
      hide Bytes, BytesOf, W;
      assert b[4 * t..4 * t + 4] == Bytes(ws)[4 * t..4 * t + 4];
      WordOfBytes(b, t, ws[t]);
    }
    WordAt(b, 14, 0x80, 0, 0, 0);
    WordAt(b, 15, 0, 0, 0, 0);
    hide W, Bytes;
  }

  lemma SecondBytes(b: seq<byte>)
    requires |b| == 64 && (forall i :: 0 <= i < 62 ==> b[i] == 0) && b[62] == 1 && b[63] == 0xC0
    ensures SecondStart(b)
  {
    forall t | 0 <= t < 15 ensures W(b, t) == Pack(0, 0, 0, 0) { WordAt(b, t, 0, 0, 0, 0); }
    WordAt(b, 15, 0, 0, 1, 0xC0);
    hide W;
  }

  // ----- laws of the parts -----

  /** A word and its bytes are the same thing written in two ways. */
  lemma BytesOfPack(p: byte, q: byte, r: byte, s: byte)
    ensures BytesOf(Pack(p, q, r, s)) == [p, q, r, s]
  {
  }

  lemma PackBytesOf(w: bv32)
    ensures var b := BytesOf(w); Pack(b[0], b[1], b[2], b[3]) == w
  {
  }

  /** The constants are the square roots of 2, 3, 5 and 10, times 2^30, without their fractions. */
  lemma RootConstants(t: nat)
    ensures var n, k := if t < 20 then 2 else if t < 40 then 3 else if t < 60 then 5 else 10, K(t) as int;
      k * k <= n * 0x1000_0000_0000_0000 < (k + 1) * (k + 1)
  {
    assert (0x5A827999 as bv32) as int == 0x5A827999 && (0x6ED9EBA1 as bv32) as int == 0x6ED9EBA1;
    assert (0x8F1BBCDC as bv32) as int == 0x8F1BBCDC && (0xCA62C1D6 as bv32) as int == 0xCA62C1D6;
  }
}
