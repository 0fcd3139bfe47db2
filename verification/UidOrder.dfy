/** The order in which the rule store keeps its keys: `strcmp` on rule uids (lib/bsdrb.c). */
module UidOrder {

  /** A uid is a NUL-terminated C string; the terminator is not part of the value. */
  type Uid = string

  /** The sign of C's `strcmp`: the first differing byte decides, and a proper prefix comes first. */
  function Strcmp(a: Uid, b: Uid): (r: int) {
    if a == [] && b == [] then 0
    else if a == [] then -1
    else if b == [] then 1
    else if a[0] < b[0] then -1
    else if b[0] < a[0] then 1
    else Strcmp(a[1..], b[1..])
  }

  predicate Less(a: Uid, b: Uid) {
    Strcmp(a, b) < 0
  }

  /** `strcmp` reports 0 exactly on equal strings, and swapping the arguments flips the sign. */
  lemma {:induction false} StrcmpTrichotomy(a: Uid, b: Uid)
    ensures Strcmp(a, b) == 0 <==> a == b
    ensures Strcmp(a, b) > 0 <==> Less(b, a)
  {
    if a != [] && b != [] && a[0] == b[0] {
      StrcmpTrichotomy(a[1..], b[1..]);
      assert a == [a[0]] + a[1..] && b == [b[0]] + b[1..];
    }
  }

  /** `strcmp` orders uids transitively, so it is a strict total order together with `StrcmpTrichotomy`. */
  lemma {:induction false} LessTransitive(a: Uid, b: Uid, c: Uid)
    requires Less(a, b) && Less(b, c)
    ensures Less(a, c)
  {
    if a != [] && a[0] == b[0] && b[0] == c[0] {
      LessTransitive(a[1..], b[1..], c[1..]);
    }
  }

  /** The common prefix of two uids is `n` characters long, and `a` ends there or has the smaller character there. */
  ghost predicate SmallerAt(a: Uid, b: Uid, n: nat) {
    && n <= |a| && n < |b| && a[..n] == b[..n]
    && (n < |a| ==> a[n] < b[n])
  }

  /** The order is the one of the dictionary: the first differing character decides, and a proper prefix comes first. */
  lemma {:induction false} LessIff(a: Uid, b: Uid)
    ensures Less(a, b) <==> exists n :: SmallerAt(a, b, n)
  {
    if a == [] || b == [] || a[0] != b[0] {
      if Less(a, b) { assert SmallerAt(a, b, 0); }
      forall n: nat | SmallerAt(a, b, n) ensures Less(a, b) {
        assert n > 0 ==> a[..n][0] == b[..n][0];
      }
    } else {
      LessIff(a[1..], b[1..]);
      forall n: nat | SmallerAt(a[1..], b[1..], n) ensures SmallerAt(a, b, n + 1) {
        assert a[..n + 1] == [a[0]] + a[1..][..n] && b[..n + 1] == [b[0]] + b[1..][..n];
      }
      forall n: nat | SmallerAt(a, b, n) ensures n > 0 && SmallerAt(a[1..], b[1..], n - 1) {
        assert a[1..][..n - 1] == a[..n][1..] && b[1..][..n - 1] == b[..n][1..];
      }
    }
  }
}
