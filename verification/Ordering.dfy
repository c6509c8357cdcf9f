/** Code point order on strings, the order Python compares `str` values by. */
module Ordering {

  predicate Less(a: string, b: string) {
    b != [] && (a == [] || a[0] < b[0] || (a[0] == b[0] && Less(a[1..], b[1..])))
  }

  predicate AtMost(a: string, b: string) {
    a == b || Less(a, b)
  }

  lemma {:induction false} LessIrreflexive(a: string)
    ensures !Less(a, a)
  {
    if a != [] {
      LessIrreflexive(a[1..]);
    }
  }

  lemma {:induction false} LessTransitive(a: string, b: string, c: string)
    requires Less(a, b) && Less(b, c)
    ensures Less(a, c)
  {
    if a != [] && a[0] == b[0] && b[0] == c[0] {
      LessTransitive(a[1..], b[1..], c[1..]);
    }
  }

  lemma {:induction false} LessTotal(a: string, b: string)
    ensures a == b || Less(a, b) || Less(b, a)
  {
    if a != [] && b != [] && a[0] == b[0] {
      LessTotal(a[1..], b[1..]);
      assert a == [a[0]] + a[1..] && b == [b[0]] + b[1..];
    }
  }

  /** The first place where two strings differ decides; a proper beginning comes before. */
  predicate DecidedAt(k: nat, a: string, b: string) {
    k <= |a| && k < |b| && a[..k] == b[..k] && (k == |a| || a[k] < b[k])
  }

  lemma {:induction false} LessExactly(a: string, b: string)
    ensures Less(a, b) <==> exists k: nat :: DecidedAt(k, a, b)
  {
    if a == [] || b == [] || a[0] != b[0] {
      assert b != [] && (a == [] || a[0] < b[0]) ==> DecidedAt(0, a, b);
    } else {
      LessExactly(a[1..], b[1..]);
      forall k: nat | 0 < k ensures DecidedAt(k, a, b) <==> DecidedAt(k - 1, a[1..], b[1..]) {
        HeadDecides(k, a, b);
      }
      if k: nat :| DecidedAt(k, a[1..], b[1..]) {
        assert DecidedAt(k + 1, a, b);
      }
    }
  }

  lemma HeadDecides(k: nat, a: string, b: string)
    requires a != [] && b != [] && a[0] == b[0] && 0 < k
    ensures DecidedAt(k, a, b) <==> DecidedAt(k - 1, a[1..], b[1..])
  {
    if k <= |a| && k < |b| {
      assert a[..k] == [a[0]] + a[1..][..k - 1] && b[..k] == [b[0]] + b[1..][..k - 1];
      assert a[1..][..k - 1] == a[..k][1..] && b[1..][..k - 1] == b[..k][1..];
    }
  }
}
