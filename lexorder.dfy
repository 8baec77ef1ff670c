/**
 * Go's `<` on strings: bytewise lexicographic order, a proper prefix being
 * smaller. Comparing characters by code point gives the same order as
 * comparing their UTF-8 bytes, so strings are compared character by character.
 */
module LexOrder {

  predicate Less(a: string, b: string)
    ensures Less(a, b) ==> a != b
  {
    if a == [] then b != []
    else if b == [] then false
    else if a[0] != b[0] then a[0] < b[0]
    else Less(a[1..], b[1..])
  }

  lemma {:induction false} Irreflexive(a: string)
    ensures !Less(a, a)
  {
    if a != [] {
      Irreflexive(a[1..]);
    }
  }

  lemma {:induction false} Asymmetric(a: string, b: string)
    requires Less(a, b)
    ensures !Less(b, a)
  {
    if a != [] && b != [] && a[0] == b[0] {
      Asymmetric(a[1..], b[1..]);
    }
  }

  lemma {:induction false} Transitive(a: string, b: string, c: string)
    requires Less(a, b) && Less(b, c)
    ensures Less(a, c)
  {
    if a != [] && a[0] == b[0] && b[0] == c[0] {
      Transitive(a[1..], b[1..], c[1..]);
    }
  }

  /** Any two different strings are ordered one way or the other. */
  lemma {:induction false} Total(a: string, b: string)
    requires a != b
    ensures Less(a, b) || Less(b, a)
  {
    if a != [] && b != [] && a[0] == b[0] {
      assert a == [a[0]] + a[1..] && b == [b[0]] + b[1..];
      Total(a[1..], b[1..]);
    }
  }

  /** Some position holds a smaller character in `a`, all earlier ones being equal. */
  predicate SmallerAtFirstDifference(a: string, b: string) {
    exists k :: 0 <= k < |a| && k < |b| && a[..k] == b[..k] && a[k] < b[k]
  }

  lemma DifferenceAfterEqualHeads(a: string, b: string)
    requires a != [] && b != [] && a[0] == b[0]
    ensures SmallerAtFirstDifference(a, b) <==> SmallerAtFirstDifference(a[1..], b[1..])
    ensures a < b <==> a[1..] < b[1..]
  {
    if SmallerAtFirstDifference(a[1..], b[1..]) {
      var k :| 0 <= k < |a[1..]| && k < |b[1..]| && a[1..][..k] == b[1..][..k] && a[1..][k] < b[1..][k];
      assert a[..k + 1] == [a[0]] + a[1..][..k] && b[..k + 1] == [b[0]] + b[1..][..k];
      assert a[k + 1] < b[k + 1];
    }
    if SmallerAtFirstDifference(a, b) {
      var k :| 0 <= k < |a| && k < |b| && a[..k] == b[..k] && a[k] < b[k];
      assert k != 0;
      assert a[1..][..k - 1] == a[..k][1..] && b[1..][..k - 1] == b[..k][1..];
      assert a[1..][k - 1] < b[1..][k - 1];
    }
    assert a == [a[0]] + a[1..] && b == [b[0]] + b[1..];
  }

  lemma DifferenceAtHeads(a: string, b: string)
    requires a != [] && b != [] && a[0] != b[0]
    ensures SmallerAtFirstDifference(a, b) <==> a[0] < b[0]
    ensures !(a < b)
  {
    if a[0] < b[0] {
      assert a[..0] == b[..0];
    }
  }

  /**
   * The order compares at the first position where the strings differ; when
   * there is none, the proper prefix comes first.
   */
  lemma {:induction false} LessAtFirstDifference(a: string, b: string)
    ensures Less(a, b) <==> a < b || SmallerAtFirstDifference(a, b)
  {
    if a != [] && b != [] {
      if a[0] == b[0] {
        LessAtFirstDifference(a[1..], b[1..]);
        DifferenceAfterEqualHeads(a, b);
      } else {
        DifferenceAtHeads(a, b);
      }
    }
  }
}
