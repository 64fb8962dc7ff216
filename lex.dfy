/**
  The order Go's `<` puts on strings: lexicographic, character by character,
  where a proper prefix comes before every longer string that extends it.
  (Go compares the bytes of the UTF-8 encoding; on well-formed text that is the
  same as comparing code points, which is what Dafny's `char` comparison does.)
  Dafny's own `<` on sequences means "proper prefix", so the order is written out.
 */
module Lex {

  /** The executable comparison: a is strictly before b. */
  predicate LexLess(a: string, b: string)
    decreases |a|
  {
    if |b| == 0 then false
    else if |a| == 0 then true
    else if a[0] != b[0] then a[0] < b[0]
    else LexLess(a[1..], b[1..])
  }

  /** a is not after b (the "less or equal" of the same order). */
  predicate NotAfter(a: string, b: string)
  {
    !LexLess(b, a)
  }

  /** Position k is where a and b part: they agree before k, and at k either
      a has ended while b goes on, or a's character is the smaller one. */
  ghost predicate PartsAt(a: string, b: string, k: nat)
  {
    && k <= |a| && k <= |b|
    && a[..k] == b[..k]
    && ((k == |a| && k < |b|) || (k < |a| && k < |b| && a[k] < b[k]))
  }

  /** The textbook definition of lexicographic order, independent of LexLess. */
  ghost predicate LexBefore(a: string, b: string)
  {
    exists k: nat :: PartsAt(a, b, k)
  }

  lemma {:induction false} PartsAtTail(a: string, b: string, k: nat)
    requires 0 < |a| && 0 < |b| && a[0] == b[0]
    ensures PartsAt(a, b, k + 1) <==> PartsAt(a[1..], b[1..], k)
  {
    if k + 1 <= |a| && k + 1 <= |b| {
      assert a[..k + 1] == [a[0]] + a[1..][..k];
      assert b[..k + 1] == [b[0]] + b[1..][..k];
    }
  }

  /** LexLess agrees with the textbook definition, in both directions. */
  lemma {:induction false} LexLessIsLexBefore(a: string, b: string)
    ensures LexLess(a, b) <==> LexBefore(a, b)
    decreases |a|
  {
    if |b| == 0 {
      if PartsAt(a, b, 0) { }
      assert forall k: nat :: !PartsAt(a, b, k);
    } else if |a| == 0 {
      assert PartsAt(a, b, 0);
    } else if a[0] != b[0] {
      if a[0] < b[0] {
        assert PartsAt(a, b, 0);
      } else {
        forall k: nat ensures !PartsAt(a, b, k) {
          if k > 0 && k <= |a| && k <= |b| {
            assert a[..k][0] == a[0] && b[..k][0] == b[0];
          }
        }
      }
    } else {
      LexLessIsLexBefore(a[1..], b[1..]);
      if LexLess(a, b) {
        var k: nat :| PartsAt(a[1..], b[1..], k);
        PartsAtTail(a, b, k);
      } else {
        forall k: nat ensures !PartsAt(a, b, k) {
          if k == 0 {
          } else {
            PartsAtTail(a, b, k - 1);
          }
        }
      }
    }
  }

  lemma {:induction false} LexLessIrreflexive(a: string)
    ensures !LexLess(a, a)
    decreases |a|
  {
    if |a| > 0 {
      LexLessIrreflexive(a[1..]);
    }
  }

  lemma {:induction false} LexLessTransitive(a: string, b: string, c: string)
    requires LexLess(a, b) && LexLess(b, c)
    ensures LexLess(a, c)
    decreases |a|
  {
    if |a| > 0 && a[0] == b[0] && b[0] == c[0] {
      LexLessTransitive(a[1..], b[1..], c[1..]);
    }
  }

  /** Any two different strings are ordered one way or the other. */
  lemma {:induction false} LexLessTotal(a: string, b: string)
    requires a != b
    ensures LexLess(a, b) || LexLess(b, a)
    decreases |a|
  {
    if |a| > 0 && |b| > 0 && a[0] == b[0] {
      assert a == [a[0]] + a[1..] && b == [b[0]] + b[1..];
      LexLessTotal(a[1..], b[1..]);
    }
  }

  /** NotAfter is a total preorder: reflexive, total and transitive. */
  lemma NotAfterReflexive(a: string)
    ensures NotAfter(a, a)
  {
    LexLessIrreflexive(a);
  }

  lemma NotAfterTotal(a: string, b: string)
    ensures NotAfter(a, b) || NotAfter(b, a)
  {
    if a == b {
      LexLessIrreflexive(a);
    } else {
      LexLessTotal(a, b);
      if LexLess(a, b) && LexLess(b, a) {
        LexLessTransitive(a, b, a);
        LexLessIrreflexive(a);
      }
    }
  }

  lemma NotAfterTransitive(a: string, b: string, c: string)
    requires NotAfter(a, b) && NotAfter(b, c)
    ensures NotAfter(a, c)
  {
    if LexLess(c, a) {
      if a == b {
      } else {
        LexLessTotal(a, b);
        LexLessTransitive(c, a, b);
      }
    }
  }

  /** Strictly before, then not after, gives strictly before. */
  lemma LessThenNotAfter(a: string, b: string, c: string)
    requires LexLess(a, b) && NotAfter(b, c)
    ensures LexLess(a, c)
  {
    if b == c {
    } else {
      LexLessTotal(b, c);
      LexLessTransitive(a, b, c);
    }
  }
}
