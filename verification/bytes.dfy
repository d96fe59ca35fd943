/**
  Byte strings and the engine's default bytewise ordering: bytes are compared
  one by one as unsigned values, and a proper prefix sorts before any longer
  string that extends it.
 */
module Bytes {

  type Byte = b: int | 0 <= b < 256
  type Bytes = seq<Byte>

  /** Strict bytewise order. */
  predicate Less(a: Bytes, b: Bytes)
    decreases |a|
  {
    && |b| > 0
    && (|a| == 0 || a[0] < b[0] || (a[0] == b[0] && Less(a[1..], b[1..])))
  }

  predicate LessEq(a: Bytes, b: Bytes) {
    a == b || Less(a, b)
  }

  /** `p` is a prefix of `s`. */
  predicate IsPrefix(p: Bytes, s: Bytes) {
    |p| <= |s| && s[..|p|] == p
  }

  /** `n` bytes of 0xFF: the largest string of its length. */
  function Fill(n: nat): (r: Bytes)
    ensures |r| == n
    ensures forall i :: 0 <= i < n ==> r[i] == 255
  {
    seq(n, _ => 255)
  }

  lemma {:induction false} LessIrreflexive(a: Bytes)
    ensures !Less(a, a)
    decreases |a|
  {
    if |a| > 0 {
      LessIrreflexive(a[1..]);
    }
  }

  lemma {:induction false} LessAsymmetric(a: Bytes, b: Bytes)
    requires Less(a, b)
    ensures !Less(b, a)
    decreases |a|
  {
    if |a| > 0 && a[0] == b[0] {
      LessAsymmetric(a[1..], b[1..]);
    }
  }

  lemma {:induction false} LessTransitive(a: Bytes, b: Bytes, c: Bytes)
    requires Less(a, b) && Less(b, c)
    ensures Less(a, c)
    decreases |a|
  {
    if |a| > 0 && a[0] == b[0] && b[0] == c[0] {
      LessTransitive(a[1..], b[1..], c[1..]);
    }
  }

  /** Any two distinct byte strings are ordered one way or the other. */
  lemma {:induction false} LessTotal(a: Bytes, b: Bytes)
    requires a != b
    ensures Less(a, b) || Less(b, a)
    decreases |a|
  {
    if |a| > 0 && |b| > 0 && a[0] == b[0] {
      assert a == [a[0]] + a[1..] && b == [b[0]] + b[1..];
      LessTotal(a[1..], b[1..]);
    }
  }

  lemma LessEqTransitive(a: Bytes, b: Bytes, c: Bytes)
    requires LessEq(a, b) && LessEq(b, c)
    ensures LessEq(a, c)
  {
    if a != b && b != c {
      LessTransitive(a, b, c);
    }
  }

  lemma LessLessEq(a: Bytes, b: Bytes, c: Bytes)
    requires Less(a, b) && LessEq(b, c)
    ensures Less(a, c)
  {
    if b != c {
      LessTransitive(a, b, c);
    }
  }

  lemma LessEqLess(a: Bytes, b: Bytes, c: Bytes)
    requires LessEq(a, b) && Less(b, c)
    ensures Less(a, c)
  {
    if a != b {
      LessTransitive(a, b, c);
    }
  }

  /** The negation of `Less` is the reversed `LessEq`. */
  lemma NotLess(a: Bytes, b: Bytes)
    ensures !Less(a, b) <==> LessEq(b, a)
  {
    if Less(a, b) {
      LessAsymmetric(a, b);
      if a == b {
        LessIrreflexive(a);
      }
    } else if a != b {
      LessTotal(a, b);
    }
  }

  /**
    Appending a zero byte gives the immediate successor of `x` in bytewise
    order: nothing lies strictly between `x` and `x + [0]`, so `k` sorts
    strictly below `x + [0]` exactly when it sorts at or below `x`.
   */
  lemma {:induction false} BelowSuccessor(k: Bytes, x: Bytes)
    ensures Less(k, x + [0]) <==> LessEq(k, x)
    decreases |x|
  {
    if |x| == 0 {
      assert x + [0] == [0];
      if |k| > 0 {
        assert !Less(k[1..], []);
        assert !Less(k, x);
      }
    } else if |k| > 0 && k[0] == x[0] {
      assert (x + [0])[1..] == x[1..] + [0];
      BelowSuccessor(k[1..], x[1..]);
      assert k == [k[0]] + k[1..] && x == [x[0]] + x[1..];
      if k[1..] == x[1..] {
        assert k == x;
      }
    }
  }

  /** Dually, `x + [0]` sorts at or below `k` exactly when `x` sorts strictly below `k`. */
  lemma SuccessorAtOrBelow(x: Bytes, k: Bytes)
    ensures LessEq(x + [0], k) <==> Less(x, k)
  {
    BelowSuccessor(k, x);
    NotLess(k, x + [0]);
    NotLess(x, k);
  }

  /**
    A string sorts strictly below `n` bytes of 0xFF exactly when it does not
    start with those `n` bytes.
   */
  lemma {:induction false} BelowFill(k: Bytes, n: nat)
    ensures Less(k, Fill(n)) <==> !IsPrefix(Fill(n), k)
    decreases n
  {
    if n > 0 && |k| > 0 && k[0] == 255 {
      assert Fill(n)[1..] == Fill(n - 1);
      BelowFill(k[1..], n - 1);
      if IsPrefix(Fill(n - 1), k[1..]) {
        assert k[..n] == [k[0]] + k[1..][..n - 1];
      }
      if IsPrefix(Fill(n), k) {
        assert k[1..][..n - 1] == k[..n][1..];
      }
    } else if n > 0 && |k| >= n {
      assert k[..n][0] == k[0];
    } else if n == 0 {
      assert k[..0] == [];
    }
  }
}
