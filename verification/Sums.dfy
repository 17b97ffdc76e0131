/** Sums over sequences, and the facts about them the checksum and counting results need. */
module Sums {
  import opened Words

  lemma Associative<T>(x: seq<T>, y: seq<T>, z: seq<T>)
    ensures x + (y + z) == x + y + z
  {
  }

  /** A member of a sequence, with what stands before and after it. */
  lemma TakeOut<T>(b: seq<T>, v: T) returns (x: seq<T>, y: seq<T>)
    requires v in multiset(b)
    ensures b == x + [v] + y && multiset(x + y) == multiset(b) - multiset{v} && |x + y| == |b| - 1
  {
    var i :| 0 <= i < |b| && b[i] == v;
    x, y := b[..i], b[i + 1..];
    assert b == x + [v] + y;
  }

  function Sum(s: seq<int>): int {
    if s == [] then 0 else Sum(s[..|s| - 1]) + s[|s| - 1]
  }

  /** 0, 1, ..., n-1. */
  function Upto(n: nat): (s: seq<nat>)
    ensures |s| == n
    ensures forall i :: 0 <= i < n ==> s[i] == i
  {
    seq(n, i => i)
  }

  lemma {:induction false} SumConcat(a: seq<int>, b: seq<int>)
    ensures Sum(a + b) == Sum(a) + Sum(b)
  {
    if b == [] {
      assert a + b == a;
    } else {
      var b' := b[..|b| - 1];
      assert (a + b)[..|a + b| - 1] == a + b';
      SumConcat(a, b');
    }
  }

  lemma {:induction false} SumSplit(s: seq<int>, i: nat)
    requires i < |s|
    ensures Sum(s) == Sum(s[..i]) + s[i] + Sum(s[i + 1..])
    decreases |s|
  {
    var n := |s| - 1;
    if i == n {
      assert s[i + 1..] == [];
    } else {
      var rest := s[i + 1..];
      SumSplit(s[..n], i);
      assert s[..n][..i] == s[..i];
      assert s[..n][i + 1..] == rest[..|rest| - 1];
    }
  }

  lemma {:induction false} SumNat(s: seq<nat>)
    ensures Sum(s) >= 0
  {
    if s != [] {
      SumNat(s[..|s| - 1]);
    }
  }

  /** Changing one entry changes the sum by the difference. */
  lemma SumUpdate(s: seq<int>, i: nat, v: int)
    requires i < |s|
    ensures Sum(s[i := v]) == Sum(s) - s[i] + v
  {
    var t := s[i := v];
    SumSplit(s, i);
    SumSplit(t, i);
    assert t[..i] == s[..i] && t[i + 1..] == s[i + 1..];
  }

  /** Pointwise order is preserved by summation, and the sums agree only for equal sequences. */
  lemma {:induction false} SumMonotone(a: seq<int>, b: seq<int>)
    requires |a| == |b|
    requires forall i :: 0 <= i < |a| ==> a[i] <= b[i]
    ensures Sum(a) <= Sum(b)
    ensures Sum(a) == Sum(b) <==> a == b
  {
    if a != [] {
      var n := |a| - 1;
      SumMonotone(a[..n], b[..n]);
      assert a == a[..n] + [a[n]] && b == b[..n] + [b[n]];
    }
  }

  /** The sum depends only on which values occur and how often. */
  lemma {:induction false} SumByMultiset(a: seq<int>, b: seq<int>)
    requires multiset(a) == multiset(b)
    ensures Sum(a) == Sum(b)
  {
    if a == [] {
      assert |multiset(b)| == |b|;
    } else {
      var a', v := a[..|a| - 1], a[|a| - 1];
      assert a == a' + [v];
      var x, y := TakeOut(b, v);
      SumByMultiset(a', x + y);
      SumConcat(x, y);
      SumConcat(x + [v], y);
      SumConcat(x, [v]);
    }
  }

  /** 0 + 1 + ... + (n-1) is the triangular number. */
  lemma {:induction false} SumUpto(n: nat)
    ensures Sum(Upto(n)) == n * (n - 1) / 2
    ensures 2 * Sum(Upto(n)) == n * (n - 1)
  {
    if n != 0 {
      assert Upto(n)[..n - 1] == Upto(n - 1);
      SumUpto(n - 1);
    }
  }

  /** `kTotalItems * (kTotalItems - 1) / 2` as the drivers compute it, in unsigned 64-bit arithmetic. */
  function ExpectedChecksum(total: nat): nat {
    Wrap64(total * Wrap64(total - 1)) / 2
  }

  /**
   * The wrapping sum of 0..total-1 equals that expression exactly when bit 63 of the true sum is clear: the
   * expected value is halved after it wrapped, the sum is not.
   */
  lemma ExpectedMatches(total: nat)
    requires total < TWO_64
    ensures Wrap64(Sum(Upto(total))) == ExpectedChecksum(total) <==> total * (total - 1) / 2 % TWO_64 < TWO_63
    ensures total * (total - 1) < TWO_64 ==> Wrap64(Sum(Upto(total))) == ExpectedChecksum(total)
  {
    SumUpto(total);
    SumNat(Upto(total));
    if total > 0 {
      assert Wrap64(total - 1) == total - 1;
      HalvedAfterWrapping(Sum(Upto(total)), total * (total - 1));
    }
  }

  lemma HalvedAfterWrapping(half: nat, whole: nat)
    requires whole == 2 * half
    ensures half % TWO_64 == whole % TWO_64 / 2 <==> half % TWO_64 < TWO_63
    ensures whole < TWO_64 ==> half % TWO_64 < TWO_63
  {
  }
}
