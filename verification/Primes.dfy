/** `is_prime` and `nearest_prime`, with the 64-bit arithmetic of the code. */
module Primes {
  import opened Words

  ghost predicate Prime(v: nat) {
    v >= 2 && forall d: nat :: 2 <= d < v ==> v % d != 0
  }

  /** An odd square root of -7 modulo 2^64: its wrapped square is the largest one can be, 2^64 - 7. */
  const ROOT: nat := 1852311383259529397

  const TWO_32: nat := 0x1_0000_0000

  lemma RootSquare()
    ensures Wrap64(ROOT * ROOT) == TWO_64 - 7 && ROOT % 2 == 1 && TWO_32 < ROOT < (TWO_32 - 1) * (TWO_32 - 1)
  {
  }

  lemma QuotientProper(v: nat, d: nat)
    requires 2 <= d < v && v % d == 0
    ensures 2 <= v / d < v
  {
  }

  lemma DivisorPair(v: nat, d: nat) returns (e: nat)
    requires 2 <= d < v && v % d == 0
    ensures d * e == v && 2 <= e < v && v % e == 0
  {
    e := v / d;
    assert v == d * e;
    QuotientProper(v, d);
    RemainderUnique(v, e, d, 0);
  }

  /** Trial division up to the square root decides primality. */
  lemma NoSmallDivisor(v: nat, i: nat)
    requires v >= 2 && i * i > v
    requires forall d: nat :: 2 <= d < i && d < v ==> v % d != 0
    ensures Prime(v)
  {
    forall d: nat | 2 <= d < v
      ensures v % d != 0
    {
      if v % d == 0 {
        var e := DivisorPair(v, d);
        MulMonotone(i, d, e);
        MulMonotone(i, e, i);
        assert false;
      }
    }
  }

  lemma EvenMultiple(d: nat, q: nat)
    requires d % 2 == 0
    ensures d * q % 2 == 0
  {
    var m := d / 2;
    assert d * q == 2 * (m * q) by { assert d == 2 * m; }
    RemainderUnique(d * q, 2, m * q, 0);
  }

  /** An odd number has no even divisor. */
  lemma OddDivisor(v: nat, d: nat)
    requires v % 2 == 1 && d >= 2 && d % 2 == 0
    ensures v % d != 0
  {
    EvenMultiple(d, v / d);
    assert v == d * (v / d) + v % d;
  }

  /** The four odd numbers whose test could run past ROOT all have a small divisor. */
  lemma TopIsComposite(v: nat)
    requires TWO_64 - 7 <= v < TWO_64 && v % 2 == 1
    ensures v % 3 == 0 || v % 11 == 0 || v % 13 == 0
  {
    assert v == TWO_64 - 7 || v == TWO_64 - 5 || v == TWO_64 - 3 || v == TWO_64 - 1;
  }

  /**
   * Exact for every 64-bit value. From `i` = 2^32 on the square wraps, so the guard is no longer a comparison with
   * the square root; but by then no divisor is left to find, and the guard does fail before `i` reaches `v`.
   */
  method IsPrime(v: nat) returns (r: bool)
    requires v < TWO_64
    ensures r <==> Prime(v)
  {
    if v < 2 { return false; }
    if v % 2 == 0 {
      EvenPrime(v);
      return v == 2;
    }
    RootSquare();
    var i := 3;
    while Wrap64(i * i) <= v
      invariant 3 <= i <= ROOT && i % 2 == 1
      invariant forall d: nat :: 2 <= d < i ==> v % d != 0
      invariant i > TWO_32 ==> v >= (TWO_32 - 1) * (TWO_32 - 1)
      decreases ROOT - i
    {
      GuardBelow(v, i);
      if v % i == 0 {
        return false;
      }
      TryNext(v, i);
      RootNotTried(v, i);
      i := i + 2;
    }
    GuardFailed(v, i);
    return true;
  }

  lemma EvenPrime(v: nat)
    requires v % 2 == 0
    ensures Prime(v) <==> v == 2
  {
    if v > 2 {
      assert v % 2 == 0;
    }
  }

  /** After a failed trial at `i` nothing is skipped by going on to the next odd candidate. */
  lemma TryNext(v: nat, i: nat)
    requires v % 2 == 1 && 3 <= i && i % 2 == 1 && v % i != 0
    requires forall d: nat :: 2 <= d < i ==> v % d != 0
    ensures forall d: nat :: 2 <= d < i + 2 ==> v % d != 0
  {
    OddDivisor(v, i + 1);
  }

  /** The trial divisor stops short of ROOT: there the guard holds only for numbers with a small divisor. */
  lemma RootNotTried(v: nat, i: nat)
    requires v < TWO_64 && v % 2 == 1 && 3 <= i <= ROOT && i % 2 == 1 && Wrap64(i * i) <= v
    requires forall d: nat :: 2 <= d < i ==> v % d != 0
    ensures i + 2 <= ROOT
  {
    RootSquare();
    if i == ROOT {
      TopIsComposite(v);
    }
  }

  /** While the guard holds, the candidate divisor is a proper one. */
  lemma GuardBelow(v: nat, i: nat)
    requires 3 <= i <= ROOT && i % 2 == 1 && Wrap64(i * i) <= v < TWO_64
    requires i > TWO_32 ==> v >= (TWO_32 - 1) * (TWO_32 - 1)
    ensures i < v
    ensures i == TWO_32 - 1 ==> v >= (TWO_32 - 1) * (TWO_32 - 1)
  {
    RootSquare();
    if i < TWO_32 {
      SquareFits(i);
    }
  }

  lemma SquareFits(i: nat)
    requires 3 <= i < TWO_32
    ensures Wrap64(i * i) == i * i > i
  {
    MulMonotone(i, TWO_32 - 1, i);
    MulMonotone(i, TWO_32 - 1, TWO_32 - 1);
    MulMonotone(3, i, i);
  }

  /** Once the guard fails, every divisor up to the square root has been tried. */
  lemma GuardFailed(v: nat, i: nat)
    requires 3 <= i <= ROOT && v < Wrap64(i * i) && 2 <= v
    requires forall d: nat :: 2 <= d < i ==> v % d != 0
    ensures Prime(v)
  {
    if i < TWO_32 {
      SquareFits(i);
      NoSmallDivisor(v, i);
    } else {
      assert v < TWO_32 * TWO_32;
      NoSmallDivisor(v, TWO_32);
    }
  }

  // ---------------------------------------------------------------- nearest prime

  function Distance(x: nat, y: nat): nat {
    if x < y then y - x else x - y
  }

  /** `r` is a prime at minimum distance from `n` among 64-bit values, the larger one on a tie. */
  ghost predicate Nearest(n: nat, r: nat) {
    && Prime(r)
    && (forall q: nat :: q < TWO_64 && Prime(q) ==>
         Distance(r, n) < Distance(q, n) || (Distance(r, n) == Distance(q, n) && q <= r))
  }

  /** Some prime is close enough to be probed before the upward probe has wrapped round to 2. */
  ghost predicate WithinReach(n: nat) {
    exists q: nat :: q < TWO_64 && Prime(q) && Distance(q, n) <= TWO_64 - n + 1
  }

  lemma NearestToTwo()
    ensures forall r: nat :: Nearest(2, r) ==> r == 2
  {
    ThreeIsPrime();
  }

  lemma ThreeIsPrime()
    ensures Prime(3) && Prime(2) && !Prime(0) && !Prime(1)
  {
  }

  /** What the probes at distance `d` have to have missed. */
  ghost predicate Missed(n: nat, d: nat) {
    !Prime(Wrap64(n + d)) && (d < n - 2 ==> !Prime(n - d))
  }

  /** The greatest prime up to `n`. */
  ghost function LastPrime(n: nat): (p: nat)
    requires n >= 3
    ensures Prime(p) && p <= n && forall q: nat :: Prime(q) && q <= n ==> q <= p
  {
    ThreeIsPrime();
    if Prime(n) then n else LastPrime(n - 1)
  }

  /** Being within reach is a bound on `n`. */
  lemma ReachThreshold(n: nat)
    requires 2 <= n < TWO_64
    ensures WithinReach(n) <==> 2 * n <= TWO_64 + 1 + LastPrime(TWO_64 - 1)
  {
    var last := LastPrime(TWO_64 - 1);
    if 2 * n <= TWO_64 + 1 + last {
      assert Distance(last, n) <= TWO_64 - n + 1;
    }
  }

  /**
   * Terminates because the downward probe reaches 3, and returns a prime, at most 2n - 3 from n = 4 on. It is the
   * nearest 64-bit prime exactly for n up to a threshold set by the greatest 64-bit prime, certainly for n up to
   * 2^63. Above the threshold the upward probe wraps before either probe meets a prime, and the answer is 2.
   */
  method NearestPrime(n: nat) returns (r: nat)
    requires n < TWO_64
    ensures Prime(r) && r < TWO_64
    ensures n < 2 ==> r == 2
    ensures 2 <= n ==> (Nearest(n, r) <==> 2 * n <= TWO_64 + 1 + LastPrime(TWO_64 - 1))
    ensures 2 * n > TWO_64 + 1 + LastPrime(TWO_64 - 1) ==> r == 2
    ensures 2 <= n <= TWO_63 ==> Nearest(n, r)
    ensures n >= TWO_64 - 28 ==> r == 2 && !Nearest(n, r)
    ensures 4 <= n ==> r <= 2 * n - 3
  {
    ThreeIsPrime();
    var m := if n < 2 then 2 else n;
    ReachThreshold(m);
    NearestToTwo();
    if m >= TWO_64 - 28 {
      TopIsOutOfReach(m);
    }
    var lo, hi := m, m;
    ghost var d := 0;
    while true
      invariant hi == Wrap64(m + d) && 0 <= d
      invariant lo == if d < m - 2 then m - d else 2
      invariant d == 0 || d <= m - 3
      invariant AllMissed(m, d)
      decreases m - d
    {
      var up := IsPrime(hi);
      if up {
        UpwardResult(m, d, hi);
        return hi;
      }
      if lo > 2 {
        var down := IsPrime(lo);
        if down {
          DownwardResult(m, d);
          return lo;
        }
      }
      MissedToo(m, d);
      hi := Wrap64(hi + 1);
      if lo > 2 { lo := lo - 1; }
      d := d + 1;
    }
  }

  /** Everything nearer than `d` has been probed without success. */
  ghost predicate AllMissed(m: nat, d: nat) {
    forall e: nat :: e < d ==> Missed(m, e)
  }

  lemma MissedToo(m: nat, d: nat)
    requires 2 <= m < TWO_64 && AllMissed(m, d) && Missed(m, d) && (d == 0 || d <= m - 3)
    ensures AllMissed(m, d + 1) && d + 1 <= m - 3
    ensures Wrap64(Wrap64(m + d) + 1) == Wrap64(m + (d + 1))
  {
    ThreeIsPrime();
  }

  lemma MissedAt(m: nat, d: nat, e: nat)
    requires AllMissed(m, d) && e < d
    ensures Missed(m, e)
  {
  }

  /** Nothing closer than `d` in either direction, apart from 2 which the downward probe skips. */
  lemma NothingCloser(m: nat, d: nat, q: nat)
    requires 2 <= m < TWO_64 && (d == 0 || d <= m - 3)
    requires AllMissed(m, d)
    requires q < TWO_64 && Prime(q)
    ensures Distance(q, m) >= d
  {
    assert q >= m ==> Wrap64(m + Distance(q, m)) == q;
    if Distance(q, m) < d {
      MissedAt(m, d, Distance(q, m));
    }
  }

  lemma UpwardResult(m: nat, d: nat, hi: nat)
    requires 2 <= m < TWO_64 && (d == 0 || d <= m - 3)
    requires AllMissed(m, d)
    requires hi == Wrap64(m + d) && Prime(hi)
    ensures Nearest(m, hi) <==> WithinReach(m)
    ensures !WithinReach(m) ==> hi == 2
    ensures m <= TWO_63 ==> Nearest(m, hi)
    ensures 4 <= m ==> hi <= 2 * m - 3
  {
    ThreeIsPrime();
    if m + d < TWO_64 {
      assert Distance(hi, m) == d;
      forall q: nat | q < TWO_64 && Prime(q)
        ensures d < Distance(q, m) || (d == Distance(q, m) && q <= hi)
      {
        NothingCloser(m, d, q);
      }
    } else {
      WrappedResult(m, d, hi);
    }
  }

  /** When the upward probe has wrapped it finds 2, which is farther than 3: the answer is then not the nearest. */
  lemma WrappedResult(m: nat, d: nat, hi: nat)
    requires 2 <= m < TWO_64 && d <= m - 3 && m + d >= TWO_64
    requires AllMissed(m, d)
    requires hi == Wrap64(m + d) && Prime(hi)
    ensures hi == 2 && !Nearest(m, hi) && !WithinReach(m)
  {
    ThreeIsPrime();
    var w := TWO_64 - m;
    assert hi == d - w;
    assert Wrap64(m + (w + 2)) == 2;
    if hi > 2 {
      MissedAt(m, d, w + 2);
    }
    assert Distance(3, m) < Distance(2, m);
    forall q: nat | q < TWO_64 && Prime(q)
      ensures Distance(q, m) > w + 1
    {
      NothingCloser(m, d, q);
    }
  }

  lemma DownwardResult(m: nat, d: nat)
    requires 2 <= m < TWO_64 && d < m - 2
    requires AllMissed(m, d)
    requires !Prime(Wrap64(m + d)) && Prime(m - d)
    ensures Nearest(m, m - d) && WithinReach(m)
    ensures 4 <= m ==> m - d <= 2 * m - 3
  {
    ThreeIsPrime();
    forall q: nat | q < TWO_64 && Prime(q)
      ensures d < Distance(q, m) || (d == Distance(q, m) && q <= m - d)
    {
      NothingCloser(m, d, q);
      assert q == m + d ==> Wrap64(m + d) == q;
    }
    var w := TWO_64 - m;
    assert Wrap64(m + (w + 2)) == 2;
    assert Distance(m - d, m) == d;
    if d > w + 2 {
      MissedAt(m, d, w + 2);
    }
  }

  /** Numbers with equal remainders differ by a multiple. */
  lemma GapFactor(k: nat, f: nat)
    requires 2 <= f < TWO_32 && k <= 58 && k % f == TWO_64 % f
    ensures !Prime(TWO_64 - k)
  {
    var v, q := TWO_64 - k, TWO_64 / f - k / f;
    assert TWO_64 == TWO_64 / f * f + TWO_64 % f && k == k / f * f + k % f;
    assert q * f == TWO_64 / f * f - k / f * f;
    RemainderUnique(v, f, q, 0);
  }

  /** The odd numbers up to 58 that are 0 or 2 modulo 3. */
  lemma Candidates(k: nat) returns (a: nat)
    requires 1 <= k <= 58 && k % 2 == 1 && k % 3 != 1
    ensures a < 10 && (k == 6 * a + 3 || k == 6 * a + 5)
  {
    a := k / 6;
  }

  /** The 58 greatest 64-bit numbers are composite. */
  lemma LastGap(k: nat)
    requires 1 <= k <= 58
    ensures !Prime(TWO_64 - k)
  {
    if k % 2 == 0 {
      GapFactor(k, 2);
    } else if k % 3 == 1 {
      GapFactor(k, 3);
    } else {
      var a := Candidates(k);
      if k == 11 || k == 21 || k == 41 || k == 51 { GapFactor(k, 5); }
      else if k == 9 || k == 23 { GapFactor(k, 7); }
      else if k == 5 || k == 27 { GapFactor(k, 11); }
      else if k == 3 || k == 29 { GapFactor(k, 13); }
      else if k == 35 { GapFactor(k, 17); }
      else if k == 17 { GapFactor(k, 19); }
      else if k == 53 { GapFactor(k, 29); }
      else if k == 47 { GapFactor(k, 31); }
      else if k == 57 { GapFactor(k, 41); }
      else if k == 15 { GapFactor(k, 53); }
      else if k == 33 { GapFactor(k, 827); }
      else if k == 45 { GapFactor(k, 11071); }
      else if k == 39 { GapFactor(k, 139646831); }
    }
  }

  /** For the last 28 values no prime is within reach, and the answer 2 is not the nearest prime. */
  lemma TopIsOutOfReach(n: nat)
    requires TWO_64 - 28 <= n < TWO_64
    ensures 2 * n > TWO_64 + 1 + LastPrime(TWO_64 - 1) && !Nearest(n, 2)
  {
    var last := LastPrime(TWO_64 - 1);
    if last > TWO_64 - 59 {
      LastGap(TWO_64 - last);
    }
    ThreeIsPrime();
    assert Distance(3, n) < Distance(2, n);
  }
}
