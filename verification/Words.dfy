/** Fixed-width unsigned arithmetic as the C++ sources use it, written out on unbounded integers. */
module Words {
  const TWO_63: nat := 0x8000_0000_0000_0000
  const TWO_64: nat := 0x1_0000_0000_0000_0000

  /** The value an `uint64_t` holds after an operation whose mathematical result is `x`. */
  function Wrap64(x: int): (r: nat)
    ensures r < TWO_64
    ensures 0 <= x < TWO_64 ==> r == x
  {
    x % TWO_64
  }

  /** Wrapping early or late makes no difference to a sum. */
  lemma WrapAdd(x: int, y: int)
    ensures Wrap64(Wrap64(x) + y) == Wrap64(x + y)
  {
  }

  /** `static_cast<int64_t>` of an `uint64_t` value. */
  function AsInt64(x: nat): (d: int)
    ensures x < TWO_64 ==> 0 <= d + TWO_63 < TWO_64 && Wrap64(d) == x
  {
    if x < TWO_63 then x else x - TWO_64
  }

  /** The `diff` of the queue sources: both operands are cast to signed before the subtraction. */
  function SignedDiff(x: nat, y: nat): (d: int)
    ensures x < TWO_63 && y < TWO_63 ==> d == x - y
  {
    AsInt64(x) - AsInt64(y)
  }

  function Pow2(k: nat): (r: nat)
    ensures r >= 1
  {
    if k == 0 then 1 else 2 * Pow2(k - 1)
  }

  /** Bitwise conjunction, bit by bit from the least significant end. */
  function BitAnd(x: nat, y: nat): nat {
    if x == 0 || y == 0 then 0
    else 2 * BitAnd(x / 2, y / 2) + if x % 2 == 1 && y % 2 == 1 then 1 else 0
  }

  /** Masking with `2^k - 1` is the remainder modulo `2^k`. */
  lemma {:induction false} MaskIsRemainder(x: nat, k: nat)
    ensures BitAnd(x, Pow2(k) - 1) == x % Pow2(k)
  {
    if k == 0 {
    } else {
      var half := Pow2(k - 1);
      assert (Pow2(k) - 1) / 2 == half - 1;
      MaskIsRemainder(x / 2, k - 1);
      HalfRemainder(x, half);
      if x != 0 && half - 1 != 0 {
      } else if x != 0 {
        assert Pow2(k) - 1 == 1;
      }
    }
  }

  lemma HalfRemainder(x: nat, half: nat)
    requires half >= 1
    ensures x % (2 * half) == 2 * (x / 2 % half) + x % 2
  {
    var q, r := x / 2 / half, x / 2 % half;
    assert x / 2 == q * half + r;
    assert x == q * (2 * half) + (2 * r + x % 2) by {
      assert x == 2 * (x / 2) + x % 2;
      assert 2 * (q * half) == q * (2 * half);
    }
    RemainderUnique(x, 2 * half, q, 2 * r + x % 2);
  }

  /** A quotient and an in-range remainder determine `%`. */
  lemma RemainderUnique(x: int, m: int, q: int, r: int)
    requires m > 0 && 0 <= r < m && x == q * m + r
    ensures x % m == r && x / m == q
  {
    var q', r' := x / m, x % m;
    assert x == q' * m + r';
    assert (q - q') * m == r' - r;
    if q - q' >= 1 {
      MulMonotone(1, q - q', m);
    } else if q - q' <= -1 {
      MulMonotone(1, q' - q, m);
    }
  }

  /** Numbers less than `m` apart differ modulo `m`. */
  lemma RemaindersDiffer(x: int, y: int, m: int)
    requires m > 0 && x < y < x + m
    ensures x % m != y % m
  {
    var a, b := x / m, y / m;
    assert x == a * m + x % m && y == b * m + y % m;
    assert (a + 1) * m == a * m + m;
    if a >= b {
      MulMonotone(b, a, m);
    } else {
      MulMonotone(a + 1, b, m);
    }
  }

  lemma MulMonotone(a: int, b: int, m: int)
    requires a <= b && m >= 0
    ensures a * m <= b * m
  {
    assert (b - a) * m >= 0;
  }
}
