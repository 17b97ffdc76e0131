/**
 * The two matrix multiplications, i-j-k and i-k-j, on flat row-major arrays. Addition and multiplication are
 * parameters without any law, as rounding floating-point operations have none.
 */
module Matrix {
  import opened Words

  /** `mat(m, r, c)` addresses entry `r * N + c`. */
  function Flat(r: nat, c: nat, n: nat): (x: nat)
    requires r < n && c < n
    ensures x < n * n && x / n == r && x % n == c
  {
    RemainderUnique(r * n + c, n, r, c);
    MulMonotone(r + 1, n, n);
    r * n + c
  }

  lemma Position(x: nat, n: nat)
    requires x < n * n
    ensures x / n < n && x % n < n && Flat(x / n, x % n, n) == x
  {
    if x / n >= n {
      MulMonotone(n, x / n, n);
    }
  }

  /** `acc` plus the first `k` products of row and column of entry `x`, added from the left. */
  function DotFrom<T>(acc: T, a: seq<T>, b: seq<T>, n: nat, x: nat, k: nat, add: (T, T) -> T, mul: (T, T) -> T): T
    requires |a| == |b| == n * n && x < n * n && k <= n
  {
    Position(x, n);
    if k == 0 then acc
    else add(DotFrom(acc, a, b, n, x, k - 1, add, mul), mul(a[Flat(x / n, k - 1, n)], b[Flat(k - 1, x % n, n)]))
  }

  /** The matrix product added onto `c`, entry by entry. */
  function Accumulated<T>(c: seq<T>, a: seq<T>, b: seq<T>, n: nat, add: (T, T) -> T, mul: (T, T) -> T): (r: seq<T>)
    requires |a| == |b| == |c| == n * n
    ensures |r| == n * n && forall x :: 0 <= x < n * n ==> r[x] == DotFrom(c[x], a, b, n, x, n, add, mul)
  {
    seq(n * n, x requires 0 <= x < n * n => DotFrom(c[x], a, b, n, x, n, add, mul))
  }

  function Filled<T>(v: T, len: nat): (s: seq<T>)
    ensures |s| == len && forall i :: 0 <= i < len ==> s[i] == v
  {
    seq(len, _ => v)
  }

  /** The entries before row `i`, column `j` are finished. */
  ghost predicate Finished<T>(c: seq<T>, zero: T, a: seq<T>, b: seq<T>, n: nat, i: nat, j: nat,
                              add: (T, T) -> T, mul: (T, T) -> T)
    requires |a| == |b| == n * n
  {
    |c| == n * n && forall x :: 0 <= x < n * n && x < i * n + j ==> c[x] == DotFrom(zero, a, b, n, x, n, add, mul)
  }

  lemma FinishOne<T>(c: seq<T>, sum: T, zero: T, a: seq<T>, b: seq<T>, n: nat, i: nat, j: nat,
                     add: (T, T) -> T, mul: (T, T) -> T)
    requires |a| == |b| == n * n && i < n && j < n && Finished(c, zero, a, b, n, i, j, add, mul)
    requires sum == DotFrom(zero, a, b, n, Flat(i, j, n), n, add, mul)
    ensures Finished(c[Flat(i, j, n) := sum], zero, a, b, n, i, j + 1, add, mul)
  {
    var x, c' := Flat(i, j, n), c[Flat(i, j, n) := sum];
    assert x == i * n + j;
    forall y | 0 <= y < n * n && y < x + 1
      ensures c'[y] == DotFrom(zero, a, b, n, y, n, add, mul)
    {
      if y < x {
        assert c'[y] == c[y];
      }
    }
  }

  lemma FinishRow<T>(c: seq<T>, zero: T, a: seq<T>, b: seq<T>, n: nat, i: nat, add: (T, T) -> T, mul: (T, T) -> T)
    requires |a| == |b| == n * n && Finished(c, zero, a, b, n, i, n, add, mul)
    ensures Finished(c, zero, a, b, n, i + 1, 0, add, mul)
  {
    assert (i + 1) * n == i * n + n;
  }

  method MultiplyBad<T>(a: array<T>, b: array<T>, c: array<T>, n: nat, zero: T, add: (T, T) -> T, mul: (T, T) -> T)
    requires a.Length == b.Length == c.Length == n * n && c != a && c != b
    modifies c
    ensures c[..] == Accumulated(Filled(zero, n * n), a[..], b[..], n, add, mul)
  {
    for i := 0 to n
      invariant Finished(c[..], zero, a[..], b[..], n, i, 0, add, mul)
    {
      for j := 0 to n
        invariant Finished(c[..], zero, a[..], b[..], n, i, j, add, mul)
      {
        var sum := zero;
        for k := 0 to n
          invariant sum == DotFrom(zero, a[..], b[..], n, Flat(i, j, n), k, add, mul)
        {
          sum := add(sum, mul(a[Flat(i, k, n)], b[Flat(k, j, n)]));
        }
        FinishOne(c[..], sum, zero, a[..], b[..], n, i, j, add, mul);
        c[Flat(i, j, n)] := sum;
      }
      FinishRow(c[..], zero, a[..], b[..], n, i, add, mul);
    }
  }

  /** How many products entry `x` has received when the loops stand at row `i`, product `k`, column `j`. */
  function Received(x: nat, n: nat, i: nat, k: nat, j: nat): (steps: nat)
    requires k <= n && j <= n && (j > 0 ==> k < n)
    ensures steps <= n
  {
    if x < i * n then n else if x < i * n + j then k + 1 else if x < i * n + n then k else 0
  }

  ghost predicate Progress<T>(c: seq<T>, was: seq<T>, a: seq<T>, b: seq<T>, n: nat, i: nat, k: nat, j: nat,
                              add: (T, T) -> T, mul: (T, T) -> T)
    requires |a| == |b| == |was| == n * n && k <= n && j <= n && (j > 0 ==> k < n)
  {
    && |c| == n * n
    && forall x :: 0 <= x < n * n ==> c[x] == DotFrom(was[x], a, b, n, x, Received(x, n, i, k, j), add, mul)
  }

  lemma NextColumn<T>(c: seq<T>, was: seq<T>, a: seq<T>, b: seq<T>, n: nat, i: nat, k: nat, j: nat,
                      add: (T, T) -> T, mul: (T, T) -> T)
    requires |a| == |b| == |was| == n * n && i < n && k < n && j < n
    requires Progress(c, was, a, b, n, i, k, j, add, mul)
    ensures var x := Flat(i, j, n);
      Progress(c[x := add(c[x], mul(a[Flat(i, k, n)], b[Flat(k, j, n)]))], was, a, b, n, i, k, j + 1, add, mul)
  {
    var x := Flat(i, j, n);
    assert Received(x, n, i, k, j) == k && Received(x, n, i, k, j + 1) == k + 1;
    assert forall y :: 0 <= y < n * n && y != x ==> Received(y, n, i, k, j) == Received(y, n, i, k, j + 1);
  }

  lemma NextProduct<T>(c: seq<T>, was: seq<T>, a: seq<T>, b: seq<T>, n: nat, i: nat, k: nat,
                       add: (T, T) -> T, mul: (T, T) -> T)
    requires |a| == |b| == |was| == n * n && i < n && k < n
    requires Progress(c, was, a, b, n, i, k, n, add, mul)
    ensures Progress(c, was, a, b, n, i, k + 1, 0, add, mul)
  {
    assert forall y :: 0 <= y < n * n ==> Received(y, n, i, k, n) == Received(y, n, i, k + 1, 0);
  }

  lemma NextRow<T>(c: seq<T>, was: seq<T>, a: seq<T>, b: seq<T>, n: nat, i: nat, add: (T, T) -> T, mul: (T, T) -> T)
    requires |a| == |b| == |was| == n * n && i < n
    requires Progress(c, was, a, b, n, i, n, 0, add, mul)
    ensures Progress(c, was, a, b, n, i + 1, 0, 0, add, mul)
  {
    assert (i + 1) * n == i * n + n;
    assert forall y :: 0 <= y < n * n ==> Received(y, n, i, n, 0) == Received(y, n, i + 1, 0, 0);
  }

  method MultiplyGood<T>(a: array<T>, b: array<T>, c: array<T>, n: nat, add: (T, T) -> T, mul: (T, T) -> T)
    requires a.Length == b.Length == c.Length == n * n && c != a && c != b
    modifies c
    ensures c[..] == Accumulated(old(c[..]), a[..], b[..], n, add, mul)
  {
    hide Flat;
    ghost var was := c[..];
    for i := 0 to n
      invariant Progress(c[..], was, a[..], b[..], n, i, 0, 0, add, mul)
    {
      for k := 0 to n
        invariant Progress(c[..], was, a[..], b[..], n, i, k, 0, add, mul)
      {
        var aik := a[Flat(i, k, n)];
        for j := 0 to n
          invariant Progress(c[..], was, a[..], b[..], n, i, k, j, add, mul)
        {
          NextColumn(c[..], was, a[..], b[..], n, i, k, j, add, mul);
          var x := Flat(i, j, n);
          c[x] := add(c[x], mul(aik, b[Flat(k, j, n)]));
        }
        NextProduct(c[..], was, a[..], b[..], n, i, k, add, mul);
      }
      NextRow(c[..], was, a[..], b[..], n, i, add, mul);
    }
  }

  /** `init` followed by either multiplication: the two programs compute the same C, whatever + and * are. */
  method RunBoth<T>(a: array<T>, b: array<T>, n: nat, zero: T, add: (T, T) -> T, mul: (T, T) -> T)
    returns (bad: array<T>, good: array<T>)
    requires a.Length == b.Length == n * n
    ensures fresh(bad) && fresh(good) && bad[..] == good[..]
    ensures bad[..] == Accumulated(Filled(zero, n * n), a[..], b[..], n, add, mul)
  {
    bad := new T[n * n](_ => zero);
    good := new T[n * n](_ => zero);
    MultiplyBad(a, b, bad, n, zero, add, mul);
    assert good[..] == Filled(zero, n * n);
    MultiplyGood(a, b, good, n, add, mul);
  }
}
