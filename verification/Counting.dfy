/** Counting the entries of a sequence that have a property. */
module Counting {
  import opened Sums

  function Count<T>(s: seq<T>, wanted: T -> bool): nat {
    if s == [] then 0 else Count(s[..|s| - 1], wanted) + if wanted(s[|s| - 1]) then 1 else 0
  }

  lemma CountOne<T>(s: seq<T>, v: T, wanted: T -> bool)
    ensures Count(s + [v], wanted) == Count(s, wanted) + if wanted(v) then 1 else 0
  {
    assert (s + [v])[..|s + [v]| - 1] == s;
  }

  lemma {:induction false} CountConcat<T>(a: seq<T>, b: seq<T>, wanted: T -> bool)
    ensures Count(a + b, wanted) == Count(a, wanted) + Count(b, wanted)
  {
    if b == [] {
      assert a + b == a;
    } else {
      assert (a + b)[..|a + b| - 1] == a + b[..|b| - 1];
      CountConcat(a, b[..|b| - 1], wanted);
    }
  }

  lemma CountMiddle<T>(a: seq<T>, v: T, b: seq<T>, wanted: T -> bool)
    ensures Count(a + [v] + b, wanted) == Count(a + b, wanted) + if wanted(v) then 1 else 0
  {
    CountConcat(a + [v], b, wanted);
    CountOne(a, v, wanted);
    CountConcat(a, b, wanted);
  }

  /** Counting does not depend on the order. */
  lemma {:induction false} CountByMultiset<T>(a: seq<T>, b: seq<T>, wanted: T -> bool)
    requires multiset(a) == multiset(b)
    ensures Count(a, wanted) == Count(b, wanted)
  {
    if a == [] {
      assert |multiset(b)| == |b|;
    } else {
      var a', v := a[..|a| - 1], a[|a| - 1];
      assert a == a' + [v];
      var x, y := TakeOut(b, v);
      CountByMultiset(a', x + y, wanted);
      CountMiddle(x, v, y, wanted);
    }
  }

  lemma {:induction false} CountNone<T>(s: seq<T>, wanted: T -> bool)
    requires forall i :: 0 <= i < |s| ==> !wanted(s[i])
    ensures Count(s, wanted) == 0
  {
    if s != [] {
      CountNone(s[..|s| - 1], wanted);
    }
  }

  lemma {:induction false} CountAll<T>(s: seq<T>, wanted: T -> bool)
    requires forall i :: 0 <= i < |s| ==> wanted(s[i])
    ensures Count(s, wanted) == |s|
  {
    if s != [] {
      CountAll(s[..|s| - 1], wanted);
    }
  }

  /** A weaker property holds at least as often, and no property more often than there are entries. */
  lemma {:induction false} CountMonotone<T>(s: seq<T>, few: T -> bool, many: T -> bool)
    requires forall i :: 0 <= i < |s| && few(s[i]) ==> many(s[i])
    ensures Count(s, few) <= Count(s, many) <= |s|
  {
    if s != [] {
      CountMonotone(s[..|s| - 1], few, many);
    }
  }
}
