// Sums of a weight over a sequence: the bookkeeping behind every counting invariant.
module Sums {

  function Sum<T>(f: T -> int, s: seq<T>): int {
    if s == [] then 0 else f(s[0]) + Sum(f, s[1..])
  }

  lemma {:induction false} SumUpdate<T>(f: T -> int, s: seq<T>, i: nat, x: T)
    requires i < |s|
    ensures Sum(f, s[i := x]) == Sum(f, s) - f(s[i]) + f(x)
  {
    if i == 0 {
      assert s[0 := x][1..] == s[1..];
    } else {
      assert s[i := x][1..] == s[1..][i - 1 := x];
      SumUpdate(f, s[1..], i - 1, x);
    }
  }

  lemma {:induction false} SumConcat<T>(f: T -> int, s: seq<T>, t: seq<T>)
    ensures Sum(f, s + t) == Sum(f, s) + Sum(f, t)
  {
    if s == [] {
      assert s + t == t;
    } else {
      assert (s + t)[1..] == s[1..] + t;
      SumConcat(f, s[1..], t);
    }
  }

  lemma {:induction false} SumBounds<T>(f: T -> int, s: seq<T>, lo: int, hi: int)
    requires forall i :: 0 <= i < |s| ==> lo <= f(s[i]) <= hi
    ensures lo * |s| <= Sum(f, s) <= hi * |s|
  {
    if s != [] {
      forall i | 0 <= i < |s[1..]| ensures lo <= f(s[1..][i]) <= hi { assert s[1..][i] == s[i + 1]; }
      SumBounds(f, s[1..], lo, hi);
      assert lo * |s| == lo * |s[1..]| + lo;
      assert hi * |s| == hi * |s[1..]| + hi;
    }
  }

  /** One element of a sum of non-negative weights is at most the whole sum. */
  lemma {:induction false} SumMember<T>(f: T -> int, s: seq<T>, i: nat)
    requires i < |s|
    requires forall j :: 0 <= j < |s| ==> 0 <= f(s[j])
    ensures f(s[i]) <= Sum(f, s)
  {
    assert s == s[..i] + [s[i]] + s[i + 1..];
    SumConcat(f, s[..i] + [s[i]], s[i + 1..]);
    SumConcat(f, s[..i], [s[i]]);
    SumBoundsBelow(f, s[..i]);
    SumBoundsBelow(f, s[i + 1..]);
  }

  lemma {:induction false} SumBoundsBelow<T>(f: T -> int, s: seq<T>)
    requires forall j :: 0 <= j < |s| ==> 0 <= f(s[j])
    ensures 0 <= Sum(f, s)
  {
    if s != [] {
      forall i | 0 <= i < |s[1..]| ensures 0 <= f(s[1..][i]) { assert s[1..][i] == s[i + 1]; }
      SumBoundsBelow(f, s[1..]);
    }
  }

  /** Two different elements of a sum of non-negative weights. */
  lemma {:induction false} SumTwoMembers<T>(f: T -> int, s: seq<T>, i: nat, j: nat)
    requires i < j < |s|
    requires forall k :: 0 <= k < |s| ==> 0 <= f(s[k])
    ensures f(s[i]) + f(s[j]) <= Sum(f, s)
  {
    assert s == s[..j] + s[j..];
    SumConcat(f, s[..j], s[j..]);
    SumMember(f, s[..j], i);
    SumMember(f, s[j..], 0);
  }

  /** A positive sum has a positive element. */
  lemma {:induction false} SumPositive<T>(f: T -> int, s: seq<T>) returns (i: nat)
    requires Sum(f, s) > 0
    ensures i < |s| && f(s[i]) > 0
  {
    if f(s[0]) > 0 {
      i := 0;
    } else {
      var k := SumPositive(f, s[1..]);
      i := k + 1;
    }
  }
}
