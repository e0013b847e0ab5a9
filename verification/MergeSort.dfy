/**
 The bottom-up merge sort of 1/solution/solution.c: read_file, me_merge and me_mergesort. The yields in
 me_mergesort hand control to other coroutines, which never touch this array; Pool.dfy interleaves them.
 */
module MergeSort {
  import opened Integers
  import opened Options

  predicate Sorted(s: seq<int>) {
    forall i, j :: 0 <= i < j < |s| ==> s[i] <= s[j]
  }

  function Min(a: int, b: int): int { if a < b then a else b }

  // ---- Specification

  // On equal heads the right one goes first, as in me_merge.
  function Merge(l: seq<int>, r: seq<int>): (m: seq<int>)
    ensures |m| == |l| + |r|
  {
    if l == [] then r
    else if r == [] then l
    else if l[0] < r[0] then [l[0]] + Merge(l[1..], r)
    else [r[0]] + Merge(l, r[1..])
  }

  // One pass over blocks of width w; a single element that is left over stays where it is.
  function Pass(s: seq<int>, w: nat): (t: seq<int>)
    requires w >= 1
    ensures |t| == |s|
  {
    if |s| < 2 then s
    else
      var mid, end := Min(w, |s|), Min(2 * w, |s|);
      Merge(s[..mid], s[mid..end]) + Pass(s[end..], w)
  }

  function Passes(s: seq<int>, w: nat): (t: seq<int>)
    requires w >= 1
    ensures |t| == |s|
    decreases |s| + 1 - w
  {
    if w > |s| then s else Passes(Pass(s, w), 2 * w)
  }

  // Every block of width w is sorted.
  predicate Runs(s: seq<int>, w: nat)
    requires w >= 1
  {
    if |s| <= w then Sorted(s) else Sorted(s[..w]) && Runs(s[w..], w)
  }

  // ---- The specification sorts

  lemma {:induction false} MergeBag(l: seq<int>, r: seq<int>)
    ensures multiset(Merge(l, r)) == multiset(l) + multiset(r)
  {
    if l != [] && r != [] {
      assert l == [l[0]] + l[1..] && r == [r[0]] + r[1..];
      if l[0] < r[0] { MergeBag(l[1..], r); } else { MergeBag(l, r[1..]); }
    }
  }

  lemma SortedCons(x: int, s: seq<int>)
    requires Sorted(s) && forall y :: y in s ==> x <= y
    ensures Sorted([x] + s)
  {
    var t := [x] + s;
    forall i, j | 0 <= i < j < |t| ensures t[i] <= t[j] {
      assert t[j] == s[j - 1] && t[j] in s;
      if i > 0 { assert t[i] == s[i - 1]; }
    }
  }

  lemma {:induction false} MergeSorted(l: seq<int>, r: seq<int>)
    requires Sorted(l) && Sorted(r)
    ensures Sorted(Merge(l, r))
  {
    if l != [] && r != [] {
      if l[0] < r[0] {
        MergeSorted(l[1..], r);
        MergeMembers(l[1..], r);
        SortedCons(l[0], Merge(l[1..], r));
      } else {
        MergeSorted(l, r[1..]);
        MergeMembers(l, r[1..]);
        SortedCons(r[0], Merge(l, r[1..]));
      }
    }
  }

  lemma MergeMembers(l: seq<int>, r: seq<int>)
    ensures forall y :: y in Merge(l, r) <==> y in l || y in r
  {
    MergeBag(l, r);
    forall y ensures y in Merge(l, r) <==> y in l || y in r {
      assert y in Merge(l, r) <==> y in multiset(Merge(l, r));
      assert y in l <==> y in multiset(l);
      assert y in r <==> y in multiset(r);
    }
  }

  lemma {:induction false} PassBag(s: seq<int>, w: nat)
    requires w >= 1
    ensures multiset(Pass(s, w)) == multiset(s)
  {
    if |s| >= 2 {
      var mid, end := Min(w, |s|), Min(2 * w, |s|);
      MergeBag(s[..mid], s[mid..end]);
      PassBag(s[end..], w);
      ThreeBlocks(s, mid, end);
    }
  }

  lemma ThreeBlocks(s: seq<int>, mid: nat, end: nat)
    requires mid <= end <= |s|
    ensures multiset(s) == multiset(s[..mid]) + multiset(s[mid..end]) + multiset(s[end..])
  {
    assert s == s[..mid] + s[mid..end] + s[end..];
  }

  // The blocks that one merge of a pass takes are sorted, and so are the ones after it.
  lemma FirstBlocks(s: seq<int>, w: nat)
    requires w >= 1 && Runs(s, w) && |s| >= 2
    ensures var mid, end := Min(w, |s|), Min(2 * w, |s|);
      Sorted(s[..mid]) && Sorted(s[mid..end]) && Runs(s[end..], w)
  {
    if |s| > w {
      SecondBlock(s, w);
    } else {
      assert s[..|s|] == s && s[|s|..] == [];
    }
  }

  lemma SecondBlock(s: seq<int>, w: nat)
    requires w >= 1 && |s| > w && Runs(s[w..], w)
    ensures var end := Min(2 * w, |s|); Sorted(s[w..end]) && Runs(s[end..], w)
  {
    var t := s[w..];
    if |t| > w {
      assert t[..w] == s[w..2 * w] && t[w..] == s[2 * w..];
    } else {
      assert t == s[w..|s|] && s[|s|..] == [];
    }
  }

  /** A pass doubles the width of the sorted blocks. */
  lemma {:induction false} PassDoublesRuns(s: seq<int>, w: nat)
    requires w >= 1 && Runs(s, w)
    ensures Runs(Pass(s, w), 2 * w)
  {
    if |s| >= 2 {
      var mid, end := Min(w, |s|), Min(2 * w, |s|);
      FirstBlocks(s, w);
      MergeSorted(s[..mid], s[mid..end]);
      PassDoublesRuns(s[end..], w);
      var m := Merge(s[..mid], s[mid..end]);
      assert Pass(s, w) == m + Pass(s[end..], w);
      if |s| <= 2 * w {
        assert Pass(s, w) == m;
      } else {
        assert Pass(s, w)[..2 * w] == m && Pass(s, w)[2 * w..] == Pass(s[end..], w);
      }
    }
  }

  lemma {:induction false} PassesSort(s: seq<int>, w: nat)
    requires w >= 1 && Runs(s, w)
    ensures Sorted(Passes(s, w)) && multiset(Passes(s, w)) == multiset(s)
    decreases |s| + 1 - w
  {
    if w <= |s| {
      PassDoublesRuns(s, w);
      PassBag(s, w);
      PassesSort(Pass(s, w), 2 * w);
    }
  }

  lemma {:induction false} SingleRuns(s: seq<int>)
    ensures Runs(s, 1)
  {
    if |s| > 1 { SingleRuns(s[1..]); }
  }

  /** What me_mergesort leaves in the array is sorted and a permutation of what was there. */
  lemma SortCorrect(s: seq<int>)
    ensures Sorted(Passes(s, 1)) && multiset(Passes(s, 1)) == multiset(s)
  {
    SingleRuns(s);
    PassesSort(s, 1);
  }

  /** A bag has only one sorted sequence. */
  lemma {:induction false} SortedUnique(s: seq<int>, t: seq<int>)
    requires Sorted(s) && Sorted(t) && multiset(s) == multiset(t)
    ensures s == t
  {
    assert |s| == |multiset(s)| == |multiset(t)| == |t|;
    if s != [] {
      SameHead(s, t);
      TailBag(s);
      TailBag(t);
      SortedUnique(s[1..], t[1..]);
      assert s == [s[0]] + s[1..] && t == [t[0]] + t[1..];
    }
  }

  lemma SameHead(s: seq<int>, t: seq<int>)
    requires Sorted(s) && Sorted(t) && multiset(s) == multiset(t) && s != [] && t != []
    ensures s[0] == t[0]
  {
    assert s[0] in multiset(t) && t[0] in multiset(s);
  }

  lemma TailBag(s: seq<int>)
    requires s != []
    ensures multiset(s[1..]) == multiset(s) - multiset{s[0]}
  {
    assert s == [s[0]] + s[1..];
  }

  // ---- me_merge

  // With fewer elements than this, no int of the code overflows: int32 makes Dafny check every expression.
  const LIMIT := 0x4000_0000

  // The loops that fill larr and rarr, from the cells base + i + shift.
  method CopyOut(src: array<int>, base: int32, shift: int32, size: int32) returns (dst: array<int>)
    requires base >= 0 && shift >= 0 && size >= 0
    requires base as int + shift as int + size as int <= src.Length < LIMIT
    ensures fresh(dst) && dst.Length == size as int
    ensures var from := base as int + shift as int; dst[..] == src[..][from..from + size as int]
  {
    ghost var from := base as int + shift as int;
    dst := new int[size];
    var i: int32 := 0;
    while i < size
      invariant 0 <= i <= size
      invariant dst[..i] == src[from..from + i as int]
    {
      dst[i] := src[base + i + shift];
      i := i + 1;
    }
  }

  // The loops that put back what is left of one half.
  method PutBack(dst: array<int>, k: int32, src: array<int>, i: int32, size: int32) returns (k': int32)
    requires dst != src && 0 <= i <= size && size as int == src.Length
    requires k >= 0 && k as int + size as int - i as int <= dst.Length < LIMIT
    modifies dst
    ensures k' as int == k as int + size as int - i as int
    ensures dst[..] == old(dst[..])[..k] + src[..][i..] + old(dst[..])[k'..]
  {
    ghost var end := k as int + size as int - i as int;
    ghost var pre, post := dst[..k], dst[end..];
    k' := k;
    var m := i;
    while m < size
      invariant i <= m <= size && k' as int == k as int + m as int - i as int
      invariant dst[..k] == pre && dst[end..] == post
      invariant dst[k..k'] == src[i..m]
    {
      dst[k'] := src[m];
      m := m + 1;
      k' := k' + 1;
    }
    assert dst[..] == dst[..k] + dst[k..end] + dst[end..];
  }

  // The loop that merges until one half runs out.
  method Interleave(array': array<int>, lhs: int32, larr: array<int>, lsize: int32, rarr: array<int>, rsize: int32)
    returns (i: int32, j: int32, k: int32, ghost compares: nat)
    requires array' != larr && array' != rarr && 0 <= lhs
    requires 0 <= lsize as int == larr.Length && 0 <= rsize as int == rarr.Length
    requires lhs as int + larr.Length + rarr.Length <= array'.Length < LIMIT
    modifies array'
    ensures 0 <= i <= lsize && 0 <= j <= rsize && (i == lsize || j == rsize)
    ensures k as int == lhs as int + i as int + j as int && compares == i as int + j as int
    ensures array'[..][..k] + Merge(larr[..][i..], rarr[..][j..])
         == old(array'[..])[..lhs] + Merge(larr[..], rarr[..])
    ensures forall m :: k as int <= m < array'.Length ==> array'[..][m] == old(array'[..])[m]
  {
    hide Merge;
    i, j, k, compares := 0, 0, lhs, 0;
    ghost var l, r := larr[..], rarr[..];
    ghost var all := array'[..][..lhs] + Merge(l, r);
    assert array'[..][..lhs] == array'[..lhs];
    assert l[0..] == l && r[0..] == r;
    while i < lsize && j < rsize
      invariant 0 <= i <= lsize && 0 <= j <= rsize
      invariant k as int == lhs as int + i as int + j as int && compares == i as int + j as int
      invariant larr[..] == l && rarr[..] == r
      invariant array'[..k] + Merge(l[i..], r[j..]) == all
      invariant forall m :: k as int <= m < array'.Length ==> array'[m] == old(array'[m])
    {
      ghost var done := array'[..k];
      compares := compares + 1;
      MergeStep(l, r, i as int, j as int, done);
      if larr[i] < rarr[j] {
        array'[k] := larr[i];
        i := i + 1;
      } else {
        array'[k] := rarr[j];
        j := j + 1;
      }
      k := k + 1;
      assert array'[..k] == done + [array'[k - 1]];
    }
    assert array'[..][..k] == array'[..k];
  }

  lemma MergeStep(l: seq<int>, r: seq<int>, i: nat, j: nat, done: seq<int>)
    requires i < |l| && j < |r|
    ensures done + Merge(l[i..], r[j..])
         == if l[i] < r[j] then done + [l[i]] + Merge(l[i + 1..], r[j..]) else done + [r[j]] + Merge(l[i..], r[j + 1..])
  {
    assert l[i..][1..] == l[i + 1..] && r[j..][1..] == r[j + 1..];
  }

  // The array with the blocks lhs..mid and mid + 1..rhs merged.
  function Merged(s: seq<int>, lhs: nat, mid: nat, rhs: nat): (t: seq<int>)
    requires lhs <= mid <= rhs < |s|
    ensures |t| == |s|
  {
    s[..lhs] + Merge(s[lhs..mid + 1], s[mid + 1..rhs + 1]) + s[rhs + 1..]
  }

  method MeMerge(array': array<int>, lhs: int32, mid: int32, rhs: int32) returns (ghost compares: nat)
    requires 0 <= lhs <= mid <= rhs && (rhs as int) < array'.Length < LIMIT
    modifies array'
    ensures array'[..] == Merged(old(array'[..]), lhs as int, mid as int, rhs as int)
    ensures compares <= rhs as int - lhs as int + 1
  {
    ghost var a := array'[..];
    var lsize := mid - lhs + 1;
    var rsize := rhs - mid;
    var larr := CopyOut(array', lhs, 0, lsize);
    var rarr := CopyOut(array', mid, 1, rsize);
    assert array'[..] == a && larr[..] == a[lhs..mid + 1] && rarr[..] == a[mid + 1..rhs + 1];
    compares := MergeBack(array', lhs, larr, lsize, rarr, rsize);
  }

  // The three loops that write the merged halves back.
  method MergeBack(array': array<int>, lhs: int32, larr: array<int>, lsize: int32, rarr: array<int>, rsize: int32)
    returns (ghost compares: nat)
    requires array' != larr && array' != rarr && 0 <= lhs
    requires 0 <= lsize as int == larr.Length && 0 <= rsize as int == rarr.Length
    requires lhs as int + larr.Length + rarr.Length <= array'.Length < LIMIT
    modifies array'
    ensures array'[..] == old(array'[..])[..lhs] + Merge(larr[..], rarr[..])
                          + old(array'[..])[lhs as int + larr.Length + rarr.Length..]
    ensures compares <= larr.Length + rarr.Length
  {
    hide Merge;
    ghost var a0, end := array'[..], lhs as int + larr.Length + rarr.Length;
    var i, j, k;
    i, j, k, compares := Interleave(array', lhs, larr, lsize, rarr, rsize);
    ghost var a1 := array'[..];
    MergeRest(larr[..][i..], rarr[..][j..]);
    assert a1[end..] == a0[end..];
    PutBackBoth(array', k, larr, i, lsize, rarr, j, rsize);
  }

  // Both remaining loops: the cells from k on get what is left of the two halves.
  method PutBackBoth(dst: array<int>, k: int32, larr: array<int>, i: int32, lsize: int32,
                     rarr: array<int>, j: int32, rsize: int32)
    requires dst != larr && dst != rarr && 0 <= i <= lsize && 0 <= j <= rsize && k >= 0
    requires lsize as int == larr.Length && rsize as int == rarr.Length
    requires k as int + larr.Length - i as int + rarr.Length - j as int <= dst.Length < LIMIT
    modifies dst
    ensures var end := k as int + larr.Length - i as int + rarr.Length - j as int;
      dst[..] == old(dst[..])[..k] + (larr[..][i..] + rarr[..][j..]) + old(dst[..])[end..]
  {
    ghost var end := k as int + larr.Length - i as int + rarr.Length - j as int;
    ghost var pre, post := dst[..][..k], dst[..][end..];
    assert dst[..k] == pre && dst[end..] == post;
    var k' := PutBack(dst, k, larr, i, lsize);
    assert dst[..k'] == pre + larr[i..];
    assert dst[end..] == post;
    k' := PutBack(dst, k', rarr, j, rsize);
  }

  lemma MergeRest(l: seq<int>, r: seq<int>)
    requires l == [] || r == []
    ensures Merge(l, r) == l + r
  {
  }

  // ---- me_mergesort

  // The array after the merge at left in a pass of width w.
  function MergeAt(s: seq<int>, w: nat, left: nat): (t: seq<int>)
    requires w >= 1 && left < |s| - 1
    ensures |t| == |s|
  {
    Merged(s, left, Min(left + w - 1, |s| - 1), Min(left + 2 * w - 1, |s| - 1))
  }

  // What the sort still makes of the array from the inner loop at left in the pass of width w on.
  function Resume(s: seq<int>, w: nat, left: nat): (t: seq<int>)
    requires w >= 1
    ensures |t| == |s|
  {
    if w > |s| then s else Passes(s[..Min(left, |s|)] + Pass(s[Min(left, |s|)..], w), 2 * w)
  }

  lemma ResumeStart(s: seq<int>, w: nat)
    requires w >= 1
    ensures Resume(s, w, 0) == Passes(s, w)
  {
    assert s[..0] + Pass(s[0..], w) == Pass(s, w) by { assert s[0..] == s; }
  }

  // The first merge of the rest of a pass, in terms of the whole array.
  lemma PassAt(s: seq<int>, w: nat, left: nat)
    requires w >= 1 && left < |s| - 1
    ensures var mid, m := Min(left + w, |s|), Min(left + 2 * w, |s|);
      Pass(s[left..], w) == Merge(s[left..mid], s[mid..m]) + Pass(s[m..], w)
  {
    hide Merge;
    var u, mid, m := s[left..], Min(left + w, |s|), Min(left + 2 * w, |s|);
    assert u[..mid - left] == s[left..mid];
    assert u[mid - left..m - left] == s[mid..m];
    assert u[m - left..] == s[m..];
  }

  lemma CutAt(p: seq<int>, x: seq<int>, rest: seq<int>)
    ensures (p + x + rest)[..|p| + |x|] == p + x && (p + x + rest)[|p| + |x|..] == rest
  {
  }

  lemma MergeAtStep(s: seq<int>, w: nat, left: nat)
    requires w >= 1 && left < |s| - 1
    ensures var t, m := MergeAt(s, w, left), Min(left + 2 * w, |s|);
      t[..m] + Pass(t[m..], w) == s[..left] + Pass(s[left..], w)
  {
    hide Pass, Merge;
    var mid, m := Min(left + w, |s|), Min(left + 2 * w, |s|);
    PassAt(s, w, left);
    CutAt(s[..left], Merge(s[left..mid], s[mid..m]), s[m..]);
  }

  /** One merge of the inner loop keeps what the sort will arrive at. */
  lemma ResumeMerge(s: seq<int>, w: nat, left: nat)
    requires 1 <= w <= |s| && left < |s| - 1
    ensures Resume(MergeAt(s, w, left), w, left + 2 * w) == Resume(s, w, left)
  {
    MergeAtStep(s, w, left);
  }

  /** So does the end of a pass. */
  lemma ResumeNextPass(s: seq<int>, w: nat, left: nat)
    requires 1 <= w <= |s| && left >= |s| - 1
    ensures Resume(s, 2 * w, 0) == Resume(s, w, left)
  {
    ResumeStart(s, 2 * w);
    var m := Min(left, |s|);
    assert Pass(s[m..], w) == s[m..];
    assert s[..m] + s[m..] == s;
  }

  // Merges of one pass over len elements.
  function Merges(len: nat, w: nat): nat
    requires w >= 1
  {
    if len < 2 then 0 else 1 + Merges(len - Min(2 * w, len), w)
  }

  // Yields from the pass of width w on: one after each merge and one after each pass.
  function YieldsFrom(n: nat, w: nat): nat
    requires w >= 1
    decreases n + 1 - w
  {
    if w > n then 0 else Merges(n, w) + 1 + YieldsFrom(n, 2 * w)
  }

  // At most n comparisons in each pass from width w on.
  function ComparesFrom(n: nat, w: nat): nat
    requires w >= 1
    decreases n + 1 - w
  {
    if w > n then 0 else n + ComparesFrom(n, 2 * w)
  }

  function PassCount(n: nat, w: nat): nat
    requires w >= 1
    decreases n + 1 - w
  {
    if w > n then 0 else 1 + PassCount(n, 2 * w)
  }

  method MeMergesort(array': array<int>, rhs: int32) returns (ghost compares: nat, ghost switches: nat)
    requires rhs as int == array'.Length < LIMIT
    modifies array'
    ensures array'[..] == Passes(old(array'[..]), 1)
    ensures compares <= ComparesFrom(rhs as int, 1)
    ensures switches == YieldsFrom(rhs as int, 1)
  {
    compares, switches := 0, 0;
    ghost var n, target := rhs as int, Passes(array'[..], 1);
    ResumeStart(array'[..], 1);
    var currSize: int32 := 1;
    while currSize <= rhs
      invariant currSize >= 1 && Resume(array'[..], currSize as int, 0) == target
      invariant compares + ComparesFrom(n, currSize as int) <= ComparesFrom(n, 1)
      invariant switches + YieldsFrom(n, currSize as int) == YieldsFrom(n, 1)
      decreases n + 1 - currSize as int
    {
      ghost var c, y := SortPass(array', rhs, currSize);
      compares, switches := compares + c, switches + y;
      currSize := 2 * currSize;
    }
  }

  // The macro min
  function Min32(a: int32, b: int32): (m: int32)
    ensures m as int == Min(a as int, b as int)
  {
    if a < b then a else b
  }

  // One iteration of the inner loop, up to its yield.
  method MergeOne(array': array<int>, rhs: int32, currSize: int32, leftStart: int32) returns (ghost compares: nat)
    requires rhs as int == array'.Length < LIMIT && 1 <= currSize <= rhs && 0 <= leftStart < rhs - 1
    requires leftStart == 0 || leftStart as int >= 2 * currSize as int
    modifies array'
    ensures array'[..] == MergeAt(old(array'[..]), currSize as int, leftStart as int)
    ensures Resume(array'[..], currSize as int, leftStart as int + 2 * currSize as int)
         == Resume(old(array'[..]), currSize as int, leftStart as int)
    ensures compares <= Min(leftStart as int + 2 * currSize as int, rhs as int) - leftStart as int
  {
    hide Resume, Merge;
    var mid := Min32(leftStart + currSize - 1, rhs - 1);
    var rightEnd := Min32(leftStart + 2 * currSize - 1, rhs - 1);
    ResumeMerge(array'[..], currSize as int, leftStart as int);
    compares := MeMerge(array', leftStart, mid, rightEnd);
  }

  // One iteration of the outer loop, with its yields.
  method SortPass(array': array<int>, rhs: int32, currSize: int32) returns (ghost compares: nat, ghost switches: nat)
    requires rhs as int == array'.Length < LIMIT && 1 <= currSize <= rhs
    modifies array'
    ensures Resume(array'[..], 2 * currSize as int, 0) == Resume(old(array'[..]), currSize as int, 0)
    ensures compares <= rhs as int && switches == Merges(rhs as int, currSize as int) + 1
  {
    hide Resume, Passes, Merge, MergeAt, Merged;
    compares, switches := 0, 0;
    ghost var n, w, target := rhs as int, currSize as int, Resume(array'[..], currSize as int, 0);
    var leftStart: int32 := 0;
    while leftStart < rhs - 1
      invariant 0 <= leftStart && (leftStart == 0 || leftStart as int >= 2 * w)
      invariant Resume(array'[..], w, leftStart as int) == target
      invariant compares <= Min(leftStart as int, n)
      invariant switches + Merges(n - Min(leftStart as int, n), w) == Merges(n, w)
      decreases n - leftStart as int
    {
      ghost var c := MergeOne(array', rhs, currSize, leftStart);
      compares := compares + c;
      switches := switches + 1;
      leftStart := leftStart + 2 * currSize;
    }
    ResumeNextPass(array'[..], w, leftStart as int);
    switches := switches + 1;
  }

  // ---- How many comparisons, how many yields

  function Log2(n: nat): nat
    requires n >= 1
  {
    if n == 1 then 0 else 1 + Log2(n / 2)
  }

  lemma {:induction false} PassCountHalf(n: nat, w: nat)
    requires w >= 1
    ensures PassCount(n, 2 * w) == PassCount(n / 2, w)
    decreases n + 1 - w
  {
    if w <= n / 2 { PassCountHalf(n, 2 * w); }
  }

  // The outer loop runs floor(log2 n) + 1 times.
  lemma {:induction false} PassCountLog(n: nat)
    requires n >= 1
    ensures PassCount(n, 1) == Log2(n) + 1
  {
    PassCountHalf(n, 1);
    if n == 1 {
      assert PassCount(1, 1) == 1 + PassCount(1, 2);
    } else {
      PassCountLog(n / 2);
    }
  }

  lemma {:induction false} ComparesPerPass(n: nat, w: nat)
    requires w >= 1
    ensures ComparesFrom(n, w) == n * PassCount(n, w)
    decreases n + 1 - w
  {
    if w <= n {
      ComparesPerPass(n, 2 * w);
      Distribute(n, PassCount(n, 2 * w));
    }
  }

  lemma Distribute(n: nat, k: nat)
    ensures n * (1 + k) == n + n * k
  {
  }

  /** The bound of MeMergesort in closed form: line 84 is evaluated at most n * (floor(log2 n) + 1) times. */
  lemma ComparesClosed(n: nat)
    requires n >= 1
    ensures ComparesFrom(n, 1) == n * (Log2(n) + 1)
  {
    ComparesPerPass(n, 1);
    PassCountLog(n);
  }

  function CeilDiv(a: nat, d: nat): nat
    requires d >= 1
  {
    (a + d - 1) / d
  }

  lemma {:induction false} MergesClosed(len: nat, w: nat)
    requires w >= 1 && len >= 1
    ensures Merges(len, w) == CeilDiv(len - 1, 2 * w)
  {
    var d := 2 * w;
    if len == 1 {
      QuotientIs(d - 1, d, 0);
    } else if len <= d {
      assert Merges(len, w) == 1;
      QuotientIs(len - 1 + d - 1, d, 1);
    } else {
      MergesClosed(len - d, w);
      QuotientStep(len - 1 - d + d - 1, d);
    }
  }

  lemma QuotientIs(a: nat, d: nat, q: nat)
    requires d >= 1 && q * d <= a < q * d + d
    ensures a / d == q
  {
    var b := a / d;
    assert b * d <= a < b * d + d;
    if b < q { TimesMono(b + 1, q, d); }
    if b > q { TimesMono(q + 1, b, d); }
  }

  lemma TimesMono(x: nat, y: nat, d: nat)
    requires x <= y
    ensures x * d <= y * d
  {
  }

  lemma QuotientStep(a: nat, d: nat)
    requires d >= 1
    ensures (a + d) / d == a / d + 1
  {
    var q := a / d;
    assert (q + 1) * d == q * d + d;
    QuotientIs(a + d, d, q + 1);
  }

  function Pow2(k: nat): (p: nat)
    ensures p >= 1
  {
    if k == 0 then 1 else 2 * Pow2(k - 1)
  }

  // The sum over the passes p, p + 1, ..., last of ceil((n - 1) / 2^(p + 1)) + 1.
  function YieldSum(n: nat, p: nat, last: nat): nat
    requires n >= 1
    decreases last + 1 - p
  {
    if p > last then 0 else CeilDiv(n - 1, Pow2(p + 1)) + 1 + YieldSum(n, p + 1, last)
  }

  lemma {:induction false} Pow2Log(n: nat)
    requires n >= 1
    ensures Pow2(Log2(n)) <= n < Pow2(Log2(n) + 1)
  {
    if n > 1 { Pow2Log(n / 2); }
  }

  lemma {:induction false} Pow2Mono(a: nat, b: nat)
    requires a <= b
    ensures 1 <= Pow2(a) <= Pow2(b)
    decreases b
  {
    if a < b { Pow2Mono(a, b - 1); } else if b > 0 { Pow2Mono(a - 1, b - 1); }
  }

  lemma {:induction false} YieldsFromSum(n: nat, p: nat)
    requires n >= 1
    ensures Pow2(p) >= 1 && YieldsFrom(n, Pow2(p)) == YieldSum(n, p, Log2(n))
    decreases Log2(n) + 1 - p
  {
    hide CeilDiv, Merges;
    Pow2Log(n);
    Pow2Mono(0, p);
    if p > Log2(n) {
      Pow2Mono(Log2(n) + 1, p);
    } else {
      Pow2Mono(p, Log2(n));
      MergesClosed(n, Pow2(p));
      YieldsFromSum(n, p + 1);
    }
  }

  /** One sort yields exactly sum for p = 0..floor(log2 n) of (ceil((n - 1) / 2^(p + 1)) + 1) times. */
  lemma YieldsClosed(n: nat)
    requires n >= 1
    ensures YieldsFrom(n, 1) == YieldSum(n, 0, Log2(n))
  {
    YieldsFromSum(n, 0);
  }

  // ---- 32-bit arithmetic

  const INT_MAX := 0x7fff_ffff

  // The two values that grow largest in the pass of width 2^p: the next width, and the next start of the
  // inner loop when it is at 2k * 2^p.
  predicate Fits(n: nat, p: nat, k: nat) {
    && 2 * Pow2(p) <= INT_MAX
    && (2 * k * Pow2(p) < n - 1 ==> 2 * k * Pow2(p) + 2 * Pow2(p) <= INT_MAX)
  }

  lemma Pow2Of30()
    ensures Pow2(29) == 0x2000_0000 && Pow2(30) == 0x4000_0000
  {
    assert Pow2(5) == 32;
    assert Pow2(10) == 1024;
    assert Pow2(15) == 32768;
    assert Pow2(20) == 1048576;
    assert Pow2(25) == 33554432;
    assert Pow2(29) == 0x2000_0000;
  }

  /** LIMIT is tight: both values stay in the range of an int, in every pass that me_mergesort makes over n
      elements, if and only if n is below it. That below it every other expression does too is checked in
      the methods above. */
  lemma FitsExactlyBelow30(n: nat)
    ensures n < LIMIT <==> forall p: nat, k: nat :: Pow2(p) <= n ==> Fits(n, p, k)
  {
    Pow2Of30();
    if n < LIMIT {
      forall p: nat, k: nat | Pow2(p) <= n ensures Fits(n, p, k) {
        if p > 29 { Pow2Mono(30, p); }
        Pow2Mono(p, 29);
      }
    } else {
      assert Pow2(30) <= n && !Fits(n, 30, 0);
    }
  }

  // ---- read_file

  // input is the stream of integers in the file. Without any the final realloc asks for 0 bytes, may return
  // NULL, and then ends the program.
  method ReadFile(input: seq<int>) returns (r: Option<array<int>>, ghost peak: nat)
    requires |input| < LIMIT
    ensures input == [] <==> r == None
    ensures r.Some? ==> fresh(r.value) && r.value[..] == input
    ensures input != [] ==> peak <= 2 * |input|
  {
    var temp := new int[1];
    var count: int32, room: int32, i: int32 := 0, 1, 0;
    while i as int < |input|
      invariant 0 <= i == count < room && count as int <= |input| && room as int == temp.Length
      invariant fresh(temp) && temp[..count] == input[..count]
      invariant room as int <= if count == 0 then 1 else 2 * count as int
      decreases |input| - i as int
    {
      temp[i] := input[i];
      count := count + 1;
      if count == room {
        room := room * 2;
        temp := Realloc(temp, room, count);
      }
      i := i + 1;
    }
    peak := room as int;
    if count == 0 {
      r := None;
    } else {
      temp := Realloc(temp, count, count);
      assert temp[..] == temp[..count];
      r := Some(temp);
    }
  }

  // realloc: the first |keep| cells survive
  method Realloc(old': array<int>, size: int32, keep: int32) returns (a: array<int>)
    requires 0 <= keep as int <= old'.Length && keep <= size
    ensures fresh(a) && a.Length == size as int && a[..keep] == old'[..keep]
  {
    a := new int[size];
    for i := 0 to keep
      invariant a[..i] == old'[..i]
    {
      a[i] := old'[i];
    }
  }
}
