/**
 write_result_to_file of 1/solution/solution.c: the k-way merge of the sorted rows. The rows are only
 read, so they are values here; the output file is the sequence of numbers written.
 */
module KWayMerge {
  import opened MergeSort

  // ---- What is left of the rows

  predicate Positions(rows: seq<seq<int>>, its: seq<nat>) {
    |its| == |rows| && forall i :: 0 <= i < |rows| ==> its[i] <= |rows[i]|
  }

  function Rest(rows: seq<seq<int>>, its: seq<nat>): multiset<int>
    requires Positions(rows, its)
  {
    if rows == [] then multiset{} else multiset(rows[0][its[0]..]) + Rest(rows[1..], its[1..])
  }

  function RestCount(rows: seq<seq<int>>, its: seq<nat>): nat
    requires Positions(rows, its)
  {
    if rows == [] then 0 else |rows[0]| - its[0] + RestCount(rows[1..], its[1..])
  }

  // Rows with numbers left, plus rows that had none from the start.
  function Zeros(rows: seq<seq<int>>, its: seq<nat>): nat
    requires Positions(rows, its)
  {
    if rows == [] then 0
    else (if its[0] < |rows[0]| || rows[0] == [] then 1 else 0) + Zeros(rows[1..], its[1..])
  }

  function Flat(rows: seq<seq<int>>): seq<int> {
    if rows == [] then [] else rows[0] + Flat(rows[1..])
  }

  function Moved(its: seq<nat>, i: nat): seq<nat>
    requires i < |its|
  {
    its[i := its[i] + 1]
  }

  lemma MovedTail(its: seq<nat>, i: nat)
    requires 0 < i < |its|
    ensures Moved(its, i)[1..] == Moved(its[1..], i - 1) && Moved(its, i)[0] == its[0]
  {
  }

  lemma {:induction false} AdvanceBag(rows: seq<seq<int>>, its: seq<nat>, i: nat)
    requires Positions(rows, its) && i < |rows| && its[i] < |rows[i]|
    ensures Positions(rows, Moved(its, i))
    ensures Rest(rows, its) == Rest(rows, Moved(its, i)) + multiset{rows[i][its[i]]}
  {
    if i == 0 {
      HeadBag(rows[0], its[0]);
      assert Moved(its, 0)[1..] == its[1..];
    } else {
      MovedTail(its, i);
      AdvanceBag(rows[1..], its[1..], i - 1);
    }
  }

  lemma {:induction false} AdvanceCounts(rows: seq<seq<int>>, its: seq<nat>, i: nat)
    requires Positions(rows, its) && i < |rows| && its[i] < |rows[i]|
    ensures Positions(rows, Moved(its, i))
    ensures RestCount(rows, Moved(its, i)) == RestCount(rows, its) - 1
    ensures Zeros(rows, Moved(its, i)) == Zeros(rows, its) - (if its[i] + 1 >= |rows[i]| then 1 else 0)
  {
    if i == 0 {
      assert Moved(its, 0)[1..] == its[1..];
    } else {
      MovedTail(its, i);
      AdvanceCounts(rows[1..], its[1..], i - 1);
    }
  }

  lemma HeadBag(row: seq<int>, k: nat)
    requires k < |row|
    ensures multiset(row[k..]) == multiset{row[k]} + multiset(row[k + 1..])
  {
    assert row[k..] == [row[k]] + row[k + 1..];
  }

  lemma {:induction false} NothingLeft(rows: seq<seq<int>>, its: seq<nat>)
    requires Positions(rows, its) && forall i :: 0 <= i < |rows| ==> its[i] == |rows[i]|
    ensures Rest(rows, its) == multiset{}
  {
    if rows != [] { NothingLeft(rows[1..], its[1..]); }
  }

  function EmptyRows(rows: seq<seq<int>>): nat {
    if rows == [] then 0 else (if rows[0] == [] then 1 else 0) + EmptyRows(rows[1..])
  }

  /** Once everything is written zeros counts the rows that were empty from the start; so it has come down to
      0, as the comment in the source has it, if and only if there was no such row. */
  lemma {:induction false} ZerosAtEnd(rows: seq<seq<int>>, its: seq<nat>)
    requires Positions(rows, its) && forall i :: 0 <= i < |rows| ==> its[i] == |rows[i]|
    ensures Zeros(rows, its) == EmptyRows(rows)
    ensures Zeros(rows, its) == 0 <==> forall i :: 0 <= i < |rows| ==> rows[i] != []
  {
    if rows != [] {
      ZerosAtEnd(rows[1..], its[1..]);
      assert rows == [rows[0]] + rows[1..];
    }
  }

  lemma {:induction false} NoZeros(rows: seq<seq<int>>, its: seq<nat>, i: nat)
    requires Positions(rows, its) && Zeros(rows, its) == 0 && i < |rows|
    ensures its[i] == |rows[i]|
  {
    if i > 0 { NoZeros(rows[1..], its[1..], i - 1); }
  }

  lemma {:induction false} InRest(rows: seq<seq<int>>, its: seq<nat>, x: int) returns (i: nat, k: nat)
    requires Positions(rows, its) && x in Rest(rows, its)
    ensures i < |rows| && its[i] <= k < |rows[i]| && rows[i][k] == x
  {
    if x in multiset(rows[0][its[0]..]) {
      i := 0;
      var row := rows[0][its[0]..];
      assert x in row;
      var d :| 0 <= d < |row| && row[d] == x;
      k := its[0] + d;
    } else {
      i, k := InRest(rows[1..], its[1..], x);
      i := i + 1;
    }
  }

  lemma {:induction false} StartBag(rows: seq<seq<int>>)
    ensures var its := Start(|rows|);
      && Positions(rows, its) && Rest(rows, its) == multiset(Flat(rows)) && Zeros(rows, its) == |rows|
      && RestCount(rows, its) == |Flat(rows)|
  {
    if rows != [] {
      StartBag(rows[1..]);
      assert Start(|rows|)[1..] == Start(|rows[1..]|);
      assert rows[0][0..] == rows[0];
    }
  }

  function Start(n: nat): seq<nat> { seq(n, _ => 0) }

  // ---- The choice of the next row

  predicate Available(rows: seq<seq<int>>, its: seq<nat>, i: nat) {
    i < |rows| == |its| && its[i] < |rows[i]|
  }

  // The two inner loops: the last row with a number left to start from, then the smallest head. min' is
  // what min holds when no row has a number left.
  method SmallestHead(rows: seq<seq<int>>, iters: array<nat>, min': int) returns (min: int, minIdx: int)
    requires Positions(rows, iters[..])
    ensures -1 <= minIdx < |rows|
    ensures minIdx == -1 ==> min == min' && forall i: nat :: !Available(rows, iters[..], i)
    ensures minIdx >= 0 ==> Available(rows, iters[..], minIdx) && min == rows[minIdx][iters[minIdx]]
    ensures minIdx >= 0 ==> forall i: nat :: Available(rows, iters[..], i) ==> min <= rows[i][iters[i]]
  {
    min, minIdx := min', -1;
    for i := 0 to |rows|
      invariant -1 <= minIdx < i
      invariant minIdx == -1 ==> min == min' && forall j: nat :: j < i ==> !Available(rows, iters[..], j)
      invariant minIdx >= 0 ==> Available(rows, iters[..], minIdx) && min == rows[minIdx][iters[minIdx]]
    {
      if iters[i] < |rows[i]| {
        min := rows[i][iters[i]];
        minIdx := i;
      }
    }
    if minIdx == -1 { return; }
    for i := 0 to |rows|
      invariant 0 <= minIdx < |rows| && Available(rows, iters[..], minIdx) && min == rows[minIdx][iters[minIdx]]
      invariant forall j: nat :: j < i && Available(rows, iters[..], j) ==> min <= rows[j][iters[j]]
    {
      if iters[i] < |rows[i]| && min > rows[i][iters[i]] {
        min := rows[i][iters[i]];
        minIdx := i;
      }
    }
  }

  // ---- The whole merge

  predicate AllSorted(rows: seq<seq<int>>) {
    forall i :: 0 <= i < |rows| ==> Sorted(rows[i])
  }

  // Everything written so far comes before everything that is left.
  ghost predicate Below(out: seq<int>, rows: seq<seq<int>>, its: seq<nat>) {
    forall x, i: nat :: x in out && Available(rows, its, i) ==> x <= rows[i][its[i]]
  }

  lemma BelowAdvance(out: seq<int>, rows: seq<seq<int>>, its: seq<nat>, i: nat)
    requires AllSorted(rows) && Positions(rows, its) && Available(rows, its, i) && Sorted(out) && Below(out, rows, its)
    requires forall j: nat :: Available(rows, its, j) ==> rows[i][its[i]] <= rows[j][its[j]]
    ensures var x := rows[i][its[i]]; Sorted(out + [x]) && Below(out + [x], rows, Moved(its, i))
  {
    var x, its' := rows[i][its[i]], Moved(its, i);
    SortedSnoc(out, x);
    forall y, j: nat | y in out + [x] && Available(rows, its', j) ensures y <= rows[j][its'[j]] {
      assert Available(rows, its, j);
      if j == i { assert Sorted(rows[i]) && rows[i][its[i]] <= rows[i][its[i] + 1]; }
    }
  }

  lemma SortedSnoc(s: seq<int>, x: int)
    requires Sorted(s) && forall y :: y in s ==> y <= x
    ensures Sorted(s + [x])
  {
    var t := s + [x];
    forall i, j | 0 <= i < j < |t| ensures t[i] <= t[j] {
      assert t[i] == s[i] && s[i] in s;
    }
  }

  // The loop's state: where each row stands, the counter zeros and what has been written.
  ghost predicate Merging(rows: seq<seq<int>>, its: seq<nat>, zeros: int, out: seq<int>) {
    && Positions(rows, its)
    && zeros == Zeros(rows, its)
    && multiset(out) + Rest(rows, its) == multiset(Flat(rows))
    && (AllSorted(rows) ==> Sorted(out) && Below(out, rows, its))
  }

  lemma MergingStep(rows: seq<seq<int>>, its: seq<nat>, zeros: int, out: seq<int>, i: nat)
    requires Merging(rows, its, zeros, out) && Available(rows, its, i)
    requires forall j: nat :: Available(rows, its, j) ==> rows[i][its[i]] <= rows[j][its[j]]
    ensures var its' := Moved(its, i);
      && Merging(rows, its', if its[i] + 1 >= |rows[i]| then zeros - 1 else zeros, out + [rows[i][its[i]]])
      && RestCount(rows, its') < RestCount(rows, its)
  {
    AdvanceBag(rows, its, i);
    AdvanceCounts(rows, its, i);
    if AllSorted(rows) { BelowAdvance(out, rows, its, i); }
  }

  // One iteration: choose a row, move it on and count it off when it has nothing left.
  method TakeSmallest(rows: seq<seq<int>>, iters: array<nat>, zeros: int, min': int, ghost out: seq<int>)
    returns (min: int, minIdx: int, zeros': int)
    requires Merging(rows, iters[..], zeros, out)
    modifies iters
    ensures -1 <= minIdx < |rows|
    ensures minIdx == -1 ==> iters[..] == old(iters[..]) && zeros' == zeros
                             && forall i: nat :: !Available(rows, iters[..], i)
    ensures minIdx >= 0 ==> Merging(rows, iters[..], zeros', out + [min])
                            && Positions(rows, old(iters[..]))
                            && RestCount(rows, iters[..]) < RestCount(rows, old(iters[..]))
  {
    zeros' := zeros;
    min, minIdx := SmallestHead(rows, iters, min');
    if minIdx == -1 { return; }
    ghost var its := iters[..];
    MergingStep(rows, its, zeros, out, minIdx);
    iters[minIdx] := iters[minIdx] + 1;
    assert iters[..] == Moved(its, minIdx);
    if iters[minIdx] >= |rows[minIdx]| {
      zeros' := zeros' - 1;
    }
  }

  // array[0][0] is read before anything else, so there must be a first row with a number in it.
  // zeros is the counter at the end.
  method WriteResult(rows: seq<seq<int>>) returns (out: seq<int>, zeros: int)
    requires rows != [] && rows[0] != []
    ensures multiset(out) == multiset(Flat(rows))
    ensures AllSorted(rows) ==> Sorted(out)
    ensures zeros == EmptyRows(rows) && (zeros == 0 <==> forall i :: 0 <= i < |rows| ==> rows[i] != [])
  {
    zeros := |rows|;
    var iters := new nat[|rows|](_ => 0);
    var min := rows[0][0];
    out := [];
    StartBag(rows);
    assert iters[..] == Start(|rows|);
    while zeros > 0
      invariant Merging(rows, iters[..], zeros, out)
      decreases RestCount(rows, iters[..])
    {
      var minIdx;
      min, minIdx, zeros := TakeSmallest(rows, iters, zeros, min, out);
      if minIdx == -1 { break; }
      out := out + [min];
    }
    Exhausted(rows, iters[..], zeros, out);
  }

  // The loop ends when the counter is 0 or no row has a number left; either way everything is written.
  lemma Exhausted(rows: seq<seq<int>>, its: seq<nat>, zeros: int, out: seq<int>)
    requires Merging(rows, its, zeros, out) && (zeros == 0 || forall i: nat :: !Available(rows, its, i))
    ensures multiset(out) == multiset(Flat(rows)) && zeros == EmptyRows(rows)
    ensures zeros == 0 <==> forall i :: 0 <= i < |rows| ==> rows[i] != []
  {
    forall i | 0 <= i < |rows| ensures its[i] == |rows[i]| {
      if zeros == 0 { NoZeros(rows, its, i); } else { assert !Available(rows, its, i); }
    }
    NothingLeft(rows, its);
    ZerosAtEnd(rows, its);
  }

  /** For instance it ends at 1 after the rows [7] and []. */
  lemma ZerosStaysUp(its: seq<nat>, zeros: int, out: seq<int>)
    requires Merging([[7], []], its, zeros, out) && forall i: nat :: !Available([[7], []], its, i)
    ensures zeros == 1
  {
    var rows: seq<seq<int>> := [[7], []];
    Exhausted(rows, its, zeros, out);
    assert rows[1..] == [[]];
  }
}
