/**
 The pool of 1/solution/solution.c: coroutines that claim files, read and sort them, and yield after the
 reading, after every merge and after every pass. Whatever runs between two yields is one step here, and
 the steps of different coroutines interleave in any order; SortMain.dfy lets the scheduler choose.
 */
module Pool {
  import opened Options
  import opened Sums
  import opened MergeSort

  // struct coro_file with its row of the arrays. input: the integers in the file. claims, touched:
  // history, which coroutines took the file from get_file, and which wrote to its array.
  datatype File = File(input: seq<int>, processed: bool, row: seq<int>, claims: seq<nat>, touched: set<nat>)

  // Where a coroutine stands between two steps. In Sorting, n is array_len and the inner loop of
  // me_mergesort is at left in the pass of the given width.
  datatype Pc = Claiming | Sorting(file: nat, n: nat, width: nat, left: nat) | Exited

  // switches: its own switch_count in the library. reported: that of coro_args.
  datatype Worker = Worker(pc: Pc, switches: nat, reported: nat)

  // aborted: read_file has ended the program, on a file without integers.
  datatype State = State(files: seq<File>, ws: seq<Worker>, aborted: bool)

  function Fresh(input: seq<int>): File { File(input, false, [], [], {}) }

  function Start(inputs: seq<seq<int>>, k: nat): State {
    State(seq(|inputs|, i requires 0 <= i < |inputs| => Fresh(inputs[i])), seq(k, _ => Worker(Claiming, 0, 0)), false)
  }

  // ---- The code between two yields

  // get_file
  function FirstFree(files: seq<File>): (f: nat)
    ensures f <= |files| && (f < |files| ==> !files[f].processed)
    ensures forall g :: 0 <= g < f ==> files[g].processed
  {
    if files == [] || !files[0].processed then 0 else 1 + FirstFree(files[1..])
  }

  method GetFile(files: seq<File>) returns (f: Option<nat>)
    ensures f == if FirstFree(files) < |files| then Some(FirstFree(files)) else None
  {
    for i := 0 to |files|
      invariant i <= FirstFree(files)
    {
      if !files[i].processed {
        return Some(i);
      }
    }
    return None;
  }

  function Claimed(x: File, c: nat): File {
    x.(processed := true, row := x.input, claims := x.claims + [c], touched := x.touched + {c})
  }

  // The top of the loop of intermediate: leave it, or read a file and yield.
  function Claim(p: State, c: nat): State
    requires c < |p.ws|
  {
    var f, w := FirstFree(p.files), p.ws[c];
    if f == |p.files| then p.(ws := p.ws[c := w.(pc := Exited)])
    else
      var files := p.files[f := Claimed(p.files[f], c)];
      if p.files[f].input == [] then p.(files := files, ws := p.ws[c := w.(pc := Claiming)], aborted := true)
      else
        var pc := Sorting(f, |p.files[f].input|, 1, 0);
        p.(files := files, ws := p.ws[c := w.(pc := pc, switches := w.switches + 1)])
  }

  predicate CanRun(p: State, c: nat) {
    && !p.aborted && c < |p.ws| && !p.ws[c].pc.Exited?
    && (p.ws[c].pc.Sorting? ==>
          var pc := p.ws[c].pc; pc.file < |p.files| && pc.width >= 1 && pc.n == |p.files[pc.file].row|)
  }

  function AfterMerge(p: State, c: nat): State
    requires CanRun(p, c) && p.ws[c].pc.Sorting? && p.ws[c].pc.left < p.ws[c].pc.n - 1
  {
    var w, pc := p.ws[c], p.ws[c].pc;
    var x := p.files[pc.file];
    p.(files := p.files[pc.file := x.(row := MergeAt(x.row, pc.width, pc.left), touched := x.touched + {c})],
       ws := p.ws[c := w.(pc := pc.(left := pc.left + 2 * pc.width), switches := w.switches + 1)])
  }

  function AfterPass(p: State, c: nat): State
    requires CanRun(p, c) && p.ws[c].pc.Sorting?
  {
    var w, pc := p.ws[c], p.ws[c].pc;
    p.(ws := p.ws[c := w.(pc := pc.(width := 2 * pc.width, left := 0), switches := w.switches + 1)])
  }

  // The end of me_mergesort
  function Reported(p: State, c: nat): State
    requires c < |p.ws|
  {
    p.(ws := p.ws[c := p.ws[c].(reported := p.ws[c].switches)])
  }

  function Step(p: State, c: nat): State
    requires CanRun(p, c)
  {
    var pc := p.ws[c].pc;
    if pc.Claiming? then Claim(p, c)
    else if pc.width > pc.n then Claim(Reported(p, c), c)
    else if pc.left < pc.n - 1 then AfterMerge(p, c)
    else AfterPass(p, c)
  }

  // The coroutines take their steps in this order.
  ghost predicate Run(p: State, cs: seq<nat>, p': State)
    decreases |cs|
  {
    if cs == [] then p == p' else CanRun(p, cs[0]) && Run(Step(p, cs[0]), cs[1..], p')
  }

  predicate AllExited(p: State) {
    forall c :: 0 <= c < |p.ws| ==> p.ws[c].pc.Exited?
  }

  // ---- The invariant

  // The array holds what the sort still has to finish, or its result.
  ghost predicate Target(x: File, c: nat, f: nat, pc: Pc)
  {
    if pc.Sorting? && pc.file == f
    then pc.width >= 1 && pc.n == |x.input| && Resume(x.row, pc.width, pc.left) == Passes(x.input, 1)
    else x.row == Passes(x.input, 1)
  }

  ghost predicate FileOk(p: State, f: nat)
    requires f < |p.files|
  {
    var x := p.files[f];
    if !x.processed then x.claims == [] && x.touched == {}
    else
      && (x.input == [] ==> p.aborted)
      && |x.claims| == 1 && x.claims[0] < |p.ws| && x.touched == {x.claims[0]} && |x.row| == |x.input|
      && Target(x, x.claims[0], f, p.ws[x.claims[0]].pc)
  }

  ghost predicate WorkerOk(p: State, c: nat)
    requires c < |p.ws|
  {
    match p.ws[c].pc
    case Claiming => p.ws[c].reported == p.ws[c].switches
    case Sorting(f, n, w, left) => f < |p.files| && p.files[f].processed && p.files[f].claims == [c]
    case Exited => p.ws[c].reported == p.ws[c].switches && forall f :: 0 <= f < |p.files| ==> p.files[f].processed
  }

  ghost predicate Inv(p: State) {
    && (forall f: nat :: f < |p.files| ==> FileOk(p, f))
    && (forall c: nat :: c < |p.ws| ==> WorkerOk(p, c))
    && (p.aborted ==> !AllExited(p) && exists f :: 0 <= f < |p.files| && p.files[f].input == [])
  }

  lemma StartInv(inputs: seq<seq<int>>, k: nat)
    ensures Inv(Start(inputs, k))
  {
  }

  lemma InvCanRun(p: State, c: nat)
    requires Inv(p) && !p.aborted && c < |p.ws| && !p.ws[c].pc.Exited?
    ensures CanRun(p, c)
  {
    assert WorkerOk(p, c);
    if p.ws[c].pc.Sorting? { assert FileOk(p, p.ws[c].pc.file); }
  }

  lemma ClaimInv(p: State, c: nat)
    requires Inv(p) && !p.aborted && c < |p.ws| && p.ws[c].pc.Claiming?
    ensures Inv(Claim(p, c))
  {
    var p', f := Claim(p, c), FirstFree(p.files);
    if f < |p.files| {
      assert FileOk(p, f);
      assert p'.files[f].input == p.files[f].input;
      assert p'.aborted ==> p'.ws[c].pc.Claiming?;
    }
    forall g: nat | g < |p'.files| ensures FileOk(p', g) {
      assert FileOk(p, g);
      if f < |p.files| && g == f { ResumeStart(p.files[f].input, 1); }
    }
    forall d: nat | d < |p'.ws| ensures WorkerOk(p', d) { assert WorkerOk(p, d); }
  }

  // A finished sort leaves the coroutine as if it had not begun one.
  function Freed(p: State, c: nat): State
    requires c < |p.ws|
  {
    p.(ws := p.ws[c := Worker(Claiming, p.ws[c].switches, p.ws[c].switches)])
  }

  lemma FreedInv(p: State, c: nat)
    requires Inv(p) && CanRun(p, c) && p.ws[c].pc.Sorting? && p.ws[c].pc.width > p.ws[c].pc.n
    ensures Inv(Freed(p, c)) && !Freed(p, c).aborted && c < |Freed(p, c).ws| && Freed(p, c).ws[c].pc.Claiming?
    ensures Claim(Freed(p, c), c) == Claim(Reported(p, c), c)
  {
    var p' := Freed(p, c);
    assert WorkerOk(p, c);
    forall g: nat | g < |p'.files| ensures FileOk(p', g) { assert FileOk(p, g); }
    forall d: nat | d < |p'.ws| ensures WorkerOk(p', d) { assert WorkerOk(p, d); }
  }

  lemma MergedInv(p: State, c: nat)
    requires Inv(p) && CanRun(p, c) && p.ws[c].pc.Sorting?
    requires p.ws[c].pc.width <= p.ws[c].pc.n && p.ws[c].pc.left < p.ws[c].pc.n - 1
    ensures Inv(AfterMerge(p, c))
  {
    hide Resume, Passes, MergeAt;
    var p', pc := AfterMerge(p, c), p.ws[c].pc;
    assert WorkerOk(p, c);
    forall g: nat | g < |p'.files| ensures FileOk(p', g) {
      assert FileOk(p, g);
      if g == pc.file { ResumeMerge(p.files[g].row, pc.width, pc.left); }
    }
    forall d: nat | d < |p'.ws| ensures WorkerOk(p', d) { assert WorkerOk(p, d); }
  }

  lemma PassedInv(p: State, c: nat)
    requires Inv(p) && CanRun(p, c) && p.ws[c].pc.Sorting?
    requires p.ws[c].pc.width <= p.ws[c].pc.n && p.ws[c].pc.left >= p.ws[c].pc.n - 1
    ensures Inv(AfterPass(p, c))
  {
    var p', pc := AfterPass(p, c), p.ws[c].pc;
    assert WorkerOk(p, c);
    forall g: nat | g < |p'.files| ensures FileOk(p', g) {
      assert FileOk(p, g);
      if g == pc.file { ResumeNextPass(p.files[g].row, pc.width, pc.left); }
    }
    forall d: nat | d < |p'.ws| ensures WorkerOk(p', d) { assert WorkerOk(p, d); }
  }

  lemma StepInv(p: State, c: nat)
    requires Inv(p) && CanRun(p, c)
    ensures Inv(Step(p, c))
  {
    hide Inv, Claim, AfterMerge, AfterPass, Freed, Reported;
    var pc := p.ws[c].pc;
    if pc.Claiming? { ClaimInv(p, c); }
    else if pc.width > pc.n {
      FreedInv(p, c);
      ClaimInv(Freed(p, c), c);
    }
    else if pc.left < pc.n - 1 { MergedInv(p, c); }
    else { PassedInv(p, c); }
  }

  // ---- Counting

  function YieldsAt(n: nat, w: nat, left: nat): nat {
    if w == 0 || w > n then 0 else Merges(n - Min(left, n), w) + 1 + YieldsFrom(n, 2 * w)
  }

  // Yields that a coroutine still owes to the file it has claimed.
  function Pending(pc: Pc): nat {
    if pc.Sorting? then YieldsAt(pc.n, pc.width, pc.left) else 0
  }

  // All the yields that a file costs: one after the reading, and those of its sort.
  function Cost(x: File): int { 1 + YieldsFrom(|x.input|, 1) }

  function Unclaimed(x: File): int { if x.processed then 0 else Cost(x) }

  function Account(w: Worker): int { w.switches + Pending(w.pc) }

  function ToDo(w: Worker): int { Pending(w.pc) + if w.pc.Exited? then 0 else 1 }

  // Yields made, yields owed and yields of the files that nobody has claimed.
  function Balance(p: State): int { Sum(Account, p.ws) + Sum(Unclaimed, p.files) }

  // Steps that are left.
  function Potential(p: State): int { Sum(ToDo, p.ws) + Sum(Unclaimed, p.files) }

  // One worker changes.
  lemma WorkerChanges(p: State, c: nat, w: Worker)
    requires c < |p.ws|
    ensures var p' := p.(ws := p.ws[c := w]);
      && Balance(p') - Balance(p) == Account(w) - Account(p.ws[c])
      && Potential(p') - Potential(p) == ToDo(w) - ToDo(p.ws[c])
  {
    SumUpdate(Account, p.ws, c, w);
    SumUpdate(ToDo, p.ws, c, w);
  }

  // One file changes, but not its input.
  lemma FileChanges(p: State, f: nat, x: File)
    requires f < |p.files| && x.input == p.files[f].input
    ensures var p' := p.(files := p.files[f := x]);
      && Balance(p') - Balance(p) == Unclaimed(x) - Unclaimed(p.files[f])
      && Potential(p') - Potential(p) == Unclaimed(x) - Unclaimed(p.files[f])
      && Sum(Cost, p'.files) == Sum(Cost, p.files)
  {
    SumUpdate(Unclaimed, p.files, f, x);
    SumUpdate(Cost, p.files, f, x);
  }

  lemma YieldsAtStart(n: nat)
    ensures YieldsAt(n, 1, 0) == YieldsFrom(n, 1)
  {
  }

  lemma ClaimCounts(p: State, c: nat)
    requires c < |p.ws| && p.ws[c].pc.Claiming?
    ensures var p' := Claim(p, c);
      && (p'.aborted || Balance(p') == Balance(p))
      && Potential(p') == Potential(p) - 1 && Sum(Cost, p'.files) == Sum(Cost, p.files)
  {
    var p', f := Claim(p, c), FirstFree(p.files);
    WorkerChanges(p, c, p'.ws[c]);
    if f < |p.files| {
      YieldsAtStart(|p.files[f].input|);
      FileChanges(p.(ws := p'.ws), f, p'.files[f]);
    }
  }

  lemma FreedCounts(p: State, c: nat)
    requires CanRun(p, c) && p.ws[c].pc.Sorting? && p.ws[c].pc.width > p.ws[c].pc.n
    ensures var p' := Freed(p, c);
      && Balance(p') == Balance(p) && Potential(p') == Potential(p)
      && Claim(p', c) == Claim(Reported(p, c), c) && p'.files == p.files
  {
    var w := p.ws[c];
    WorkerChanges(p, c, Worker(Claiming, w.switches, w.switches));
  }

  lemma MergeCounts(p: State, c: nat)
    requires CanRun(p, c) && p.ws[c].pc.Sorting?
    requires p.ws[c].pc.width <= p.ws[c].pc.n && p.ws[c].pc.left < p.ws[c].pc.n - 1
    ensures var p' := AfterMerge(p, c);
      Balance(p') == Balance(p) && Potential(p') == Potential(p) - 1 && Sum(Cost, p'.files) == Sum(Cost, p.files)
  {
    var p', f := AfterMerge(p, c), p.ws[c].pc.file;
    WorkerChanges(p, c, p'.ws[c]);
    FileChanges(p.(ws := p'.ws), f, p'.files[f]);
  }

  lemma StepCounts(p: State, c: nat)
    requires CanRun(p, c)
    ensures var p' := Step(p, c);
      && (p'.aborted || Balance(p') == Balance(p))
      && Potential(p') == Potential(p) - 1 && Sum(Cost, p'.files) == Sum(Cost, p.files)
  {
    var pc := p.ws[c].pc;
    if pc.Claiming? { ClaimCounts(p, c); }
    else if pc.width > pc.n {
      FreedCounts(p, c);
      ClaimCounts(Freed(p, c), c);
    }
    else if pc.left < pc.n - 1 { MergeCounts(p, c); }
    else { WorkerChanges(p, c, AfterPass(p, c).ws[c]); }
  }

  predicate SameShape(p: State, p': State) {
    && |p'.ws| == |p.ws| && |p'.files| == |p.files|
    && forall f :: 0 <= f < |p.files| ==> p'.files[f].input == p.files[f].input
  }

  lemma StepShape(p: State, c: nat)
    requires CanRun(p, c)
    ensures SameShape(p, Step(p, c))
  {
  }

  lemma {:induction false} RunLaw(p: State, cs: seq<nat>, p': State)
    requires Inv(p) && Run(p, cs, p')
    ensures Inv(p') && SameShape(p, p')
    ensures p.aborted ==> p' == p
    ensures p'.aborted || Balance(p') == Balance(p)
    ensures Potential(p') == Potential(p) - |cs| && Sum(Cost, p'.files) == Sum(Cost, p.files)
    decreases |cs|
  {
    hide Inv, Step, Balance, Potential, Sum;
    if cs != [] {
      StepInv(p, cs[0]);
      StepCounts(p, cs[0]);
      StepShape(p, cs[0]);
      RunLaw(Step(p, cs[0]), cs[1..], p');
    }
  }

  // ---- Main results: any number of coroutines, any files, any order of the steps

  /** At every moment each file has been claimed by at most one coroutine, and nobody else has touched its
      array; a coroutine that has not left its loop can always go on. */
  lemma ClaimedAtMostOnce(inputs: seq<seq<int>>, k: nat, cs: seq<nat>, p: State, f: nat)
    requires Run(Start(inputs, k), cs, p) && f < |inputs|
    ensures |p.files| == |inputs| && |p.files[f].claims| <= 1
    ensures p.files[f].touched == set c | c in p.files[f].claims
    ensures p.files[f].processed <==> |p.files[f].claims| == 1
    ensures forall c: nat :: c < |p.ws| && !p.ws[c].pc.Exited? && !p.aborted ==> CanRun(p, c)
  {
    StartInv(inputs, k);
    RunLaw(Start(inputs, k), cs, p);
    assert FileOk(p, f);
    forall c: nat | c < |p.ws| && !p.ws[c].pc.Exited? && !p.aborted ensures CanRun(p, c) { InvCanRun(p, c); }
  }

  /** When all coroutines have left their loops, every file has been claimed by exactly one of them, touched
      by no other, and its array is its sorted content. */
  lemma PoolSorts(inputs: seq<seq<int>>, k: nat, cs: seq<nat>, p: State, f: nat)
    requires k >= 1 && Run(Start(inputs, k), cs, p) && AllExited(p) && f < |inputs|
    ensures |p.files| == |inputs|
    ensures |p.files[f].claims| == 1 && p.files[f].touched == {p.files[f].claims[0]}
    ensures Sorted(p.files[f].row) && multiset(p.files[f].row) == multiset(inputs[f])
  {
    StartInv(inputs, k);
    RunLaw(Start(inputs, k), cs, p);
    assert WorkerOk(p, 0);
    assert FileOk(p, f);
    SortCorrect(inputs[f]);
  }

  /** A run that cannot go on has ended the program in read_file if and only if some file holds no integers;
      otherwise all coroutines have left their loops. */
  lemma AbortsExactlyOnEmptyFiles(inputs: seq<seq<int>>, k: nat, cs: seq<nat>, p: State)
    requires k >= 1 && Run(Start(inputs, k), cs, p) && forall c: nat :: !CanRun(p, c)
    ensures p.aborted <==> exists f :: 0 <= f < |inputs| && inputs[f] == []
    ensures !p.aborted ==> AllExited(p)
  {
    var p0 := Start(inputs, k);
    StartInv(inputs, k);
    RunLaw(p0, cs, p);
    assert forall f :: 0 <= f < |inputs| ==> p.files[f].input == p0.files[f].input == inputs[f];
    if !p.aborted {
      forall c: nat | c < |p.ws| ensures p.ws[c].pc.Exited? {
        if !p.ws[c].pc.Exited? { InvCanRun(p, c); }
      }
      assert WorkerOk(p, 0);
      forall f: nat | f < |inputs| ensures inputs[f] != [] { assert FileOk(p, f); }
    }
  }

  function ReportedBy(w: Worker): int { w.reported }

  // What a file of these integers costs, in closed form.
  function ClosedCost(input: seq<int>): int {
    if input == [] then 1 else 1 + YieldSum(|input|, 0, Log2(|input|))
  }

  lemma {:induction false} CostClosed(inputs: seq<seq<int>>, files: seq<File>)
    requires |files| == |inputs| && forall i :: 0 <= i < |files| ==> files[i].input == inputs[i]
    ensures Sum(Cost, files) == Sum(ClosedCost, inputs)
  {
    if inputs != [] {
      if inputs[0] != [] { YieldsClosed(|inputs[0]|); }
      CostClosed(inputs[1..], files[1..]);
    }
  }

  lemma {:induction false} SameSum(f: Worker -> int, g: Worker -> int, ws: seq<Worker>)
    requires forall c :: 0 <= c < |ws| ==> f(ws[c]) == g(ws[c])
    ensures Sum(f, ws) == Sum(g, ws)
  {
    if ws != [] { SameSum(f, g, ws[1..]); }
  }

  lemma {:induction false} ZeroSum<T>(f: T -> int, s: seq<T>)
    requires forall c :: 0 <= c < |s| ==> f(s[c]) == 0
    ensures Sum(f, s) == 0
  {
    SumBounds(f, s, 0, 0);
  }

  lemma StartCounts(inputs: seq<seq<int>>, k: nat)
    ensures var p := Start(inputs, k);
      && Sum(Cost, p.files) == Sum(ClosedCost, inputs)
      && Balance(p) == Sum(ClosedCost, inputs) && Potential(p) == Sum(ClosedCost, inputs) + k
  {
    var p := Start(inputs, k);
    CostClosed(inputs, p.files);
    ZeroSum(Account, p.ws);
    SumBounds(ToDo, p.ws, 1, 1);
    UnclaimedAll(p.files);
  }

  lemma {:induction false} UnclaimedAll(files: seq<File>)
    requires forall i :: 0 <= i < |files| ==> !files[i].processed
    ensures Sum(Unclaimed, files) == Sum(Cost, files)
  {
    if files != [] { UnclaimedAll(files[1..]); }
  }

  /** Whatever the number of coroutines and the order of their steps: each reports its true number of yields,
      and together they yielded, for a file of n integers, 1 + sum for p = 0..floor(log2 n) of
      (ceil((n - 1) / 2^(p + 1)) + 1) times. */
  lemma SwitchCounts(inputs: seq<seq<int>>, k: nat, cs: seq<nat>, p: State)
    requires k >= 1 && Run(Start(inputs, k), cs, p) && AllExited(p)
    ensures forall c :: 0 <= c < |p.ws| ==> p.ws[c].reported == p.ws[c].switches
    ensures Sum(ReportedBy, p.ws) == Sum(ClosedCost, inputs)
  {
    StartInv(inputs, k);
    RunLaw(Start(inputs, k), cs, p);
    StartCounts(inputs, k);
    forall c: nat | c < |p.ws| ensures p.ws[c].reported == p.ws[c].switches { assert WorkerOk(p, c); }
    SameSum(ReportedBy, Account, p.ws);
    assert WorkerOk(p, 0);
    ZeroSum(Unclaimed, p.files);
  }

  lemma PotentialBound(p: State)
    ensures 0 <= Potential(p)
  {
    SumBoundsBelow(ToDo, p.ws);
    SumBoundsBelow(Unclaimed, p.files);
  }

  /** Every schedule ends, after the same number of steps. */
  lemma ScheduleEnds(inputs: seq<seq<int>>, k: nat, cs: seq<nat>, p: State)
    requires k >= 1 && Run(Start(inputs, k), cs, p)
    ensures |cs| <= Sum(ClosedCost, inputs) + k
    ensures AllExited(p) <==> |cs| == Sum(ClosedCost, inputs) + k
  {
    StartInv(inputs, k);
    RunLaw(Start(inputs, k), cs, p);
    StartCounts(inputs, k);
    SumBoundsBelow(ToDo, p.ws);
    SumBoundsBelow(Unclaimed, p.files);
    if AllExited(p) {
      assert WorkerOk(p, 0);
      ZeroSum(ToDo, p.ws);
      ZeroSum(Unclaimed, p.files);
    } else {
      var c: nat :| c < |p.ws| && !p.ws[c].pc.Exited?;
      SumMember(ToDo, p.ws, c);
    }
  }
}
