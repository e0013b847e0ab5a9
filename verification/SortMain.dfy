/**
 main of 1/solution/solution.c: the pool of coroutines under the scheduler, then the merge of the sorted
 arrays into one output.
 */
module SortMain {
  import opened Options
  import opened MergeSort
  import S = Scheduler
  import P = Pool
  import K = KWayMerge
  import Sums

  // trace: history, the coroutines in the order of their steps.
  datatype State = State(s: S.State, p: P.State, trace: seq<nat>)

  function News(s: S.State, k: nat): S.State {
    if k == 0 then s else S.New(News(s, k - 1))
  }

  // coro_sched_init and coro_new for each coroutine
  function Start(inputs: seq<seq<int>>, k: nat): State {
    State(News(S.INITIAL, k), P.Start(inputs, k), [])
  }

  predicate CanGo(m: State) {
    if m.s.cur.Co? then P.CanRun(m.p, m.s.cur.id) else !m.p.aborted && m.s.list != []
  }

  // An iteration of the scheduler's loop, or what the executing coroutine does up to its yield, its return
  // or the end of the program.
  function Next(m: State): State
    requires CanGo(m)
  {
    match m.s.cur
    case Sched => m.(s := S.Wait(m.s))
    case Co(c) =>
      var p' := P.Step(m.p, c);
      var s' := if p'.aborted then m.s else if p'.ws[c].pc.Exited? then S.Return(m.s, 0) else S.Yield(m.s);
      State(s', p', m.trace + [c])
  }

  // ---- The invariant: the library and the pool agree

  ghost predicate Agree(m: State, c: nat)
    requires c < |m.s.co| == |m.p.ws|
  {
    && (m.s.co[c].finished <==> m.p.ws[c].pc.Exited?)
    && (!m.p.aborted ==> m.s.co[c].switches == m.p.ws[c].switches)
    && m.s.co[c].ret == 0
  }

  ghost predicate Inv(m: State, inputs: seq<seq<int>>, k: nat) {
    && S.Inv(m.s) && P.Inv(m.p) && P.Run(P.Start(inputs, k), m.trace, m.p)
    && |m.s.co| == |m.p.ws| == k
    && forall c: nat :: c < k ==> Agree(m, c)
  }

  lemma {:induction false} NewsInv(k: nat)
    ensures S.Inv(News(S.INITIAL, k))
  {
    hide S.New;
    if k > 0 {
      NewsInv(k - 1);
      S.NewInv(News(S.INITIAL, k - 1));
    }
  }

  lemma {:induction false} NewsFacts(k: nat)
    ensures var s := News(S.INITIAL, k); |s.co| == k && s.cur == S.Sched
    ensures forall c: nat :: c < k ==> var x := News(S.INITIAL, k).co[c]; !x.finished && x.switches == 0 && x.ret == 0
  {
    if k > 0 { NewsFacts(k - 1); }
  }

  lemma StartInv(inputs: seq<seq<int>>, k: nat)
    ensures Inv(Start(inputs, k), inputs, k)
  {
    NewsInv(k);
    NewsFacts(k);
    P.StartInv(inputs, k);
  }

  lemma {:induction false} RunSnoc(p: P.State, cs: seq<nat>, p': P.State, c: nat)
    requires P.Run(p, cs, p') && P.CanRun(p', c)
    ensures P.Run(p, cs + [c], P.Step(p', c))
    decreases |cs|
  {
    hide P.Step, P.CanRun;
    if cs == [] {
      assert P.Run(P.Step(p, c), [], P.Step(p, c));
    } else {
      RunSnoc(P.Step(p, cs[0]), cs[1..], p', c);
      assert (cs + [c])[1..] == cs[1..] + [c];
    }
  }

  lemma WaitInv(m: State, inputs: seq<seq<int>>, k: nat)
    requires Inv(m, inputs, k) && CanGo(m) && m.s.cur == S.Sched
    ensures Inv(Next(m), inputs, k)
  {
    S.WaitInv(m.s);
    WaitKeepsCoros(m.s);
    forall c: nat | c < k ensures Agree(Next(m), c) { assert Agree(m, c); }
  }

  lemma WaitKeepsCoros(s: S.State)
    requires S.Inv(s) && s.cur == S.Sched && s.list != []
    ensures S.Wait(s).co == s.co
  {
  }

  // What a step does to the switch count and the end of the coroutine that makes it, and to nothing else.
  lemma StepOfOne(p: P.State, c: nat)
    requires P.Inv(p) && P.CanRun(p, c)
    ensures var p' := P.Step(p, c);
      && P.Inv(p') && |p'.ws| == |p.ws|
      && (!p'.aborted ==> p'.ws[c].switches == p.ws[c].switches + if p'.ws[c].pc.Exited? then 0 else 1)
      && (p'.aborted ==> !p'.ws[c].pc.Exited?)
      && forall d: nat :: d < |p.ws| && d != c ==> p'.ws[d] == p.ws[d]
  {
    P.StepInv(p, c);
  }

  // The scheduler's side of the same.
  lemma YieldOfOne(s: S.State, c: nat)
    requires S.Inv(s) && s.cur == S.Co(c)
    ensures var s' := S.Yield(s);
      && S.Inv(s') && c < |s'.co| == |s.co| && s'.co[c].switches == s.co[c].switches + 1
      && !s.co[c].finished && s'.co[c].finished == s.co[c].finished && s'.co[c].ret == s.co[c].ret
      && forall d: nat :: d < |s.co| && d != c ==> s'.co[d] == s.co[d]
  {
    S.YieldInv(s);
  }

  lemma ReturnOfOne(s: S.State, c: nat)
    requires S.Inv(s) && s.cur == S.Co(c)
    ensures var s' := S.Return(s, 0);
      && S.Inv(s') && c < |s'.co| == |s.co| && s'.co[c].switches == s.co[c].switches
      && s'.co[c].finished && s'.co[c].ret == 0
      && forall d: nat :: d < |s.co| && d != c ==> s'.co[d] == s.co[d]
  {
    S.ReturnInv(s, 0);
  }

  lemma StepInv(m: State, inputs: seq<seq<int>>, k: nat)
    requires Inv(m, inputs, k) && CanGo(m) && m.s.cur.Co?
    ensures Inv(Next(m), inputs, k)
  {
    hide S.Inv, P.Inv, P.Step, S.Yield, S.Return, P.Run;
    var c, m' := m.s.cur.id, Next(m);
    StepOfOne(m.p, c);
    RunSnoc(P.Start(inputs, k), m.trace, m.p, c);
    YieldOfOne(m.s, c);
    ReturnOfOne(m.s, c);
    forall d: nat | d < k ensures Agree(m', d) { assert Agree(m, d) && Agree(m, c); }
  }

  lemma NextInv(m: State, inputs: seq<seq<int>>, k: nat)
    requires Inv(m, inputs, k) && CanGo(m)
    ensures Inv(Next(m), inputs, k)
  {
    hide Inv, Next;
    if m.s.cur == S.Sched { WaitInv(m, inputs, k); } else { StepInv(m, inputs, k); }
  }

  // ---- The run ends

  function Idle(s: S.State): nat { if s.cur == S.Sched then 1 else 0 }

  lemma NextDecreases(m: State, inputs: seq<seq<int>>, k: nat)
    requires Inv(m, inputs, k) && CanGo(m)
    ensures 0 <= P.Potential(Next(m).p) <= P.Potential(m.p)
    ensures P.Potential(Next(m).p) == P.Potential(m.p) ==> |Next(m).s.list| <= |m.s.list|
    ensures P.Potential(Next(m).p) == P.Potential(m.p) && |Next(m).s.list| == |m.s.list| ==> Idle(Next(m).s) < Idle(m.s)
  {
    NextInv(m, inputs, k);
    P.PotentialBound(Next(m).p);
    if m.s.cur == S.Sched { S.RoundStarts(m.s); } else { P.StepCounts(m.p, m.s.cur.id); }
  }

  // Whoever executes can go on, unless read_file has ended the program.
  lemma AtTheEnd(m: State, inputs: seq<seq<int>>, k: nat)
    requires Inv(m, inputs, k) && !CanGo(m)
    ensures !m.p.aborted ==> m.s.cur == S.Sched && m.s.list == [] && P.AllExited(m.p)
  {
    if !m.p.aborted {
      if m.s.cur.Co? {
        assert Agree(m, m.s.cur.id);
        P.InvCanRun(m.p, m.s.cur.id);
      }
      forall c: nat | c < k ensures m.p.ws[c].pc.Exited? { assert c in m.s.harvested && Agree(m, c); }
    }
  }

  // ---- Runs of the whole program

  function Steps(m: State, n: nat): State
    decreases n
  {
    if n == 0 || !CanGo(m) then m else Steps(Next(m), n - 1)
  }

  // The program after n steps.
  function After(inputs: seq<seq<int>>, k: nat, n: nat): State {
    Steps(Start(inputs, k), n)
  }

  lemma {:induction false} StepsInv(m: State, n: nat, inputs: seq<seq<int>>, k: nat)
    requires Inv(m, inputs, k)
    ensures Inv(Steps(m, n), inputs, k)
    decreases n
  {
    hide Inv, Next, CanGo;
    if n > 0 && CanGo(m) {
      NextInv(m, inputs, k);
      StepsInv(Next(m), n - 1, inputs, k);
    }
  }

  lemma {:induction false} StepsNext(m: State, n: nat)
    requires CanGo(Steps(m, n))
    ensures Steps(m, n + 1) == Next(Steps(m, n))
    decreases n
  {
    hide Next, CanGo;
    if n > 0 && CanGo(m) { StepsNext(Next(m), n - 1); }
  }

  lemma AfterInv(inputs: seq<seq<int>>, k: nat, n: nat)
    ensures Inv(After(inputs, k, n), inputs, k)
  {
    StartInv(inputs, k);
    StepsInv(Start(inputs, k), n, inputs, k);
  }

  // ---- Main results

  /** When main has left its wait loop, every coroutine has been returned to it exactly once, having returned
      0; each reported the yields that the library counted, and together they made, for a file of n integers,
      1 + sum for p = 0..floor(log2 n) of (ceil((n - 1) / 2^(p + 1)) + 1). */
  lemma AllReturned(inputs: seq<seq<int>>, k: nat, n: nat, c: nat)
    requires k >= 1 && !CanGo(After(inputs, k, n)) && !After(inputs, k, n).p.aborted
    ensures var m := After(inputs, k, n);
      && (forall i, j :: 0 <= i < j < |m.s.harvested| ==> m.s.harvested[i] != m.s.harvested[j])
      && (c < k <==> c in m.s.harvested)
      && (c < k ==> c < |m.s.co| == |m.p.ws| && m.s.co[c].finished && m.s.co[c].ret == 0
                    && m.p.ws[c].reported == m.s.co[c].switches)
      && Sums.Sum(P.ReportedBy, m.p.ws) == Sums.Sum(P.ClosedCost, inputs)
  {
    hide After;
    var m := After(inputs, k, n);
    AfterInv(inputs, k, n);
    AtTheEnd(m, inputs, k);
    P.SwitchCounts(inputs, k, m.trace, m.p);
    if c < k { assert c in m.s.harvested && Agree(m, c); }
  }

  /** The program ends in read_file if and only if some file holds no integers. */
  lemma AbortsExactlyOnEmptyFiles(inputs: seq<seq<int>>, k: nat, n: nat)
    requires k >= 1 && !CanGo(After(inputs, k, n))
    ensures After(inputs, k, n).p.aborted <==> exists f :: 0 <= f < |inputs| && inputs[f] == []
  {
    hide After;
    var m := After(inputs, k, n);
    AfterInv(inputs, k, n);
    AtTheEnd(m, inputs, k);
    P.AbortsExactlyOnEmptyFiles(inputs, k, m.trace, m.p);
  }

  /** At every moment of the program a file has been claimed by at most one coroutine, and nobody else has
      touched its array. */
  lemma ClaimedAtMostOnce(inputs: seq<seq<int>>, k: nat, n: nat, f: nat)
    requires f < |inputs|
    ensures var m := After(inputs, k, n);
      && |m.p.files| == |inputs| && |m.p.files[f].claims| <= 1
      && m.p.files[f].touched == set c | c in m.p.files[f].claims
  {
    hide After;
    var m := After(inputs, k, n);
    AfterInv(inputs, k, n);
    P.ClaimedAtMostOnce(inputs, k, m.trace, m.p, f);
  }

  /** At its end exactly one coroutine has claimed the file and touched its array, which is sorted. */
  lemma ClaimedExactlyOnce(inputs: seq<seq<int>>, k: nat, n: nat, f: nat)
    requires k >= 1 && !CanGo(After(inputs, k, n)) && !After(inputs, k, n).p.aborted && f < |inputs|
    ensures var m := After(inputs, k, n);
      && |m.p.files| == |inputs| && |m.p.files[f].claims| == 1
      && m.p.files[f].claims[0] < k && m.p.files[f].touched == {m.p.files[f].claims[0]}
      && Sorted(m.p.files[f].row) && multiset(m.p.files[f].row) == multiset(inputs[f])
  {
    hide After;
    var m := After(inputs, k, n);
    AfterInv(inputs, k, n);
    AtTheEnd(m, inputs, k);
    P.PoolSorts(inputs, k, m.trace, m.p, f);
    assert P.FileOk(m.p, f);
  }

  function Rows(files: seq<P.File>): (rows: seq<seq<int>>)
    ensures |rows| == |files| && forall f :: 0 <= f < |files| ==> rows[f] == files[f].row
  {
    seq(|files|, f requires 0 <= f < |files| => files[f].row)
  }

  lemma {:induction false} FlatBag(rows: seq<seq<int>>, inputs: seq<seq<int>>)
    requires |rows| == |inputs| && forall f :: 0 <= f < |rows| ==> multiset(rows[f]) == multiset(inputs[f])
    ensures multiset(K.Flat(rows)) == multiset(K.Flat(inputs))
  {
    if rows != [] { FlatBag(rows[1..], inputs[1..]); }
  }

  lemma RowsSorted(inputs: seq<seq<int>>, k: nat, n: nat)
    requires k >= 1 && inputs != [] && !CanGo(After(inputs, k, n)) && !After(inputs, k, n).p.aborted
    ensures var rows := Rows(After(inputs, k, n).p.files);
      && |rows| == |inputs| && K.AllSorted(rows) && multiset(K.Flat(rows)) == multiset(K.Flat(inputs))
      && forall f :: 0 <= f < |inputs| ==> |rows[f]| == |inputs[f]|
  {
    hide After, CanGo, K.Flat;
    var rows := Rows(After(inputs, k, n).p.files);
    ClaimedExactlyOnce(inputs, k, n, 0);
    forall f: nat | f < |inputs|
      ensures Sorted(rows[f]) && multiset(rows[f]) == multiset(inputs[f]) && |rows[f]| == |inputs[f]|
    {
      ClaimedExactlyOnce(inputs, k, n, f);
      assert |multiset(rows[f])| == |multiset(inputs[f])|;
    }
    FlatBag(rows, inputs);
  }

  /** An output with the contract of SortFiles is what a single sort makes of all the inputs in a row; so it
      does not depend on the number of coroutines. */
  lemma OutputUnique(inputs: seq<seq<int>>, out: seq<int>)
    requires Sorted(out) && multiset(out) == multiset(K.Flat(inputs))
    ensures out == Passes(K.Flat(inputs), 1)
  {
    SortCorrect(K.Flat(inputs));
    SortedUnique(out, Passes(K.Flat(inputs), 1));
  }

  // The scheduler's loop in main: it comes to an end.
  method RunPool(inputs: seq<seq<int>>, k: nat) returns (m: State, ghost n: nat)
    ensures m == After(inputs, k, n) && !CanGo(m)
  {
    hide Inv, Next, CanGo;
    m, n := Start(inputs, k), 0;
    StartInv(inputs, k);
    while CanGo(m)
      invariant m == After(inputs, k, n) && Inv(m, inputs, k)
      decreases P.Potential(m.p), |m.s.list|, Idle(m.s)
    {
      NextInv(m, inputs, k);
      NextDecreases(m, inputs, k);
      StepsNext(Start(inputs, k), n);
      m, n := Next(m), n + 1;
    }
  }

  /** main: any number of coroutines, any files. The output is the sorted permutation of all the inputs'
      concatenation; or the program ends in read_file, exactly when some file holds no integers. No row that
      is merged is empty, so the counter zeros of the merge ends at 0. */
  method SortFiles(inputs: seq<seq<int>>, coroParam: nat) returns (out: Option<seq<int>>, zeros: int)
    requires coroParam >= 1 && inputs != []
    ensures out == None <==> exists f :: 0 <= f < |inputs| && inputs[f] == []
    ensures out.Some? ==> Sorted(out.value) && multiset(out.value) == multiset(K.Flat(inputs)) && zeros == 0
  {
    hide After, CanGo;
    var m: State;
    ghost var n: nat;
    m, n := RunPool(inputs, coroParam);
    AbortsExactlyOnEmptyFiles(inputs, coroParam, n);
    if m.p.aborted {
      return None, 0;
    }
    RowsSorted(inputs, coroParam, n);
    var numbers;
    numbers, zeros := K.WriteResult(Rows(m.p.files));
    return Some(numbers), zeros;
  }
}
