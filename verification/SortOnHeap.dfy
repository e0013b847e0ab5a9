/**
 The coroutine pool of 1/solution/solution.c on the library's own code. To the library a coroutine of the
 pool is the sequence of its yields and its return: given those, the heap program of LibCoro.dfy goes
 through the same states of the scheduler as the whole program of SortMain.dfy.
 */
module SortOnHeap {
  import opened Options
  import G = Programs
  import L = LibCoro
  import M = SortMain
  import P = Pool
  import S = Scheduler

  // So many yields, then return 0: what intermediate does to the library.
  function Yielding(n: nat): (b: G.Body)
    ensures G.YieldsOf(b) == n && G.ReturnOf(b) == 0 && G.Offspring(b) == multiset{}
  {
    if n == 0 then G.Return(0) else G.Yield(Yielding(n - 1))
  }

  function BodiesOf(co: seq<S.Coro>): seq<G.Body> {
    seq(|co|, i requires 0 <= i < |co| => Yielding(co[i].switches))
  }

  // What a coroutine has left to do until it is as it will be at the end.
  predicate Left(now: S.Coro, end: S.Coro, r: Option<G.Body>) {
    && now.switches <= end.switches
    && (now.finished ==> now.switches == end.switches)
    && r == if now.finished then None else Some(Yielding(end.switches - now.switches))
  }

  ghost predicate Follows(sys: G.System, m: M.State, e: M.State) {
    && sys.s == m.s && |sys.rest| == |m.s.co| == |e.s.co|
    && forall c: nat :: c < |m.s.co| ==> Left(m.s.co[c], e.s.co[c], sys.rest[c])
  }

  // ---- Switch counts only grow, and not those of finished coroutines

  predicate Grown(now: S.Coro, end: S.Coro) {
    now.switches <= end.switches && (now.finished ==> end.finished && now.switches == end.switches)
  }

  lemma NextGrows(m: M.State, inputs: seq<seq<int>>, k: nat, c: nat)
    requires M.Inv(m, inputs, k) && M.CanGo(m) && c < k
    ensures |m.s.co| == |M.Next(m).s.co| == k && Grown(m.s.co[c], M.Next(m).s.co[c])
  {
    hide S.Inv, S.Yield, S.Return, S.Wait, P.Step, P.Inv;
    match m.s.cur
    case Sched => M.WaitKeepsCoros(m.s);
    case Co(i) =>
      M.YieldOfOne(m.s, i);
      M.ReturnOfOne(m.s, i);
  }

  lemma CoroCount(m: M.State, inputs: seq<seq<int>>, k: nat)
    requires M.Inv(m, inputs, k)
    ensures S.Inv(m.s) && P.Inv(m.p) && |m.s.co| == |m.p.ws| == k
  {
  }

  lemma {:induction false} StepsGrow(m: M.State, n: nat, inputs: seq<seq<int>>, k: nat, c: nat)
    requires M.Inv(m, inputs, k) && c < k
    ensures |m.s.co| == |M.Steps(m, n).s.co| == k && Grown(m.s.co[c], M.Steps(m, n).s.co[c])
    decreases n
  {
    hide M.Inv, M.Next, M.CanGo;
    CoroCount(m, inputs, k);
    if n > 0 && M.CanGo(m) {
      NextGrows(m, inputs, k, c);
      M.NextInv(m, inputs, k);
      StepsGrow(M.Next(m), n - 1, inputs, k, c);
    }
  }

  // ---- One step

  lemma FollowsWait(sys: G.System, m: M.State, e: M.State)
    requires S.Inv(m.s) && M.CanGo(m) && m.s.cur == S.Sched && Follows(sys, m, e)
    ensures G.Waiting(sys) && !G.Running(sys) && Follows(G.Next(sys), M.Next(m), e)
  {
    M.WaitKeepsCoros(m.s);
  }

  lemma FollowsYield(sys: G.System, m: M.State, e: M.State, s': S.State)
    requires S.Inv(m.s) && m.s.cur.Co? && Follows(sys, m, e) && s' == S.Yield(m.s)
    requires |s'.co| == |e.s.co| && m.s.cur.id < |e.s.co|
    requires s'.co[m.s.cur.id].switches <= e.s.co[m.s.cur.id].switches
    ensures G.Running(sys) && Follows(G.Next(sys), m.(s := s'), e)
  {
    var c := m.s.cur.id;
    M.YieldOfOne(m.s, c);
    assert Left(m.s.co[c], e.s.co[c], sys.rest[c]);
    var k := Yielding(e.s.co[c].switches - s'.co[c].switches);
    assert sys.rest[c] == Some(G.Yield(k));
    assert G.Next(sys).rest == sys.rest[c := Some(k)];
  }

  lemma FollowsReturn(sys: G.System, m: M.State, e: M.State, s': S.State)
    requires S.Inv(m.s) && m.s.cur.Co? && Follows(sys, m, e) && s' == S.Return(m.s, 0)
    requires |s'.co| == |e.s.co| && m.s.cur.id < |e.s.co|
    requires s'.co[m.s.cur.id].switches == e.s.co[m.s.cur.id].switches
    ensures G.Running(sys) && Follows(G.Next(sys), m.(s := s'), e)
  {
    var c := m.s.cur.id;
    M.ReturnOfOne(m.s, c);
    assert Left(m.s.co[c], e.s.co[c], sys.rest[c]);
    assert sys.rest[c] == Some(G.Return(0));
    assert G.Next(sys).rest == sys.rest[c := None];
  }

  // Ending in read_file is for ever.
  lemma AbortStays(m: M.State, n: nat)
    requires m.p.aborted
    ensures M.Steps(m, n) == m
  {
  }

  lemma FollowsNext(sys: G.System, m: M.State, n: nat, inputs: seq<seq<int>>, k: nat)
    requires M.Inv(m, inputs, k) && M.CanGo(m) && n > 0
    requires Follows(sys, m, M.Steps(m, n)) && !M.Steps(m, n).p.aborted
    ensures (G.Waiting(sys) || G.Running(sys)) && M.Steps(m, n) == M.Steps(M.Next(m), n - 1)
    ensures Follows(G.Next(sys), M.Next(m), M.Steps(m, n))
  {
    hide S.Inv, S.Yield, S.Return, S.Wait, P.Step, P.Inv, Follows, M.Inv, G.Next;
    var m', e := M.Next(m), M.Steps(m, n);
    CoroCount(m, inputs, k);
    if m'.p.aborted { AbortStays(m', n - 1); }
    M.NextInv(m, inputs, k);
    match m.s.cur
    case Sched => FollowsWait(sys, m, e);
    case Co(c) =>
      CurrentInRange(m.s, c);
      M.StepOfOne(m.p, c);
      StepsGrow(m', n - 1, inputs, k, c);
      if m'.p.ws[c].pc.Exited? {
        NowFinished(m.s, c);
        FollowsReturn(sys, m, e, m'.s);
      } else {
        FollowsYield(sys, m, e, m'.s);
      }
      OnlyTheScheduler(G.Next(sys), m.(s := m'.s), m', e);
  }

  lemma CurrentInRange(s: S.State, c: nat)
    requires S.Inv(s) && s.cur == S.Co(c)
    ensures c < |s.co|
  {
    M.YieldOfOne(s, c);
  }

  lemma NowFinished(s: S.State, c: nat)
    requires S.Inv(s) && s.cur == S.Co(c)
    ensures c < |S.Return(s, 0).co| && S.Return(s, 0).co[c].finished
  {
    M.ReturnOfOne(s, c);
  }

  lemma OnlyTheScheduler(sys: G.System, m: M.State, m': M.State, e: M.State)
    requires Follows(sys, m, e) && m.s == m'.s
    ensures Follows(sys, m', e)
  {
  }

  // ---- The whole run

  lemma {:induction false} Simulates(sys: G.System, m: M.State, n: nat, inputs: seq<seq<int>>, k: nat)
    requires M.Inv(m, inputs, k) && Follows(sys, m, M.Steps(m, n))
    requires !M.CanGo(M.Steps(m, n)) && !M.Steps(m, n).p.aborted
    ensures G.Steps(sys, n).s == M.Steps(m, n).s && G.Over(G.Steps(sys, n))
    decreases n
  {
    hide M.Inv, M.Next, G.Next, Follows;
    if n > 0 && M.CanGo(m) {
      FollowsNext(sys, m, n, inputs, k);
      M.NextInv(m, inputs, k);
      Simulates(G.Next(sys), M.Next(m), n - 1, inputs, k);
    } else {
      M.AtTheEnd(m, inputs, k);
      SameScheduler(sys, m, M.Steps(m, n));
    }
  }

  lemma SameScheduler(sys: G.System, m: M.State, e: M.State)
    requires Follows(sys, m, e)
    ensures sys.s == m.s
  {
  }

  lemma {:induction false} CreateAllNews(bs: seq<G.Body>)
    ensures var sys := G.CreateAll(G.EMPTY, bs);
      && sys.s == M.News(S.INITIAL, |bs|)
      && |sys.rest| == |bs| && forall c :: 0 <= c < |bs| ==> sys.rest[c] == Some(bs[c])
    decreases |bs|
  {
    if bs != [] {
      var init := bs[..|bs| - 1];
      CreateAllNews(init);
      G.CreateAllNext(G.EMPTY, init, bs[|bs| - 1]);
      assert init + [bs[|bs| - 1]] == bs;
    }
  }

  lemma FollowsStart(inputs: seq<seq<int>>, k: nat, n: nat)
    ensures var e := M.After(inputs, k, n);
      |e.s.co| == k && Follows(G.CreateAll(G.EMPTY, BodiesOf(e.s.co)), M.Start(inputs, k), e)
  {
    hide M.Inv, M.Steps, M.News, G.CreateAll;
    M.AfterInv(inputs, k, n);
    CoroCount(M.After(inputs, k, n), inputs, k);
    CreateAllNews(BodiesOf(M.After(inputs, k, n).s.co));
    M.NewsFacts(k);
  }

  // ---- Main results

  /** The scheduler of the whole program ends exactly as the library does on bodies that make the pool's
      yields and return 0. */
  lemma PoolIsItsYields(inputs: seq<seq<int>>, k: nat, n: nat)
    requires !M.CanGo(M.After(inputs, k, n)) && !M.After(inputs, k, n).p.aborted
    ensures var m := M.After(inputs, k, n); var sys := G.CreateAll(G.EMPTY, BodiesOf(m.s.co));
      G.Inv(sys) && G.RunAll(sys).s == m.s
  {
    hide G.CreateAll, G.RunAll, Follows, G.Inv, M.Inv;
    var sys := G.CreateAll(G.EMPTY, BodiesOf(M.After(inputs, k, n).s.co));
    FollowsStart(inputs, k, n);
    M.StartInv(inputs, k);
    Simulates(sys, M.Start(inputs, k), n, inputs, k);
    G.Created(BodiesOf(M.After(inputs, k, n).s.co));
    G.Outcome(sys, n);
  }

  // The node of a coroutine that has left its loop holds what the coroutine reported.
  ghost predicate Reports(lib: L.Library, p: P.State, c: nat)
    reads lib, lib.nodes
  {
    && c < |lib.nodes| && c < |p.ws|
    && lib.nodes[c].isFinished && lib.nodes[c].ret == 0 && lib.nodes[c].switchCount == p.ws[c].reported
  }

  /** The library, run on those bodies, is left with an empty list and with nodes that hold the result and
      the switch count of every coroutine of the pool. */
  lemma HeapAgrees(lib: L.Library, inputs: seq<seq<int>>, k: nat, n: nat, c: nat)
    requires k >= 1 && c < k && !M.CanGo(M.After(inputs, k, n)) && !M.After(inputs, k, n).p.aborted
    requires lib.Valid() && G.Inv(G.CreateAll(G.EMPTY, BodiesOf(M.After(inputs, k, n).s.co)))
    requires lib.sys == G.RunAll(G.CreateAll(G.EMPTY, BodiesOf(M.After(inputs, k, n).s.co)))
    ensures Reports(lib, M.After(inputs, k, n).p, c)
  {
    hide G.CreateAll, G.RunAll, G.Inv, M.After, M.CanGo;
    PoolIsItsYields(inputs, k, n);
    M.AllReturned(inputs, k, n, c);
    lib.Node(c);
  }

  /** The pool on the heap: the library runs the pool's coroutines on these files to the end of the program,
      after n of its steps. What they do to the files is in m. */
  method PoolOnHeap(inputs: seq<seq<int>>, k: nat) returns (lib: L.Library, m: M.State, ghost n: nat)
    requires k >= 1 && forall f :: 0 <= f < |inputs| ==> inputs[f] != []
    ensures fresh(lib) && lib.Valid() && lib.coroList == null
    ensures m == M.After(inputs, k, n) && !M.CanGo(m) && !m.p.aborted
    ensures lib.sys.s == m.s && forall c: nat :: c < k ==> Reports(lib, m.p, c)
  {
    hide G.CreateAll, G.RunAll, G.Inv, M.After, M.CanGo, Reports, BodiesOf;
    m, n := M.RunPool(inputs, k);
    M.AbortsExactlyOnEmptyFiles(inputs, k, n);
    lib := L.Program(BodiesOf(m.s.co));
    PoolIsItsYields(inputs, k, n);
    forall c: nat | c < k ensures Reports(lib, m.p, c) {
      HeapAgrees(lib, inputs, k, n, c);
    }
  }
}
