/**
 The cooperative scheduler of 1/solution/libcoro.c as a state machine; LibCoro.dfy is the same code over
 its linked list. Coroutines are numbered in the order of their creation.

 sigsetjmp stores who is executing and the local variable (from, or c in coro_body) on its stack;
 siglongjmp makes the stored code execute, which then assigns that local variable to coro_this_ptr.
 coro_sched_wait is called from the scheduler's context only, coro_yield from coroutines only.
 */
module Scheduler {
  import opened Sums

  datatype Ctx = Sched | Co(id: nat)

  datatype Buf = Buf(code: Ctx, local: Ctx)

  // birth: history, the value of the scheduler's own switch_count at creation.
  datatype Coro = Coro(ret: int, finished: bool, switches: nat, ctx: Buf, birth: nat)

  // list: coro_list from its head. cur: who executes. thisPtr: coro_this_ptr. waiting:
  // is_sched_waiting. rounds: the switch_count of coro_sched. schedCtx: its context. failed: the branch
  // "no place to return" was taken. harvested: history, what coro_sched_wait has returned.
  datatype State = State(list: seq<nat>, cur: Ctx, thisPtr: Ctx, waiting: bool, rounds: nat, schedCtx: Buf,
                         failed: bool, co: seq<Coro>, harvested: seq<nat>)

  // coro_sched_init: everything zero, which as a context is nobody's; the scheduler's own stands for it.
  const INITIAL := State([], Sched, Sched, false, 0, Buf(Sched, Sched), false, [], [])

  function BufOf(s: State, to: Ctx): Buf {
    if to.Co? && to.id < |s.co| then s.co[to.id].ctx else s.schedCtx
  }

  // The jump, and what the resumed code does first: coro_yield_to and coro_body restore coro_this_ptr;
  // the scheduler is resumed in coro_sched_wait, which lowers is_sched_waiting.
  function Jump(s: State, to: Ctx): State {
    var b := BufOf(s, to);
    s.(cur := b.code, thisPtr := b.local, waiting := s.waiting && b.code != Sched)
  }

  // The first half of coro_yield_to: count the switch, store the own context.
  function Save(s: State): State {
    var from := s.thisPtr;
    var saved := Buf(s.cur, from);
    if from.Co? && from.id < |s.co|
    then s.(co := s.co[from.id := s.co[from.id].(switches := s.co[from.id].switches + 1, ctx := saved)])
    else s.(rounds := s.rounds + 1, schedCtx := saved)
  }

  function YieldTo(s: State, to: Ctx): State {
    Jump(Save(s), to)
  }

  // The next field of a listed coroutine; coro_sched is not listed and has none.
  function NextOf(list: seq<nat>, c: Ctx): Ctx {
    if list == [] then Sched
    else if c == Co(list[0]) then (if |list| > 1 then Co(list[1]) else Sched)
    else NextOf(list[1..], c)
  }

  // coro_yield
  function Yield(s: State): State {
    YieldTo(s, NextOf(s.list, s.thisPtr))
  }

  // coro_new: the body stores its context and jumps back, then the coroutine is put at the head.
  function New(s: State): State {
    var id := |s.co|;
    s.(co := s.co + [Coro(0, false, 0, Buf(Co(id), Co(id)), s.rounds)], list := [id] + s.list)
  }

  // The end of coro_body for the executing coroutine.
  function Return(s: State, ret: int): State {
    if !s.cur.Co? || s.cur.id >= |s.co| then s
    else
      var s1 := s.(co := s.co[s.cur.id := s.co[s.cur.id].(ret := ret, finished := true)]);
      if !s.waiting then s1.(failed := true) else Jump(s1, Sched)
  }

  predicate IsFinished(s: State, c: nat) {
    c < |s.co| && s.co[c].finished
  }

  // The scan of coro_sched_wait: the first finished coroutine of the list.
  function FirstFinished(s: State, list: seq<nat>): (k: nat)
    ensures k <= |list| && (k < |list| ==> IsFinished(s, list[k]))
    ensures forall j :: 0 <= j < k ==> !IsFinished(s, list[j])
  {
    if list == [] || IsFinished(s, list[0]) then 0 else 1 + FirstFinished(s, list[1..])
  }

  // One iteration of its loop: return a finished coroutine, or start a round at the head.
  function Wait(s: State): State
    requires s.list != []
  {
    var k := FirstFinished(s, s.list);
    if k < |s.list| then s.(list := s.list[..k] + s.list[k + 1..], harvested := s.harvested + [s.list[k]])
    else YieldTo(s.(waiting := true), Co(s.list[0]))
  }

  // ---- Runs: any sequence of actions by whoever executes

  datatype Event = Create | YieldNow | Finish(ret: int) | WaitNow

  predicate Enabled(s: State, e: Event) {
    match e
    case Create => true
    case YieldNow => s.cur.Co?
    case Finish(_) => s.cur.Co?
    case WaitNow => s.cur == Sched && s.list != []
  }

  function Step(s: State, e: Event): State
    requires Enabled(s, e)
  {
    match e
    case Create => New(s)
    case YieldNow => Yield(s)
    case Finish(ret) => Return(s, ret)
    case WaitNow => Wait(s)
  }

  ghost predicate Run(s: State, evs: seq<Event>, s': State)
    decreases |evs|
  {
    if evs == [] then s == s' else Enabled(s, evs[0]) && Run(Step(s, evs[0]), evs[1..], s')
  }

  // ---- The invariant

  predicate Decreasing(list: seq<nat>) {
    forall i, j :: 0 <= i < j < |list| ==> list[i] > list[j]
  }

  function Done(c: Coro): int { if c.finished then 1 else 0 }

  // Finished coroutines younger than i.
  function DoneAbove(co: seq<Coro>, i: nat): int
    requires i < |co|
  {
    Sum(Done, co[i + 1..])
  }

  // Coroutine i has not had its turn yet in the round in progress.
  function Due(s: State, i: nat): nat {
    if s.cur.Co? && i <= s.cur.id then 1 else 0
  }

  // Everything but the switch counts.
  ghost predicate Shape(s: State) {
    && Decreasing(s.list)
    && (forall i :: i in s.list ==> i < |s.co|)
    && (forall i :: i in s.harvested ==> i < |s.co| && s.co[i].finished && i !in s.list)
    && (forall i, j :: 0 <= i < j < |s.harvested| ==> s.harvested[i] != s.harvested[j])
    && (forall i: nat :: i < |s.co| ==> i in s.list || i in s.harvested)
    && s.thisPtr == s.cur && !s.failed && s.waiting == s.cur.Co?
    && s.schedCtx == Buf(Sched, Sched)
    && (s.cur.Co? ==> s.cur.id in s.list && forall i :: i in s.list ==> !s.co[i].finished)
    && (forall i: nat :: i < |s.co| && !s.co[i].finished ==> s.co[i].ctx == Buf(Co(i), Co(i)))
  }

  ghost predicate Counts(s: State) {
    forall i: nat :: i < |s.co| && !s.co[i].finished ==>
      s.co[i].switches + s.co[i].birth + DoneAbove(s.co, i) + Due(s, i) == s.rounds
  }

  ghost predicate Inv(s: State) { Shape(s) && Counts(s) }

  // In a decreasing list the successor is the next smaller listed number.
  lemma {:induction false} NextIsBelow(list: seq<nat>, c: nat)
    requires Decreasing(list) && c in list
    ensures match NextOf(list, Co(c))
      case Sched => forall i :: i in list ==> i >= c
      case Co(n) => n in list && n < c && forall i :: i in list && i < c ==> i <= n
  {
    if list[0] != c {
      NextIsBelow(list[1..], c);
      assert list == [list[0]] + list[1..];
    }
  }

  lemma NewestAbove(co: seq<Coro>, x: Coro, i: nat)
    requires i < |co|
    ensures DoneAbove(co + [x], i) == DoneAbove(co, i) + Done(x)
  {
    assert (co + [x])[i + 1..] == co[i + 1..] + [x];
    SumConcat(Done, co[i + 1..], [x]);
  }

  lemma NoneAbove(co: seq<Coro>)
    requires co != []
    ensures DoneAbove(co, |co| - 1) == 0
  {
  }

  lemma NewInv(s: State)
    requires Inv(s)
    ensures Inv(New(s))
  {
    hide DoneAbove;
    var s' := New(s);
    forall i, j | 0 <= i < j < |s'.list| ensures s'.list[i] > s'.list[j] {
      assert s'.list[j] == s.list[j - 1] && s.list[j - 1] in s.list;
    }
    forall i: nat | i < |s'.co| && !s'.co[i].finished
      ensures s'.co[i].switches + s'.co[i].birth + DoneAbove(s'.co, i) + Due(s', i) == s'.rounds
    {
      if i < |s.co| {
        NewestAbove(s.co, s'.co[|s.co|], i);
      } else {
        NoneAbove(s'.co);
      }
    }
  }

  lemma UpdateAbove(co: seq<Coro>, c: nat, x: Coro, i: nat)
    requires c < |co| && i < |co|
    ensures DoneAbove(co[c := x], i) == DoneAbove(co, i) + (if i < c then Done(x) - Done(co[c]) else 0)
  {
    if i < c {
      assert co[c := x][i + 1..] == co[i + 1..][c - i - 1 := x];
      SumUpdate(Done, co[i + 1..], c - i - 1, x);
    } else {
      assert co[c := x][i + 1..] == co[i + 1..];
    }
  }

  lemma YieldInv(s: State)
    requires Inv(s) && s.cur.Co?
    ensures Inv(Yield(s))
  {
    var s', c := Yield(s), s.cur.id;
    NextIsBelow(s.list, c);
    forall i: nat | i < |s'.co| && !s'.co[i].finished
      ensures s'.co[i].switches + s'.co[i].birth + DoneAbove(s'.co, i) + Due(s', i) == s'.rounds
    {
      UpdateAbove(s.co, c, s'.co[c], i);
      assert i in s.list;
    }
  }

  lemma ReturnInv(s: State, ret: int)
    requires Inv(s) && s.cur.Co?
    ensures Inv(Return(s, ret))
  {
    var s', c := Return(s, ret), s.cur.id;
    forall i: nat | i < |s'.co| && !s'.co[i].finished
      ensures s'.co[i].switches + s'.co[i].birth + DoneAbove(s'.co, i) + Due(s', i) == s'.rounds
    {
      UpdateAbove(s.co, c, s'.co[c], i);
    }
  }

  lemma HarvestInv(s: State)
    requires Inv(s) && s.cur == Sched && FirstFinished(s, s.list) < |s.list|
    ensures Inv(Wait(s))
  {
    hide FirstFinished, DoneAbove, Decreasing;
    WithoutOne(s.list, FirstFinished(s, s.list));
    assert Counts(Wait(s));
  }

  lemma WithoutOne(list: seq<nat>, k: nat)
    requires Decreasing(list) && k < |list|
    ensures var rest := list[..k] + list[k + 1..];
      && Decreasing(rest) && list[k] !in rest
      && forall i :: i in list <==> i in rest || i == list[k]
  {
    var rest := list[..k] + list[k + 1..];
    assert list == list[..k] + [list[k]] + list[k + 1..];
    assert forall j :: 0 <= j < |rest| ==> rest[j] == if j < k then list[j] else list[j + 1];
  }

  lemma RoundInv(s: State)
    requires Inv(s) && s.cur == Sched && s.list != [] && FirstFinished(s, s.list) == |s.list|
    ensures Inv(Wait(s))
  {
    var s', head := Wait(s), s.list[0];
    assert head in s.list && !IsFinished(s, head);
    assert s'.co == s.co && s'.cur == Co(head) && s'.rounds == s.rounds + 1;
    forall i: nat | i < |s'.co| && !s'.co[i].finished
      ensures s'.co[i].switches + s'.co[i].birth + DoneAbove(s'.co, i) + Due(s', i) == s'.rounds
    {
      assert i in s.list && i <= head;
      assert Due(s, i) == 0 && Due(s', i) == 1;
    }
  }

  lemma WaitInv(s: State)
    requires Inv(s) && s.cur == Sched && s.list != []
    ensures Inv(Wait(s))
  {
    if FirstFinished(s, s.list) < |s.list| { HarvestInv(s); } else { RoundInv(s); }
  }

  // An iteration of the wait loop that returns nothing hands control to a coroutine.
  lemma RoundStarts(s: State)
    requires Inv(s) && s.cur == Sched && s.list != []
    ensures |Wait(s).list| < |s.list| || (Wait(s).list == s.list && Wait(s).cur.Co?)
  {
    if FirstFinished(s, s.list) == |s.list| {
      assert s.list[0] in s.list && !IsFinished(s, s.list[0]);
    }
  }

  lemma StepInv(s: State, e: Event)
    requires Inv(s) && Enabled(s, e)
    ensures Inv(Step(s, e))
  {
    match e
    case Create => NewInv(s);
    case YieldNow => YieldInv(s);
    case Finish(ret) => ReturnInv(s, ret);
    case WaitNow => WaitInv(s);
  }

  lemma {:induction false} RunInv(s: State, evs: seq<Event>, s': State)
    requires Inv(s) && Run(s, evs, s')
    ensures Inv(s')
    decreases |evs|
  {
    if evs != [] {
      StepInv(s, evs[0]);
      RunInv(Step(s, evs[0]), evs[1..], s');
    }
  }

  // ---- Main results

  /** While a coroutine executes, coro_this_ptr names it, the scheduler waits, and no listed coroutine is
      finished; so a yield goes to an unfinished coroutine, or to the scheduler, in that one's own context,
      and a return always finds its place. */
  lemma SafeWhileRunning(evs: seq<Event>, s: State, ret: int)
    requires Run(INITIAL, evs, s) && s.cur.Co?
    ensures s.thisPtr == s.cur && s.waiting && forall i :: i in s.list ==> i < |s.co| && !s.co[i].finished
    ensures var to := NextOf(s.list, s.thisPtr);
      && Yield(s).cur == Yield(s).thisPtr == to
      && (to.Co? ==> to.id < |s.co| && !s.co[to.id].finished)
    ensures !Return(s, ret).failed && Return(s, ret).cur == Return(s, ret).thisPtr == Sched
  {
    RunInv(INITIAL, evs, s);
    NextIsBelow(s.list, s.cur.id);
  }

  /** The branch "no place to return" is never taken. */
  lemma NeverFails(evs: seq<Event>, s: State)
    requires Run(INITIAL, evs, s)
    ensures !s.failed
  {
    RunInv(INITIAL, evs, s);
  }

  /** The yields of a live coroutine, exactly: the rounds since its creation, less one for each younger
      coroutine that has finished (its return cut a round short), whenever the scheduler is back. */
  lemma YieldLaw(evs: seq<Event>, s: State, i: nat)
    requires Run(INITIAL, evs, s) && s.cur == Sched && i < |s.co| && !s.co[i].finished
    ensures s.co[i].switches == s.rounds - s.co[i].birth - DoneAbove(s.co, i)
  {
    RunInv(INITIAL, evs, s);
  }

  /** Fairness: of two live coroutines created before the first wait, or in the same round, the one nearer
      the list head is ahead by exactly the number of coroutines between them that have finished. */
  lemma Fairness(evs: seq<Event>, s: State, j: nat, i: nat)
    requires Run(INITIAL, evs, s) && s.cur == Sched && j < i < |s.co|
    requires !s.co[i].finished && !s.co[j].finished && s.co[i].birth == s.co[j].birth
    ensures s.co[i].switches - s.co[j].switches == Sum(Done, s.co[j + 1..i])
    ensures 0 <= s.co[i].switches - s.co[j].switches <= Sum(Done, s.co)
  {
    YieldLaw(evs, s, i);
    YieldLaw(evs, s, j);
    DoneBetween(s.co, j, i);
  }

  lemma NotDone(c: Coro)
    requires !c.finished
    ensures Sum(Done, [c]) == 0
  {
  }

  lemma DoneBetween(co: seq<Coro>, j: nat, i: nat)
    requires j < i < |co| && !co[i].finished
    ensures DoneAbove(co, j) == Sum(Done, co[j + 1..i]) + DoneAbove(co, i)
    ensures 0 <= Sum(Done, co[j + 1..i]) <= Sum(Done, co)
  {
    hide Sum;
    var mid := co[j + 1..i];
    assert co[j + 1..] == mid + co[i..];
    SumConcat(Done, mid, co[i..]);
    assert co[i..] == [co[i]] + co[i + 1..];
    SumConcat(Done, [co[i]], co[i + 1..]);
    NotDone(co[i]);
    assert co == co[..j + 1] + co[j + 1..];
    SumConcat(Done, co[..j + 1], co[j + 1..]);
    SumBoundsBelow(Done, mid);
    SumBoundsBelow(Done, co[..j + 1]);
    SumBoundsBelow(Done, co[i + 1..]);
  }

  /** Harvest: what coro_sched_wait has returned is finished and was returned once; when it finds the list
      empty, every coroutine ever created has been returned. */
  lemma HarvestedOnce(evs: seq<Event>, s: State)
    requires Run(INITIAL, evs, s)
    ensures forall i, j :: 0 <= i < j < |s.harvested| ==> s.harvested[i] != s.harvested[j]
    ensures forall i :: i in s.harvested ==> i < |s.co| && s.co[i].finished
    ensures s.list == [] <==> forall i: nat :: i < |s.co| ==> i in s.harvested
  {
    RunInv(INITIAL, evs, s);
    if s.list != [] { assert s.list[0] in s.list; }
  }
}
