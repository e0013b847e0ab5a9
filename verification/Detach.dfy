/**
 Detaching and joining threads that run on malloc'ed stacks, lecture_examples/6_threads/
 12_cthread_detach.c with clone.h: any number of threads, each joined or detached at most once, and a
 shared list of stacks whose threads may still be running. Every load, store and compare-and-swap of
 the source is one atomic step.

 clone is called with CLONE_CHILD_SETTID | CLONE_CHILD_CLEARTID: the new thread itself stores its id
 before it runs, so until then the malloc'ed tid field is arbitrary, and the kernel zeroes it when the
 thread is gone. A lock word is modelled with its owner.
 */
module Detach {
  import opened Options
  import opened Sums

  datatype Side = Runner | Owner

  // One call of cthread_destroy, by its next step.
  datatype Dest =
    | LockList
    | Head
    | Test(iter: Option<nat>)
    | Next(it: nat)
    | Free(it: nat, next: Option<nat>)
    | Link(iter: Option<nat>)
    | Push
    | UnlockList

  // The thread: cthread_runner, from clone to the moment the kernel zeroes tid.
  datatype RunPc =
    | Born | Running | LockSelf | TestDetached | RunDestroy(d: Dest) | SetFinished | UnlockSelf | Exiting | Exited

  // The thread that created it: at most one call of cthread_join or cthread_detach.
  datatype OwnPc =
    | Idle
    | JoinWait | JoinDestroy(d: Dest) | JoinRead | Joined(code: int)
    | DetLock | DetTest | DetDestroy(d: Dest) | DetSet | DetUnlock | DetDone

  // code, lock, finished, detached: struct cthread. tid, next, freed: its cthread_stack, freed being
  // whether the record and the stack have been given back. gave: history, the sides that called
  // cthread_destroy.
  datatype Thread = Thread(code: int, lock: Option<Side>, finished: bool, detached: bool,
                           tid: int, next: Option<nat>, freed: bool,
                           run: RunPc, own: OwnPc, gave: set<Side>)

  datatype Party = Party(t: nat, side: Side)

  // chain: history, the records in stack_list.
  datatype State = State(threads: seq<Thread>, listLock: Option<Party>, head: Option<nat>, chain: seq<nat>)

  // Act(p): the next step of one party. Return(t, code): the body of thread t returns code.
  datatype Event = Act(p: Party) | Return(t: nat, code: int) | CallJoin(t: nat) | CallDetach(t: nat)

  // ---- cthread_destroy

  function DestOf(th: Thread, side: Side): Option<Dest> {
    match side
    case Runner => if th.run.RunDestroy? then Some(th.run.d) else None
    case Owner => if th.own.JoinDestroy? || th.own.DetDestroy? then Some(th.own.d) else None
  }

  function SetDest(th: Thread, side: Side, d: Dest): Thread {
    match side
    case Runner => th.(run := RunDestroy(d))
    case Owner => th.(own := if th.own.JoinDestroy? then JoinDestroy(d) else DetDestroy(d))
  }

  // cthread_destroy returns to its caller.
  function EndDest(th: Thread, side: Side): Thread {
    match side
    case Runner => th.(run := SetFinished)
    case Owner => th.(own := if th.own.JoinDestroy? then JoinRead else DetSet)
  }

  function Update(s: State, t: nat, th: Thread): State
    requires t < |s.threads|
  {
    s.(threads := s.threads[t := th])
  }

  // The pointers a step follows are pointers to records.
  predicate DestEnabled(s: State, p: Party, d: Dest) {
    && p.t < |s.threads|
    && (d == LockList ==> s.listLock == None)
    && (d.Test? && d.iter.Some? ==> d.iter.value < |s.threads|)
    && (d.Next? || d.Free? ==> d.it < |s.threads|)
  }

  function DestStep(s: State, p: Party, d: Dest): State
    requires DestEnabled(s, p, d)
  {
    var th := s.threads[p.t];
    match d
    case LockList => Update(s, p.t, SetDest(th, p.side, Head)).(listLock := Some(p))
    case Head => Update(s, p.t, SetDest(th, p.side, Test(s.head)))
    case Test(iter) =>
      if iter == None || s.threads[iter.value].tid != 0 then Update(s, p.t, SetDest(th, p.side, Link(iter)))
      else Update(s, p.t, SetDest(th, p.side, Next(iter.value)))
    case Next(it) => Update(s, p.t, SetDest(th, p.side, Free(it, s.threads[it].next)))
    case Free(it, next) =>
      var s1 := Update(s, it, s.threads[it].(freed := true));
      Update(s1, p.t, SetDest(s1.threads[p.t], p.side, Test(next)))
        .(chain := if s.chain != [] && s.chain[0] == it then s.chain[1..] else s.chain)
    case Link(iter) => Update(s, p.t, SetDest(th, p.side, Push).(next := iter))
    case Push => Update(s, p.t, SetDest(th, p.side, UnlockList)).(head := Some(p.t), chain := [p.t] + s.chain)
    case UnlockList => Update(s, p.t, EndDest(th, p.side)).(listLock := None)
  }

  // The records a step reads, writes or frees.
  function Touched(s: State, p: Party, d: Dest): set<nat> {
    match d
    case Test(iter) => if iter.Some? then {iter.value} else {}
    case Next(it) => {it}
    case Free(it, _) => {it}
    case Link(_) => {p.t}
    case _ => {}
  }

  // ---- cthread_runner, cthread_join, cthread_detach

  // A step of the thread itself, outside cthread_destroy.
  function RunStep(th: Thread, t: nat): Thread {
    match th.run
    case Born => th.(run := Running, tid := t + 1)
    case LockSelf => th.(run := TestDetached, lock := Some(Runner))
    case TestDetached =>
      if th.detached then th.(run := RunDestroy(LockList), gave := th.gave + {Runner}) else th.(run := SetFinished)
    case SetFinished => th.(run := UnlockSelf, finished := true)
    case UnlockSelf => th.(run := Exiting, lock := None)
    case Exiting => th.(run := Exited, tid := 0)
    case _ => th
  }

  // A step of its creator, outside cthread_destroy.
  function OwnStep(th: Thread): Thread {
    match th.own
    case JoinWait => th.(own := JoinDestroy(LockList), gave := th.gave + {Owner})
    case JoinRead => th.(own := Joined(th.code))
    case DetLock => th.(own := DetTest, lock := Some(Owner))
    case DetTest =>
      if th.finished then th.(own := DetDestroy(LockList), gave := th.gave + {Owner}) else th.(own := DetSet)
    case DetSet => th.(own := DetUnlock, detached := true)
    case DetUnlock => th.(own := DetDone, lock := None)
    case _ => th
  }

  predicate PlainEnabled(th: Thread, side: Side) {
    match side
    case Runner =>
      && th.run !in {Running, Exited} && !th.run.RunDestroy?
      && (th.run == LockSelf ==> th.lock == None)
    case Owner =>
      && th.own !in {Idle, DetDone} && !th.own.Joined? && !th.own.JoinDestroy? && !th.own.DetDestroy?
      && (th.own == JoinWait ==> th.finished)
      && (th.own == DetLock ==> th.lock == None)
  }

  predicate Enabled(s: State, e: Event) {
    match e
    case Act(p) =>
      && p.t < |s.threads|
      && var d := DestOf(s.threads[p.t], p.side);
      if d.Some? then DestEnabled(s, p, d.value) else PlainEnabled(s.threads[p.t], p.side)
    case Return(t, _) => t < |s.threads| && s.threads[t].run == Running
    case CallJoin(t) => t < |s.threads| && s.threads[t].own == Idle
    case CallDetach(t) => t < |s.threads| && s.threads[t].own == Idle
  }

  function PlainStep(th: Thread, p: Party): Thread {
    if p.side == Runner then RunStep(th, p.t) else OwnStep(th)
  }

  function Step(s: State, e: Event): State
    requires Enabled(s, e)
  {
    match e
    case Act(p) =>
      var d := DestOf(s.threads[p.t], p.side);
      if d.Some? then DestStep(s, p, d.value) else Update(s, p.t, PlainStep(s.threads[p.t], p))
    case Return(t, code) => Update(s, t, s.threads[t].(run := LockSelf, code := code))
    case CallJoin(t) => Update(s, t, s.threads[t].(own := JoinWait))
    case CallDetach(t) => Update(s, t, s.threads[t].(own := DetLock))
  }

  ghost predicate Run(s: State, evs: seq<Event>, s': State)
    decreases |evs|
  {
    if evs == [] then s == s' else Enabled(s, evs[0]) && Run(Step(s, evs[0]), evs[1..], s')
  }

  // cthread_create has returned for every thread; what malloc left in tid is arbitrary.
  ghost predicate Init(s: State) {
    && s.listLock == None && s.head == None && s.chain == []
    && forall t :: 0 <= t < |s.threads| ==>
         s.threads[t] == Thread(0, None, false, false, s.threads[t].tid, None, false, Born, Idle, {})
  }

  // ---- The invariant of one thread

  predicate RunnerLocked(th: Thread) {
    th.run in {TestDetached, SetFinished, UnlockSelf} || th.run.RunDestroy?
  }

  predicate OwnerLocked(th: Thread) {
    th.own in {DetTest, DetSet, DetUnlock} || th.own.DetDestroy?
  }

  // The thread is past its test of is_detached and its write of is_finished.
  predicate RunnerPast(th: Thread) { th.run in {UnlockSelf, Exiting, Exited} }

  predicate DetachPast(th: Thread) { th.own in {DetUnlock, DetDone} }

  predicate JoinPast(th: Thread) { th.own.JoinDestroy? || th.own == JoinRead || th.own.Joined? }

  ghost predicate ThreadInv(th: Thread) {
    && (RunnerLocked(th) <==> th.lock == Some(Runner))
    && (OwnerLocked(th) <==> th.lock == Some(Owner))
    && (th.finished <==> RunnerPast(th))
    && (th.detached <==> DetachPast(th))
    && (th.run.RunDestroy? ==> th.detached && Runner in th.gave)
    && (Runner in th.gave ==> th.run.RunDestroy? || th.run == SetFinished || RunnerPast(th))
    && (th.run == SetFinished ==> (Runner in th.gave <==> th.detached))
    && (th.own.DetDestroy? ==> th.finished && Owner in th.gave)
    && (Owner in th.gave ==> th.own.DetDestroy? || th.own == DetSet || DetachPast(th) || JoinPast(th))
    && (th.own == DetSet ==> (Owner in th.gave <==> th.finished))
    && (JoinPast(th) ==> th.finished && Owner in th.gave && Runner !in th.gave)
    && (RunnerPast(th) && DetachPast(th) ==> (Runner in th.gave <==> Owner !in th.gave))
    && (RunnerPast(th) && !DetachPast(th) ==> Runner !in th.gave)
    && (!RunnerPast(th) && DetachPast(th) ==> Owner !in th.gave)
    && (th.own.Joined? ==> th.own.code == th.code)
    && (th.run != Born ==> (th.tid == 0 <==> th.run == Exited))
  }

  lemma PlainInv(th: Thread, p: Party)
    requires ThreadInv(th) && PlainEnabled(th, p.side)
    ensures ThreadInv(PlainStep(th, p))
  {
  }

  lemma DestThreadInv(th: Thread, side: Side, d: Dest)
    requires ThreadInv(th) && DestOf(th, side).Some?
    ensures ThreadInv(SetDest(th, side, d)) && ThreadInv(EndDest(th, side))
  {
  }

  // ---- The invariant of the list

  // The side that called cthread_destroy has put the record in the list.
  predicate Pushed(th: Thread) {
    exists side :: side in th.gave && (DestOf(th, side) == None || DestOf(th, side) == Some(UnlockList))
  }

  predicate InsideList(th: Thread, side: Side) {
    DestOf(th, side).Some? && DestOf(th, side).value != LockList
  }

  function After(c: seq<nat>, i: nat): Option<nat> {
    if i + 1 < |c| then Some(c[i + 1]) else None
  }

  // From p on, the next fields lead through exactly the records of c.
  predicate Linked(ts: seq<Thread>, p: Option<nat>, c: seq<nat>) {
    && (forall i :: 0 <= i < |c| ==> c[i] < |ts|)
    && p == (if c == [] then None else Some(c[0]))
    && forall i :: 0 <= i < |c| ==> ts[c[i]].next == After(c, i)
  }

  // What the pointers in use mean, by the next step of the party that owns the list.
  ghost predicate Pointers(s: State) {
    if s.listLock == None then Linked(s.threads, s.head, s.chain)
    else
      var p := s.listLock.value;
      && p.t < |s.threads|
      && InsideList(s.threads[p.t], p.side)
      && match DestOf(s.threads[p.t], p.side).value
         case LockList => true
         case Head => Linked(s.threads, s.head, s.chain)
         case Test(iter) => Linked(s.threads, iter, s.chain)
         case Next(it) => Linked(s.threads, Some(it), s.chain) && s.threads[it].run == Exited
         case Free(it, next) =>
           s.chain != [] && it == s.chain[0] && it < |s.threads| && s.threads[it].run == Exited
           && Linked(s.threads, next, s.chain[1..])
         case Link(iter) => Linked(s.threads, iter, s.chain)
         case Push => Linked(s.threads, s.threads[p.t].next, s.chain)
         case UnlockList => Linked(s.threads, s.head, s.chain)
  }

  ghost predicate RecordInv(s: State, t: nat)
    requires t < |s.threads|
  {
    && (Pushed(s.threads[t]) <==> t in s.chain || s.threads[t].freed)
    && !(t in s.chain && s.threads[t].freed)
    && (s.threads[t].freed ==> s.threads[t].run == Exited)
    && (forall side :: InsideList(s.threads[t], side) ==> s.listLock == Some(Party(t, side)))
  }

  ghost predicate Inv(s: State) {
    && (forall t :: 0 <= t < |s.threads| ==> ThreadInv(s.threads[t]))
    && (forall t: nat :: t < |s.threads| ==> RecordInv(s, t))
    && (forall i, j :: 0 <= i < j < |s.chain| ==> s.chain[i] != s.chain[j])
    && Pointers(s)
  }

  // ---- Each step keeps the invariant

  lemma InitInv(s: State)
    requires Init(s)
    ensures Inv(s)
  {
    forall t: nat | t < |s.threads| ensures ThreadInv(s.threads[t]) && RecordInv(s, t) {
      assert s.threads[t] == Thread(0, None, false, false, s.threads[t].tid, None, false, Born, Idle, {});
    }
  }

  // A step outside cthread_destroy: the list side of the record does not notice, except that the thread
  // may be gone now or may be about to call cthread_destroy.
  ghost predicate Quiet(th: Thread, th': Thread) {
    && th'.next == th.next && th'.freed == th.freed
    && (Pushed(th') <==> Pushed(th))
    && (th.run == Exited ==> th'.run == Exited)
    && (forall side :: InsideList(th', side) <==> InsideList(th, side))
    && (forall side :: InsideList(th, side) ==> DestOf(th', side) == DestOf(th, side))
  }

  lemma QuietPlain(th: Thread, p: Party)
    requires ThreadInv(th) && PlainEnabled(th, p.side)
    ensures Quiet(th, PlainStep(th, p))
  {
    var th' := PlainStep(th, p);
    assert forall side :: DestOf(th', side) == DestOf(th, side)
                          || (side == p.side && DestOf(th, side) == None && DestOf(th', side) == Some(LockList));
    assert forall side :: side != p.side ==> (side in th'.gave <==> side in th.gave);
  }

  // Inside cthread_destroy the party that owns the list is the only one there.
  lemma OnlyOwner(s: State, p: Party)
    requires Inv(s) && p.t < |s.threads| && InsideList(s.threads[p.t], p.side)
    ensures s.listLock == Some(p)
    ensures forall u: nat, side :: u < |s.threads| && InsideList(s.threads[u], side) ==> p == Party(u, side)
  {
    assert RecordInv(s, p.t);
    forall u: nat, side | u < |s.threads| && InsideList(s.threads[u], side) ensures p == Party(u, side) {
      assert RecordInv(s, u);
    }
  }

  // The caller of cthread_destroy is the only side that ever called it for this record.
  lemma OneCaller(th: Thread, side: Side)
    requires ThreadInv(th) && DestOf(th, side).Some?
    ensures side in th.gave && forall other :: other in th.gave ==> other == side
    ensures Pushed(th) <==> DestOf(th, side) == Some(UnlockList)
    ensures forall d :: DestOf(SetDest(th, side, d), side) == Some(d)
                        && (Pushed(SetDest(th, side, d)) <==> d == UnlockList)
    ensures Pushed(EndDest(th, side)) && DestOf(EndDest(th, side), side) == None
  {
    assert forall other, d :: other != side ==> DestOf(SetDest(th, side, d), other) == DestOf(th, other);
    assert forall d :: DestOf(SetDest(th, side, d), side) == Some(d) && SetDest(th, side, d).gave == th.gave;
    assert EndDest(th, side).gave == th.gave && DestOf(EndDest(th, side), side) == None;
  }

  lemma SameNext(ts: seq<Thread>, ts': seq<Thread>, p: Option<nat>, c: seq<nat>)
    requires |ts| == |ts'| && forall u :: 0 <= u < |ts| && u in c ==> ts'[u].next == ts[u].next
    requires Linked(ts, p, c)
    ensures Linked(ts', p, c)
  {
    forall i | 0 <= i < |c| ensures ts'[c[i]].next == After(c, i) {
      assert c[i] in c && ts[c[i]].next == After(c, i);
    }
  }

  lemma QuietPointers(s: State, t: nat, th': Thread)
    requires Pointers(s) && t < |s.threads| && Quiet(s.threads[t], th')
    ensures Pointers(Update(s, t, th'))
  {
    var s' := Update(s, t, th');
    forall c, q | Linked(s.threads, q, c) ensures Linked(s'.threads, q, c) { SameNext(s.threads, s'.threads, q, c); }
    if s.listLock.Some? {
      var p := s.listLock.value;
      assert InsideList(s'.threads[p.t], p.side);
      assert DestOf(s'.threads[p.t], p.side) == DestOf(s.threads[p.t], p.side);
    }
  }

  lemma QuietInv(s: State, t: nat, th': Thread)
    requires Inv(s) && t < |s.threads| && ThreadInv(th') && Quiet(s.threads[t], th')
    ensures Inv(Update(s, t, th'))
  {
    var s' := Update(s, t, th');
    forall u: nat | u < |s.threads| ensures RecordInv(s', u) { assert RecordInv(s, u); }
    QuietPointers(s, t, th');
  }

  // Steps that only move the caller's own position.
  lemma MoveInv(s: State, p: Party, d: Dest, d': Dest)
    requires Inv(s) && p.t < |s.threads| && DestOf(s.threads[p.t], p.side) == Some(d)
    requires d != UnlockList && d' != UnlockList && d' != LockList
    requires d == LockList ==> s.listLock == None
    ensures var s' := Update(s, p.t, SetDest(s.threads[p.t], p.side, d')).(listLock := Some(p));
      && (forall t :: 0 <= t < |s'.threads| ==> ThreadInv(s'.threads[t]))
      && (forall t: nat :: t < |s'.threads| ==> RecordInv(s', t))
      && (forall c, q :: Linked(s.threads, q, c) ==> Linked(s'.threads, q, c))
      && InsideList(s'.threads[p.t], p.side)
      && (d != LockList ==> s.listLock == Some(p))
  {
    hide ThreadInv, Linked;
    var th := s.threads[p.t];
    var s' := Update(s, p.t, SetDest(th, p.side, d')).(listLock := Some(p));
    DestThreadInv(th, p.side, d');
    OneCaller(th, p.side);
    if d != LockList { OnlyOwner(s, p); }
    assert forall other :: other != p.side ==> DestOf(s'.threads[p.t], other) == DestOf(th, other);
    forall t: nat | t < |s.threads| ensures RecordInv(s', t) {
      assert RecordInv(s, t);
      forall side | InsideList(s'.threads[t], side) ensures Party(t, side) == p {
        assert Party(t, side) != p ==> InsideList(s.threads[t], side);
      }
    }
    forall c, q | Linked(s.threads, q, c) ensures Linked(s'.threads, q, c) { SameNext(s.threads, s'.threads, q, c); }
  }

  lemma LockListInv(s: State, p: Party)
    requires Inv(s) && DestEnabled(s, p, LockList) && DestOf(s.threads[p.t], p.side) == Some(LockList)
    ensures Inv(DestStep(s, p, LockList))
  {
    MoveInv(s, p, LockList, Head);
    OneCaller(s.threads[p.t], p.side);
  }

  lemma HeadInv(s: State, p: Party)
    requires Inv(s) && DestEnabled(s, p, Head) && DestOf(s.threads[p.t], p.side) == Some(Head)
    ensures Inv(DestStep(s, p, Head))
  {
    MoveInv(s, p, Head, Test(s.head));
    OneCaller(s.threads[p.t], p.side);
    assert DestStep(s, p, Head) == Update(s, p.t, SetDest(s.threads[p.t], p.side, Test(s.head))).(listLock := Some(p));
  }

  lemma TestInv(s: State, p: Party, iter: Option<nat>)
    requires Inv(s) && DestEnabled(s, p, Test(iter)) && DestOf(s.threads[p.t], p.side) == Some(Test(iter))
    ensures Inv(DestStep(s, p, Test(iter)))
  {
    hide ThreadInv;
    var th := s.threads[p.t];
    var stop := iter == None || s.threads[iter.value].tid != 0;
    var d' := if stop then Link(iter) else Next(iter.value);
    MoveInv(s, p, Test(iter), d');
    OneCaller(th, p.side);
    assert DestStep(s, p, Test(iter)) == Update(s, p.t, SetDest(th, p.side, d')).(listLock := Some(p));
    if !stop {
      var it := iter.value;
      assert it == s.chain[0] && RecordInv(s, it) && ThreadInv(s.threads[it]);
      GoneIfPushed(s.threads[it]);
      assert SetDest(th, p.side, d').run == th.run || th.run.RunDestroy?;
    }
  }

  // Only a thread that has run can be handed over, so its tid is no longer arbitrary.
  lemma GoneIfPushed(th: Thread)
    requires ThreadInv(th) && Pushed(th) && th.tid == 0
    ensures th.run == Exited
  {
  }

  lemma NextInv(s: State, p: Party, it: nat)
    requires Inv(s) && DestEnabled(s, p, Next(it)) && DestOf(s.threads[p.t], p.side) == Some(Next(it))
    ensures Inv(DestStep(s, p, Next(it)))
  {
    var th := s.threads[p.t];
    var d' := Free(it, s.threads[it].next);
    MoveInv(s, p, Next(it), d');
    OneCaller(th, p.side);
    assert DestStep(s, p, Next(it)) == Update(s, p.t, SetDest(th, p.side, d')).(listLock := Some(p));
    TailLinked(s.threads, Some(it), s.chain);
    assert SetDest(th, p.side, d').run == th.run || th.run.RunDestroy?;
  }

  lemma TailLinked(ts: seq<Thread>, p: Option<nat>, c: seq<nat>)
    requires Linked(ts, p, c) && p.Some?
    ensures c != [] && p.value == c[0] && Linked(ts, ts[c[0]].next, c[1..])
  {
    var d := c[1..];
    assert d != [] ==> d[0] == c[1];
    forall i | 0 <= i < |d| ensures ts[d[i]].next == After(d, i) {
      assert d[i] == c[i + 1];
      assert ts[c[i + 1]].next == After(c, i + 1);
    }
  }

  // Freeing the head of the list: its record leaves the chain, and the thread it belonged to is gone.
  lemma FreeInv(s: State, p: Party, it: nat, next: Option<nat>)
    requires Inv(s) && DestEnabled(s, p, Free(it, next)) && DestOf(s.threads[p.t], p.side) == Some(Free(it, next))
    ensures Inv(DestStep(s, p, Free(it, next)))
  {
    hide ThreadInv;
    var d := Free(it, next);
    var s' := DestStep(s, p, d);
    OnlyOwner(s, p);
    OneCaller(s.threads[p.t], p.side);
    assert RecordInv(s, it) && it in s.chain && it == s.chain[0];
    assert RecordInv(s, p.t) && p.t != it;
    var m := Update(s, p.t, SetDest(s.threads[p.t], p.side, Test(next))).(listLock := Some(p));
    MoveInv(s, p, d, Test(next));
    assert s'.threads == m.threads[it := m.threads[it].(freed := true)];
    assert Linked(m.threads, next, s.chain[1..]);
    FreedRecord(m, s', it);
  }

  lemma FreedRecord(m: State, s': State, it: nat)
    requires it < |m.threads| && m.chain != [] && m.chain[0] == it && m.threads[it].run == Exited
    requires s' == m.(threads := m.threads[it := m.threads[it].(freed := true)], chain := m.chain[1..])
    requires forall i, j :: 0 <= i < j < |m.chain| ==> m.chain[i] != m.chain[j]
    requires forall t :: 0 <= t < |m.threads| ==> ThreadInv(m.threads[t])
    requires forall t: nat :: t < |m.threads| ==> RecordInv(m, t)
    requires m.listLock.Some? && m.listLock.value.t < |m.threads| && m.listLock.value.t != it
    requires DestOf(m.threads[m.listLock.value.t], m.listLock.value.side).Some?
    requires DestOf(m.threads[m.listLock.value.t], m.listLock.value.side).value.Test?
    requires Linked(m.threads, DestOf(m.threads[m.listLock.value.t], m.listLock.value.side).value.iter, m.chain[1..])
    ensures Inv(s')
  {
    assert forall t: nat :: t in m.chain <==> t == it || t in m.chain[1..];
    assert it !in m.chain[1..];
    var th := m.threads[it];
    assert forall side :: DestOf(th.(freed := true), side) == DestOf(th, side);
    assert ThreadInv(th.(freed := true)) by { assert ThreadInv(th); }
    forall t: nat | t < |s'.threads| ensures RecordInv(s', t) { assert RecordInv(m, t); }
  }

  lemma LinkInv(s: State, p: Party, iter: Option<nat>)
    requires Inv(s) && DestEnabled(s, p, Link(iter)) && DestOf(s.threads[p.t], p.side) == Some(Link(iter))
    ensures Inv(DestStep(s, p, Link(iter)))
  {
    var d := Link(iter);
    var s' := DestStep(s, p, d);
    var m := Update(s, p.t, SetDest(s.threads[p.t], p.side, Push)).(listLock := Some(p));
    MoveInv(s, p, d, Push);
    OneCaller(s.threads[p.t], p.side);
    assert RecordInv(s, p.t) && p.t !in s.chain;
    assert Linked(m.threads, iter, s.chain);
    assert s'.threads == m.threads[p.t := m.threads[p.t].(next := iter)];
    LinkedRecord(m, s', p, iter);
  }

  lemma LinkedRecord(m: State, s': State, p: Party, iter: Option<nat>)
    requires p.t < |m.threads| && s' == m.(threads := m.threads[p.t := m.threads[p.t].(next := iter)])
    requires forall i, j :: 0 <= i < j < |m.chain| ==> m.chain[i] != m.chain[j]
    requires forall t :: 0 <= t < |m.threads| ==> ThreadInv(m.threads[t])
    requires forall t: nat :: t < |m.threads| ==> RecordInv(m, t)
    requires m.listLock == Some(p) && DestOf(m.threads[p.t], p.side) == Some(Push)
    requires Linked(m.threads, iter, m.chain) && p.t !in m.chain
    ensures Inv(s')
  {
    var th, th' := m.threads[p.t], s'.threads[p.t];
    assert forall side :: DestOf(th', side) == DestOf(th, side);
    assert ThreadInv(th') by { assert ThreadInv(th); }
    forall t: nat | t < |s'.threads| ensures RecordInv(s', t) { assert RecordInv(m, t); }
    SameNext(m.threads, s'.threads, iter, m.chain);
  }

  lemma PushInv(s: State, p: Party)
    requires Inv(s) && DestEnabled(s, p, Push) && DestOf(s.threads[p.t], p.side) == Some(Push)
    ensures Inv(DestStep(s, p, Push))
  {
    hide ThreadInv, Linked;
    var s' := DestStep(s, p, Push);
    var th := s.threads[p.t];
    OnlyOwner(s, p);
    OneCaller(th, p.side);
    DestThreadInv(th, p.side, UnlockList);
    assert RecordInv(s, p.t) && p.t !in s.chain && !th.freed;
    assert forall other :: other != p.side ==> DestOf(s'.threads[p.t], other) == DestOf(th, other);
    forall t: nat | t < |s'.threads| ensures RecordInv(s', t) {
      assert RecordInv(s, t);
      assert t in s'.chain <==> t == p.t || t in s.chain;
    }
    SameNext(s.threads, s'.threads, th.next, s.chain);
    ConsLinked(s'.threads, p.t, s.chain);
  }

  lemma ConsLinked(ts: seq<Thread>, t: nat, c: seq<nat>)
    requires t < |ts| && Linked(ts, ts[t].next, c)
    ensures Linked(ts, Some(t), [t] + c)
  {
    var d := [t] + c;
    forall i | 0 <= i < |d| ensures d[i] < |ts| && ts[d[i]].next == After(d, i) {
      if i > 0 {
        assert d[i] == c[i - 1];
        assert ts[c[i - 1]].next == After(c, i - 1);
      }
    }
  }

  lemma UnlockInv(s: State, p: Party)
    requires Inv(s) && DestEnabled(s, p, UnlockList) && DestOf(s.threads[p.t], p.side) == Some(UnlockList)
    ensures Inv(DestStep(s, p, UnlockList))
  {
    hide ThreadInv, Linked;
    var s' := DestStep(s, p, UnlockList);
    var th := s.threads[p.t];
    OnlyOwner(s, p);
    OneCaller(th, p.side);
    DestThreadInv(th, p.side, UnlockList);
    assert forall other :: other != p.side ==> DestOf(s'.threads[p.t], other) == DestOf(th, other);
    forall t: nat | t < |s'.threads| ensures RecordInv(s', t) {
      assert RecordInv(s, t);
      assert forall side :: InsideList(s'.threads[t], side) ==> InsideList(s.threads[t], side) && Party(t, side) != p;
    }
    SameNext(s.threads, s'.threads, s.head, s.chain);
  }

  lemma DestInv(s: State, p: Party, d: Dest)
    requires Inv(s) && DestEnabled(s, p, d) && DestOf(s.threads[p.t], p.side) == Some(d)
    ensures Inv(DestStep(s, p, d))
  {
    match d
    case LockList => LockListInv(s, p);
    case Head => HeadInv(s, p);
    case Test(iter) => TestInv(s, p, iter);
    case Next(it) => NextInv(s, p, it);
    case Free(it, next) => FreeInv(s, p, it, next);
    case Link(iter) => LinkInv(s, p, iter);
    case Push => PushInv(s, p);
    case UnlockList => UnlockInv(s, p);
  }

  lemma StepInv(s: State, e: Event)
    requires Inv(s) && Enabled(s, e)
    ensures Inv(Step(s, e))
  {
    match e
    case Act(p) =>
      var th := s.threads[p.t];
      var d := DestOf(th, p.side);
      if d.Some? {
        DestInv(s, p, d.value);
      } else {
        PlainInv(th, p);
        QuietPlain(th, p);
        QuietInv(s, p.t, PlainStep(th, p));
      }
    case Return(t, code) => CallInv(s, t, s.threads[t].(run := LockSelf, code := code));
    case CallJoin(t) => CallInv(s, t, s.threads[t].(own := JoinWait));
    case CallDetach(t) => CallInv(s, t, s.threads[t].(own := DetLock));
  }

  lemma CallInv(s: State, t: nat, th': Thread)
    requires Inv(s) && t < |s.threads|
    requires var th := s.threads[t];
      || (th.run == Running && th' == th.(run := LockSelf, code := th'.code))
      || (th.own == Idle && (th' == th.(own := JoinWait) || th' == th.(own := DetLock)))
    ensures Inv(Update(s, t, th'))
  {
    var th := s.threads[t];
    assert forall side :: DestOf(th', side) == DestOf(th, side);
    QuietInv(s, t, th');
  }

  lemma {:induction false} RunInv(s: State, evs: seq<Event>, s': State)
    requires Inv(s) && Run(s, evs, s')
    ensures Inv(s')
    decreases |evs|
  {
    if evs != [] {
      StepInv(s, evs[0]);
      RunInv(Step(s, evs[0]), evs[1..], s');
    }
  }

  // ---- Main results

  lemma ReachableInv(s0: State, evs: seq<Event>, s: State)
    requires Init(s0) && Run(s0, evs, s)
    ensures Inv(s)
  {
    InitInv(s0);
    RunInv(s0, evs, s);
  }

  /** A record is handed to cthread_destroy by at most one side; by exactly one once the thread is past
      its unlock and its creator has joined or detached it, and then it is listed or freed. */
  lemma HandedOverOnce(s0: State, evs: seq<Event>, s: State, t: nat)
    requires Init(s0) && Run(s0, evs, s) && t < |s.threads|
    ensures var th := s.threads[t];
      && !(Runner in th.gave && Owner in th.gave)
      && (RunnerPast(th) && (th.own == DetDone || th.own.Joined?) ==>
            (Runner in th.gave || Owner in th.gave) && (t in s.chain || th.freed))
  {
    ReachableInv(s0, evs, s);
    var th := s.threads[t];
    assert ThreadInv(th) && RecordInv(s, t);
    if RunnerPast(th) && (th.own == DetDone || th.own.Joined?) {
      assert DestOf(th, Runner) == DestOf(th, Owner) == None;
      assert Pushed(th);
    }
  }

  /** No stack is freed while its thread still runs on it. */
  lemma FreedOnlyAfterExit(s0: State, evs: seq<Event>, s: State, t: nat)
    requires Init(s0) && Run(s0, evs, s) && t < |s.threads| && s.threads[t].freed
    ensures s.threads[t].run == Exited && s.threads[t].tid == 0
  {
    ReachableInv(s0, evs, s);
    assert RecordInv(s, t) && ThreadInv(s.threads[t]);
  }

  /** Whatever record a step of cthread_destroy reads, writes or frees exists and has not been freed; what
      it frees belongs to a thread that is gone. So nothing is freed twice or used after it is freed, and
      the only thing the call ever waits for is the list lock. */
  lemma TouchesOnlyLiveRecords(s0: State, evs: seq<Event>, s: State, p: Party, d: Dest, u: nat)
    requires Init(s0) && Run(s0, evs, s) && p.t < |s.threads| && DestOf(s.threads[p.t], p.side) == Some(d)
    ensures DestEnabled(s, p, d) <==> (d == LockList ==> s.listLock == None)
    ensures u in Touched(s, p, d) ==> u < |s.threads| && !s.threads[u].freed
    ensures d.Free? && u == d.it ==> u < |s.threads| && s.threads[u].run == Exited && u in s.chain
  {
    ReachableInv(s0, evs, s);
    OneCaller(s.threads[p.t], p.side);
    assert RecordInv(s, p.t);
    if d != LockList {
      OnlyOwner(s, p);
      if s.chain != [] && s.chain[0] < |s.threads| { assert s.chain[0] in s.chain && RecordInv(s, s.chain[0]); }
    }
  }

  /** Every record is owned, listed or freed, never two of them: it is owned exactly until the call of
      cthread_destroy for it has linked it, and while no call is in progress the list that starts at
      stack_list consists of exactly the listed records, each once. */
  lemma RecordsPartitioned(s0: State, evs: seq<Event>, s: State, t: nat)
    requires Init(s0) && Run(s0, evs, s) && t < |s.threads|
    ensures !(t in s.chain && s.threads[t].freed)
    ensures Pushed(s.threads[t]) <==> t in s.chain || s.threads[t].freed
    ensures forall i, j :: 0 <= i < j < |s.chain| ==> s.chain[i] != s.chain[j]
    ensures s.listLock == None ==> Linked(s.threads, s.head, s.chain)
  {
    ReachableInv(s0, evs, s);
    assert RecordInv(s, t);
  }

  // The codes that the body of thread t returns in a run.
  function Codes(evs: seq<Event>, t: nat): seq<int> {
    if evs == [] then []
    else (if evs[0].Return? && evs[0].t == t then [evs[0].code] else []) + Codes(evs[1..], t)
  }

  // The body has neither returned nor stored its code, or has done both and will do neither again.
  predicate SameCode(th: Thread, th': Thread) {
    th'.code == th.code && (th'.run in {Born, Running} <==> th.run in {Born, Running})
  }

  lemma PlainCode(th: Thread, p: Party)
    requires PlainEnabled(th, p.side)
    ensures SameCode(th, PlainStep(th, p))
  {
  }

  lemma DestCode(s: State, p: Party, d: Dest, t: nat)
    requires DestEnabled(s, p, d) && DestOf(s.threads[p.t], p.side) == Some(d) && t < |s.threads|
    ensures |DestStep(s, p, d).threads| == |s.threads| && SameCode(s.threads[t], DestStep(s, p, d).threads[t])
  {
  }

  // Only a return stores a code, and a body returns once.
  lemma CodeStep(s: State, e: Event, t: nat)
    requires Enabled(s, e) && t < |s.threads|
    ensures var s' := Step(s, e); var ends := e.Return? && e.t == t;
      && |s'.threads| == |s.threads|
      && (ends ==> s.threads[t].run == Running && s'.threads[t].run == LockSelf && s'.threads[t].code == e.code)
      && (!ends ==> SameCode(s.threads[t], s'.threads[t]))
  {
    hide DestStep, PlainStep, DestEnabled, PlainEnabled;
    if e.Act? {
      var th := s.threads[e.p.t];
      var d := DestOf(th, e.p.side);
      if d.Some? { DestCode(s, e.p, d.value, t); } else { PlainCode(th, e.p); }
    }
  }

  lemma {:induction false} OneCode(s: State, evs: seq<Event>, s': State, t: nat)
    requires Run(s, evs, s') && t < |s.threads|
    ensures t < |s'.threads|
    ensures s.threads[t].run !in {Born, Running} ==>
              Codes(evs, t) == [] && s'.threads[t].code == s.threads[t].code && s'.threads[t].run !in {Born, Running}
    ensures s.threads[t].run in {Born, Running} && s'.threads[t].run !in {Born, Running} ==>
              Codes(evs, t) == [s'.threads[t].code]
    decreases |evs|
  {
    hide Step, Enabled;
    if evs != [] {
      CodeStep(s, evs[0], t);
      OneCode(Step(s, evs[0]), evs[1..], s', t);
    }
  }

  /** cthread_join returns what the body of the thread returned, in the one return of the run. */
  lemma JoinReturnsCode(s0: State, evs: seq<Event>, s: State, t: nat)
    requires Init(s0) && Run(s0, evs, s) && t < |s.threads| && s.threads[t].own.Joined?
    ensures Codes(evs, t) == [s.threads[t].own.code]
  {
    ReachableInv(s0, evs, s);
    assert ThreadInv(s.threads[t]);
    SameLength(s0, evs, s);
    assert s0.threads[t].run == Born;
    OneCode(s0, evs, s, t);
  }

  lemma {:induction false} SameLength(s: State, evs: seq<Event>, s': State)
    requires Run(s, evs, s')
    ensures |s'.threads| == |s.threads|
    decreases |evs|
  {
    if evs != [] { SameLength(Step(s, evs[0]), evs[1..], s'); }
  }

  // Neither a running thread nor a call of cthread_join or cthread_detach in progress.
  predicate AtRest(th: Thread) {
    th.run == Exited && (th.own in {Idle, DetDone} || th.own.Joined?)
  }

  // A party that owns a lock, or waits for one that is free, can step.
  lemma PartyCanStep(s0: State, evs: seq<Event>, s: State, p: Party)
    requires Init(s0) && Run(s0, evs, s) && p.t < |s.threads|
    requires DestOf(s.threads[p.t], p.side).Some?
    requires DestOf(s.threads[p.t], p.side) == Some(LockList) ==> s.listLock == None
    ensures Enabled(s, Act(p))
  {
    TouchesOnlyLiveRecords(s0, evs, s, p, DestOf(s.threads[p.t], p.side).value, 0);
  }

  /** No deadlock between the two kinds of spin lock and the join loop: unless every thread is gone and
      every call has returned, some step other than a new call is possible. */
  lemma NeverStuck(s0: State, evs: seq<Event>, s: State, t: nat) returns (e: Event)
    requires Init(s0) && Run(s0, evs, s) && t < |s.threads| && !AtRest(s.threads[t])
    ensures Enabled(s, e) && (e.Act? || e.Return?)
  {
    ReachableInv(s0, evs, s);
    if s.listLock.Some? {
      PartyCanStep(s0, evs, s, s.listLock.value);
      return Act(s.listLock.value);
    }
    var th := s.threads[t];
    assert ThreadInv(th);
    var side := if th.lock.Some? then th.lock.value
                else if th.run != Exited then Runner else Owner;
    if th.run == Running && side == Runner { return Return(t, 0); }
    if DestOf(th, side).Some? { PartyCanStep(s0, evs, s, Party(t, side)); }
    e := Act(Party(t, side));
  }

  // ---- Every run is finite

  // Steps ahead: of a call of cthread_destroy, where a round of its loop is paid for by the record it frees,
  function DestAhead(d: Dest): int {
    match d
    case LockList => 6
    case Head => 5
    case Test(_) => 4
    case Next(_) => 3
    case Free(_, _) => 2
    case Link(_) => 3
    case Push => 2
    case UnlockList => 1
  }

  // of the thread,
  function RunAhead(r: RunPc): int {
    match r
    case Born => 13
    case Running => 12
    case LockSelf => 11
    case TestDetached => 10
    case RunDestroy(d) => 3 + DestAhead(d)
    case SetFinished => 3
    case UnlockSelf => 2
    case Exiting => 1
    case Exited => 0
  }

  // of its creator,
  function OwnAhead(o: OwnPc): int {
    match o
    case Idle => 11
    case JoinWait => 8
    case JoinDestroy(d) => 1 + DestAhead(d)
    case JoinRead => 1
    case Joined(_) => 0
    case DetLock => 10
    case DetTest => 9
    case DetDestroy(d) => 2 + DestAhead(d)
    case DetSet => 2
    case DetUnlock => 1
    case DetDone => 0
  }

  // and what a record can still pay.
  function Ahead(th: Thread): int {
    RunAhead(th.run) + OwnAhead(th.own) + if th.freed then 0 else 3
  }

  lemma FreesLiveRecord(s: State, p: Party, it: nat, next: Option<nat>)
    requires Inv(s) && p.t < |s.threads| && DestOf(s.threads[p.t], p.side) == Some(Free(it, next))
    ensures it < |s.threads| && !s.threads[it].freed
  {
    hide ThreadInv;
    OnlyOwner(s, p);
    assert it in s.chain && RecordInv(s, it);
  }

  // The move of one thread record.
  lemma OneMoves(ts: seq<Thread>, t: nat, th: Thread)
    requires t < |ts| && Ahead(th) < Ahead(ts[t])
    ensures Sum(Ahead, ts[t := th]) < Sum(Ahead, ts)
  {
    SumUpdate(Ahead, ts, t, th);
  }

  lemma FreeMoves(s: State, p: Party, it: nat, next: Option<nat>)
    requires p.t < |s.threads| && DestOf(s.threads[p.t], p.side) == Some(Free(it, next))
    requires it < |s.threads| && !s.threads[it].freed
    ensures DestEnabled(s, p, Free(it, next))
    ensures Sum(Ahead, DestStep(s, p, Free(it, next)).threads) < Sum(Ahead, s.threads)
  {
    hide Sum;
    var ts := s.threads[it := s.threads[it].(freed := true)];
    SumUpdate(Ahead, s.threads, it, ts[it]);
    SumUpdate(Ahead, ts, p.t, SetDest(ts[p.t], p.side, Test(next)));
  }

  lemma DestMoves(s: State, p: Party, d: Dest)
    requires Inv(s) && DestEnabled(s, p, d) && DestOf(s.threads[p.t], p.side) == Some(d)
    ensures Sum(Ahead, DestStep(s, p, d).threads) < Sum(Ahead, s.threads)
  {
    hide Sum, Inv;
    if d.Free? {
      FreesLiveRecord(s, p, d.it, d.next);
      FreeMoves(s, p, d.it, d.next);
    } else {
      var th := DestStep(s, p, d).threads[p.t];
      OneMoves(s.threads, p.t, th);
    }
  }

  lemma StepMoves(s: State, e: Event)
    requires Inv(s) && Enabled(s, e)
    ensures Sum(Ahead, Step(s, e).threads) < Sum(Ahead, s.threads)
  {
    hide Sum, Inv, DestStep;
    match e
    case Act(p) =>
      var d := DestOf(s.threads[p.t], p.side);
      if d.Some? { DestMoves(s, p, d.value); } else { OneMoves(s.threads, p.t, PlainStep(s.threads[p.t], p)); }
    case Return(t, code) => OneMoves(s.threads, t, s.threads[t].(run := LockSelf, code := code));
    case CallJoin(t) => OneMoves(s.threads, t, s.threads[t].(own := JoinWait));
    case CallDetach(t) => OneMoves(s.threads, t, s.threads[t].(own := DetLock));
  }

  lemma {:induction false} RunBound(s: State, evs: seq<Event>, s': State)
    requires Inv(s) && Run(s, evs, s')
    ensures |evs| + Sum(Ahead, s'.threads) <= Sum(Ahead, s.threads)
    decreases |evs|
  {
    hide Sum, Inv, Step, Enabled;
    if evs != [] {
      StepInv(s, evs[0]);
      StepMoves(s, evs[0]);
      RunBound(Step(s, evs[0]), evs[1..], s');
    }
  }

  /** Every run has at most 27 events for each thread, its join or detach and the freeing of its record
      included; with NeverStuck, every run that is not cut short ends with everything at rest. */
  lemma EveryRunEnds(s0: State, evs: seq<Event>, s: State)
    requires Init(s0) && Run(s0, evs, s)
    ensures |evs| <= 27 * |s0.threads|
  {
    hide Inv, Run;
    InitInv(s0);
    RunBound(s0, evs, s);
    SumBounds(Ahead, s0.threads, 27, 27);
    SumBoundsBelow(Ahead, s.threads);
  }
}
