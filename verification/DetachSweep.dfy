/**
 What a call of cthread_destroy does to the list of stacks, lecture_examples/6_threads/12_cthread_detach.c:
 it frees records from the front of the list for as long as their threads are gone, and puts its own
 record before the rest.
 */
module DetachSweep {
  import opened Options
  import opened Detach

  predicate Gone(s: State, t: nat) {
    t < |s.threads| && s.threads[t].tid == 0 && s.threads[t].run == Exited
  }

  // How many records at the front of c belong to threads that are gone.
  function GonePrefix(s: State, c: seq<nat>): (k: nat)
    ensures k <= |c|
  {
    if c == [] || !Gone(s, c[0]) then 0 else 1 + GonePrefix(s, c[1..])
  }

  lemma {:induction false} GonePrefixBounds(s: State, c: seq<nat>, k: nat)
    requires k <= |c|
    ensures (forall i :: 0 <= i < k ==> Gone(s, c[i])) ==> k <= GonePrefix(s, c)
    ensures k <= GonePrefix(s, c) ==> forall i :: 0 <= i < k ==> Gone(s, c[i])
  {
    if k > 0 {
      GonePrefixBounds(s, c[1..], k - 1);
      if forall i :: 0 <= i < k ==> Gone(s, c[i]) {
        forall i | 0 <= i < k - 1 ensures Gone(s, c[1..][i]) { assert Gone(s, c[i + 1]); }
        assert Gone(s, c[0]);
      }
      if k <= GonePrefix(s, c) {
        forall i | 0 <= i < k ensures Gone(s, c[i]) { if i > 0 { assert Gone(s, c[1..][i - 1]); } }
      }
    }
  }

  // The call is over, and a party makes no other.
  predicate Over(th: Thread, side: Side) {
    match side
    case Runner => th.run in {SetFinished, UnlockSelf, Exiting, Exited}
    case Owner => th.own in {JoinRead, DetSet, DetUnlock, DetDone} || th.own.Joined?
  }

  // The call is in its loop, or past it, with the first k records of c freed; at least m of them are gone.
  ghost predicate Sweeping(s: State, p: Party, c: seq<nat>, m: nat, k: nat) {
    && p.t < |s.threads| && m <= |c| && k <= |c|
    && s.listLock == Some(p) && InsideList(s.threads[p.t], p.side)
    && (forall i :: 0 <= i < m || 0 <= i < k ==> Gone(s, c[i]))
    && (forall i :: 0 <= i < k ==> s.threads[c[i]].freed)
    && var d := DestOf(s.threads[p.t], p.side).value;
       && s.chain == (if d == UnlockList then [p.t] + c[k..] else c[k..])
       && (d.Head? ==> k == 0)
       && (d.Next? || d.Free? ==> k < |c| && d.it == c[k] && Gone(s, c[k]))
       && (d.Link? || d.Push? || d.UnlockList? ==> m <= k)
  }

  ghost predicate Swept(s: State, p: Party, c: seq<nat>, m: nat) {
    p.t < |s.threads| && (Over(s.threads[p.t], p.side) || exists k :: Sweeping(s, p, c, m, k))
  }

  // ---- A step of the call

  lemma DestSweeps(s: State, p: Party, d: Dest, c: seq<nat>, m: nat, k: nat)
    requires Inv(s) && Sweeping(s, p, c, m, k) && DestOf(s.threads[p.t], p.side) == Some(d) && DestEnabled(s, p, d)
    ensures Swept(DestStep(s, p, d), p, c, m)
  {
    hide ThreadInv, Linked;
    var s' := DestStep(s, p, d);
    match d
    case LockList =>
    case Head =>
      assert Sweeping(s', p, c, m, 0);
    case Test(iter) =>
      TestSweeps(s, p, iter, c, m, k);
    case Next(it) =>
      assert Sweeping(s', p, c, m, k);
    case Free(it, next) =>
      FreeSweeps(s, p, it, next, c, m, k);
    case Link(_) =>
      assert Sweeping(s', p, c, m, k);
    case Push =>
      assert Sweeping(s', p, c, m, k);
    case UnlockList =>
      assert Over(s'.threads[p.t], p.side);
  }

  lemma TestSweeps(s: State, p: Party, iter: Option<nat>, c: seq<nat>, m: nat, k: nat)
    requires Inv(s) && Sweeping(s, p, c, m, k)
    requires DestOf(s.threads[p.t], p.side) == Some(Test(iter)) && DestEnabled(s, p, Test(iter))
    ensures Sweeping(DestStep(s, p, Test(iter)), p, c, m, k)
  {
    assert Linked(s.threads, iter, s.chain);
    if iter.Some? {
      assert s.chain[0] == c[k] == iter.value && iter.value in s.chain;
      if s.threads[iter.value].tid == 0 {
        assert RecordInv(s, iter.value) && ThreadInv(s.threads[iter.value]);
        GoneIfPushed(s.threads[iter.value]);
      }
    }
  }

  lemma FreeSweeps(s: State, p: Party, it: nat, next: Option<nat>, c: seq<nat>, m: nat, k: nat)
    requires Inv(s) && Sweeping(s, p, c, m, k)
    requires DestOf(s.threads[p.t], p.side) == Some(Free(it, next)) && DestEnabled(s, p, Free(it, next))
    ensures Sweeping(DestStep(s, p, Free(it, next)), p, c, m, k + 1)
  {
    hide ThreadInv, Linked, RecordInv;
    var s' := DestStep(s, p, Free(it, next));
    assert s.chain[0] == it && s.chain[1..] == c[k + 1..];
    assert DestOf(s'.threads[p.t], p.side) == Some(Test(next));
    forall i | 0 <= i < m || 0 <= i < k + 1 ensures Gone(s', c[i]) { assert Gone(s, c[i]); }
  }

  // ---- A step of anyone else

  lemma QuietSweeps(s: State, p: Party, t: nat, th': Thread, c: seq<nat>, m: nat)
    requires Swept(s, p, c, m) && t < |s.threads| && Quiet(s.threads[t], th')
    requires s.threads[t].run == Exited ==> th'.tid == s.threads[t].tid
    requires forall side :: Over(s.threads[t], side) ==> Over(th', side)
    ensures Swept(Update(s, t, th'), p, c, m)
  {
    if !Over(s.threads[p.t], p.side) {
      var k :| Sweeping(s, p, c, m, k);
      assert Sweeping(Update(s, t, th'), p, c, m, k);
    }
  }

  lemma PlainOver(th: Thread, p: Party)
    requires ThreadInv(th) && PlainEnabled(th, p.side)
    ensures th.run == Exited ==> PlainStep(th, p).tid == th.tid
    ensures forall side :: Over(th, side) ==> Over(PlainStep(th, p), side)
  {
  }

  // Another call of cthread_destroy, before it has the list or when p's is over.
  lemma OtherDest(s: State, p: Party, q: Party, d: Dest, c: seq<nat>, m: nat)
    requires Inv(s) && Swept(s, p, c, m) && q != p && DestEnabled(s, q, d)
    requires DestOf(s.threads[q.t], q.side) == Some(d)
    ensures Swept(DestStep(s, q, d), p, c, m)
  {
    if !Over(s.threads[p.t], p.side) {
      OnlyOwner(s, p);
      assert false;
    } else {
      assert Over(DestStep(s, q, d).threads[p.t], p.side);
    }
  }

  lemma StepSweeps(s: State, e: Event, p: Party, c: seq<nat>, m: nat)
    requires Inv(s) && Enabled(s, e) && Swept(s, p, c, m)
    ensures Swept(Step(s, e), p, c, m)
  {
    hide Swept, Inv, DestStep, ThreadInv;
    match e
    case Act(q) =>
      var th := s.threads[q.t];
      var d := DestOf(th, q.side);
      if d.Some? {
        if q == p { OwnDest(s, p, d.value, c, m); } else { OtherDest(s, p, q, d.value, c, m); }
      } else {
        ThreadOf(s, q.t);
        QuietPlain(th, q);
        PlainOver(th, q);
        QuietSweeps(s, p, q.t, PlainStep(th, q), c, m);
      }
    case Return(t, code) => QuietCall(s, p, t, s.threads[t].(run := LockSelf, code := code), c, m);
    case CallJoin(t) => QuietCall(s, p, t, s.threads[t].(own := JoinWait), c, m);
    case CallDetach(t) => QuietCall(s, p, t, s.threads[t].(own := DetLock), c, m);
  }

  lemma ThreadOf(s: State, t: nat)
    requires Inv(s) && t < |s.threads|
    ensures ThreadInv(s.threads[t])
  {
  }

  lemma OwnDest(s: State, p: Party, d: Dest, c: seq<nat>, m: nat)
    requires Inv(s) && Swept(s, p, c, m) && DestOf(s.threads[p.t], p.side) == Some(d) && DestEnabled(s, p, d)
    ensures Swept(DestStep(s, p, d), p, c, m)
  {
    hide Inv, Sweeping, DestStep;
    assert !Over(s.threads[p.t], p.side);
    var k :| Sweeping(s, p, c, m, k);
    DestSweeps(s, p, d, c, m, k);
  }

  lemma QuietCall(s: State, p: Party, t: nat, th': Thread, c: seq<nat>, m: nat)
    requires Swept(s, p, c, m) && t < |s.threads|
    requires var th := s.threads[t];
      || (th.run == Running && th' == th.(run := LockSelf, code := th'.code))
      || (th.own == Idle && (th' == th.(own := JoinWait) || th' == th.(own := DetLock)))
    ensures Swept(Update(s, t, th'), p, c, m)
  {
    hide Swept;
    var th := s.threads[t];
    assert forall side :: DestOf(th', side) == DestOf(th, side);
    QuietSweeps(s, p, t, th', c, m);
  }

  lemma {:induction false} RunSweeps(s: State, evs: seq<Event>, s': State, p: Party, c: seq<nat>, m: nat)
    requires Inv(s) && Swept(s, p, c, m) && Run(s, evs, s')
    ensures Inv(s') && Swept(s', p, c, m)
    decreases |evs|
  {
    hide Swept, Inv, Step, Enabled;
    if evs != [] {
      StepInv(s, evs[0]);
      StepSweeps(s, evs[0], p, c, m);
      RunSweeps(Step(s, evs[0]), evs[1..], s', p, c, m);
    }
  }

  // ---- A record that is about to be freed

  // Its thread is gone, and p is at it, unless it has been freed.
  ghost predicate Doomed(s: State, p: Party, it: nat) {
    && p.t < |s.threads| && Gone(s, it)
    && (s.threads[it].freed || AtRecord(DestOf(s.threads[p.t], p.side), it))
  }

  predicate AtRecord(d: Option<Dest>, it: nat) {
    d.Some? && (d.value == Test(Some(it)) || d.value == Next(it) || (d.value.Free? && d.value.it == it))
  }

  lemma DestDoomed(s: State, p: Party, q: Party, d: Dest, it: nat)
    requires Inv(s) && Doomed(s, p, it) && DestEnabled(s, q, d) && DestOf(s.threads[q.t], q.side) == Some(d)
    ensures Doomed(DestStep(s, q, d), p, it)
  {
    hide ThreadInv, Linked, RecordInv, Pointers;
    var s' := DestStep(s, q, d);
    assert s.threads[it].freed ==> s'.threads[it].freed;
    assert q != p ==> DestOf(s'.threads[p.t], p.side) == DestOf(s.threads[p.t], p.side);
  }

  lemma QuietDoomed(s: State, p: Party, t: nat, th': Thread, it: nat)
    requires Doomed(s, p, it) && t < |s.threads| && Quiet(s.threads[t], th')
    requires s.threads[t].run == Exited ==> th'.tid == s.threads[t].tid
    ensures Doomed(Update(s, t, th'), p, it)
  {
    var th := s.threads[t];
    assert t == p.t && InsideList(th, p.side) ==> DestOf(th', p.side) == DestOf(th, p.side);
  }

  lemma StepDoomed(s: State, e: Event, p: Party, it: nat)
    requires Inv(s) && Enabled(s, e) && Doomed(s, p, it)
    ensures Doomed(Step(s, e), p, it)
  {
    hide Doomed, Inv, DestStep, ThreadInv;
    match e
    case Act(q) =>
      var th := s.threads[q.t];
      var d := DestOf(th, q.side);
      if d.Some? {
        DestDoomed(s, p, q, d.value, it);
      } else {
        ThreadOf(s, q.t);
        QuietPlain(th, q);
        PlainOver(th, q);
        QuietDoomed(s, p, q.t, PlainStep(th, q), it);
      }
    case Return(t, code) => CallDoomed(s, p, t, s.threads[t].(run := LockSelf, code := code), it);
    case CallJoin(t) => CallDoomed(s, p, t, s.threads[t].(own := JoinWait), it);
    case CallDetach(t) => CallDoomed(s, p, t, s.threads[t].(own := DetLock), it);
  }

  lemma CallDoomed(s: State, p: Party, t: nat, th': Thread, it: nat)
    requires Doomed(s, p, it) && t < |s.threads|
    requires var th := s.threads[t];
      || (th.run == Running && th' == th.(run := LockSelf, code := th'.code))
      || (th.own == Idle && (th' == th.(own := JoinWait) || th' == th.(own := DetLock)))
    ensures Doomed(Update(s, t, th'), p, it)
  {
    hide Doomed;
    var th := s.threads[t];
    assert forall side :: DestOf(th', side) == DestOf(th, side);
    QuietDoomed(s, p, t, th', it);
  }

  lemma {:induction false} RunDoomed(s: State, evs: seq<Event>, s': State, p: Party, it: nat)
    requires Inv(s) && Doomed(s, p, it) && Run(s, evs, s')
    ensures Doomed(s', p, it)
    decreases |evs|
  {
    hide Doomed, Inv, Step, Enabled;
    if evs != [] {
      StepInv(s, evs[0]);
      StepDoomed(s, evs[0], p, it);
      RunDoomed(Step(s, evs[0]), evs[1..], s', p, it);
    }
  }

  // ---- Main results

  /** A record the loop finds gone is freed before the call goes on: in every run from there, the record is
      freed, or the call is still at its test, its read of the next field or its free. */
  lemma TestedGoneIsFreed(s0: State, before: seq<Event>, s1: State, evs: seq<Event>, s2: State, p: Party, it: nat)
    requires Init(s0) && Run(s0, before, s1) && At(s1, p, Test(Some(it)))
    requires it < |s1.threads| && s1.threads[it].tid == 0
    requires Run(s1, evs, s2)
    ensures it < |s2.threads| && p.t < |s2.threads|
    ensures s2.threads[it].freed || AtRecord(DestOf(s2.threads[p.t], p.side), it)
  {
    ReachableInv(s0, before, s1);
    OnlyOwner(s1, p);
    assert it in s1.chain;
    ListedGone(s1, it);
    RunDoomed(s1, evs, s2, p, it);
  }

  // The party is about to read the head of the list, or about to release the list.
  predicate At(s: State, p: Party, d: Dest) {
    p.t < |s.threads| && DestOf(s.threads[p.t], p.side) == Some(d)
  }

  // One call of cthread_destroy, from where it reads the head of the list to where it releases it, in any
  // run: s1 is the state at the one point, s2 the state at the other.
  ghost predicate Call(s0: State, before: seq<Event>, s1: State, evs: seq<Event>, s2: State, p: Party) {
    Init(s0) && Run(s0, before, s1) && At(s1, p, Head) && Run(s1, evs, s2) && At(s2, p, UnlockList)
  }

  /** The call frees the first k records of the list and leaves its own before the rest, where every record in
      front whose thread was gone when the call began is among the k, and of the k every thread is gone when
      it ends. The records it leaves are not freed. */
  lemma DestroyFrees(s0: State, before: seq<Event>, s1: State, evs: seq<Event>, s2: State, p: Party) returns (k: nat)
    requires Call(s0, before, s1, evs, s2, p)
    ensures GonePrefix(s1, s1.chain) <= k <= GonePrefix(s2, s1.chain)
    ensures s2.chain == [p.t] + s1.chain[k..] && Linked(s2.threads, s2.head, s2.chain)
    ensures forall i :: 0 <= i < |s1.chain| ==>
              s1.chain[i] < |s2.threads| && (s2.threads[s1.chain[i]].freed <==> i < k)
  {
    ReachableInv(s0, before, s1);
    var c, m := s1.chain, GonePrefix(s1, s1.chain);
    OnlyOwner(s1, p);
    GonePrefixBounds(s1, c, m);
    assert Sweeping(s1, p, c, m, 0);
    RunSweeps(s1, evs, s2, p, c, m);
    k := EndOfCall(s2, p, c, m);
    GonePrefixBounds(s2, c, k);
  }

  lemma EndOfCall(s: State, p: Party, c: seq<nat>, m: nat) returns (k: nat)
    requires Inv(s) && Swept(s, p, c, m) && At(s, p, UnlockList)
    ensures m <= k <= |c| && s.chain == [p.t] + c[k..] && Linked(s.threads, s.head, s.chain)
    ensures forall i :: 0 <= i < k ==> Gone(s, c[i])
    ensures forall i :: 0 <= i < |c| ==> c[i] < |s.threads| && (s.threads[c[i]].freed <==> i < k)
  {
    hide Inv, Gone, Linked;
    assert !Over(s.threads[p.t], p.side);
    k :| Sweeping(s, p, c, m, k);
    ListLinked(s, p);
    forall i | 0 <= i < |c| ensures c[i] < |s.threads| && (s.threads[c[i]].freed <==> i < k) {
      if i < k {
        IsRecord(s, c[i]);
      } else {
        assert s.chain[1 + i - k] == c[i];
        ListedNotFreed(s, c[i]);
      }
    }
  }

  lemma ListLinked(s: State, p: Party)
    requires Inv(s) && At(s, p, UnlockList) && s.listLock == Some(p)
    ensures Linked(s.threads, s.head, s.chain)
    ensures forall t :: t in s.chain ==> t < |s.threads|
  {
    hide ThreadInv, RecordInv;
  }

  lemma IsRecord(s: State, t: nat)
    requires Gone(s, t)
    ensures t < |s.threads|
  {
  }

  lemma ListedNotFreed(s: State, t: nat)
    requires Inv(s) && t in s.chain && t < |s.threads|
    ensures !s.threads[t].freed
  {
    hide ThreadInv, Pointers;
    assert RecordInv(s, t);
  }

  /** So if every listed thread is gone when the call begins, all of them are freed and only the caller's
      own record is left. */
  lemma AllGoneAllFreed(s0: State, before: seq<Event>, s1: State, evs: seq<Event>, s2: State, p: Party)
    requires Call(s0, before, s1, evs, s2, p)
    requires forall t :: t in s1.chain ==> t < |s1.threads| && s1.threads[t].tid == 0
    ensures s2.chain == [p.t] && s2.head == Some(p.t) && s2.threads[p.t].next == None
    ensures forall t :: t in s1.chain ==> t < |s2.threads| && s2.threads[t].freed
  {
    ReachableInv(s0, before, s1);
    forall i | 0 <= i < |s1.chain| ensures Gone(s1, s1.chain[i]) { ListedGone(s1, s1.chain[i]); }
    GonePrefixBounds(s1, s1.chain, |s1.chain|);
    var k := DestroyFrees(s0, before, s1, evs, s2, p);
    assert s2.chain == [p.t];
  }

  lemma ListedGone(s: State, t: nat)
    requires Inv(s) && t in s.chain && t < |s.threads| && s.threads[t].tid == 0
    ensures Gone(s, t)
  {
    assert RecordInv(s, t) && ThreadInv(s.threads[t]);
    GoneIfPushed(s.threads[t]);
  }
}
