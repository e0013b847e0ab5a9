/**
 The condition variable of lecture_examples/6_threads/14_condvar.c: one mutex, one flag and one
 atomic counter, with one signalling thread (the one that called condvar_create and so owns the
 mutex between signals) and any number of waiting threads.
 */
module Condvar {
  import opened Sums

  datatype Owner = Nobody | Signaller | Waiter(i: nat)

  // Idle: between signals. Seen(n): n is the local wait_count of condvar_signal. Raised: the flag is
  // set, the mutex is still owned. Spin: the mutex is released. Relock: the flag was seen down.
  // Relocked: about to write the flag down and return.
  datatype SignalPc = Idle | Seen(n: int) | Raised | Spin | Relock | Relocked

  // Outside: not in condvar_wait. Loop: about to lock. Locked: about to test the flag.
  // Took: flag cleared, count not yet decremented. Leaving: about to unlock and return.
  // Missed: flag was down, about to unlock and retry.
  datatype WaitPc = Outside | Loop | Locked | Took | Leaving | Missed

  datatype State = State(owner: Owner, flag: bool, waitCount: int, sig: SignalPc, waiters: seq<WaitPc>)

  datatype Event = Signal | Wait(i: nat)

  predicate Enabled(s: State, e: Event) {
    match e
    case Signal => s.sig == Relock ==> s.owner == Nobody
    case Wait(i) => i < |s.waiters| && (s.waiters[i] == Loop ==> s.owner == Nobody)
  }

  function Step(s: State, e: Event): State
    requires Enabled(s, e)
  {
    match e
    case Signal => SignalStep(s)
    case Wait(i) => WaitStep(s, i)
  }

  function SignalStep(s: State): State {
    match s.sig
    case Idle => s.(sig := Seen(s.waitCount))
    case Seen(n) => if n == 0 then s.(sig := Idle) else s.(sig := Raised, flag := true)
    case Raised => s.(sig := Spin, owner := Nobody)
    case Spin => if s.flag then s else s.(sig := Relock)
    case Relock => s.(sig := Relocked, owner := Signaller)
    case Relocked => s.(sig := Idle, flag := false)
  }

  function WaitStep(s: State, i: nat): State
    requires i < |s.waiters|
  {
    match s.waiters[i]
    case Outside => s.(waiters := s.waiters[i := Loop], waitCount := s.waitCount + 1)
    case Loop => s.(waiters := s.waiters[i := Locked], owner := Waiter(i))
    case Locked => if s.flag then s.(waiters := s.waiters[i := Took], flag := false)
                   else s.(waiters := s.waiters[i := Missed])
    case Took => s.(waiters := s.waiters[i := Leaving], waitCount := s.waitCount - 1)
    case Leaving => s.(waiters := s.waiters[i := Outside], owner := Nobody)
    case Missed => s.(waiters := s.waiters[i := Loop], owner := Nobody)
  }

  ghost predicate Run(s: State, evs: seq<Event>, s': State)
    decreases |evs|
  {
    if evs == [] then s == s' else Enabled(s, evs[0]) && Run(Step(s, evs[0]), evs[1..], s')
  }

  // condvar_create, then n threads that have not called condvar_wait yet.
  function Initial(n: nat): State {
    State(Signaller, false, 0, Idle, seq(n, _ => Outside))
  }

  // ---- The invariant

  // Threads that entered the loop and have not consumed a signal.
  function InLoop(w: WaitPc): int {
    if w in {Loop, Locked, Missed} then 1 else 0
  }

  function Counted(w: WaitPc): int {
    if w in {Loop, Locked, Missed, Took} then 1 else 0
  }

  predicate OwnsAsWaiter(s: State, i: nat) {
    i < |s.waiters| && s.waiters[i] in {Locked, Took, Leaving, Missed}
  }

  ghost predicate Inv(s: State) {
    && (s.owner == Signaller <==> s.sig in {Idle, Raised, Relocked} || s.sig.Seen?)
    && (forall i: nat :: OwnsAsWaiter(s, i) <==> s.owner == Waiter(i))
    && s.waitCount == Sum(Counted, s.waiters)
    && (s.sig.Seen? ==> 0 <= s.sig.n <= s.waitCount)
    && (s.flag ==> s.sig in {Raised, Spin} && Sum(InLoop, s.waiters) > 0)
    && (s.sig == Raised ==> s.flag)
  }

  lemma {:induction false} CountedIsInLoop(s: seq<WaitPc>)
    requires forall i :: 0 <= i < |s| ==> s[i] != Took
    ensures Sum(Counted, s) == Sum(InLoop, s)
  {
    if s != [] {
      forall i | 0 <= i < |s[1..]| ensures s[1..][i] != Took { assert s[1..][i] == s[i + 1]; }
      CountedIsInLoop(s[1..]);
    }
  }

  lemma {:induction false} InLoopAtMostCounted(s: seq<WaitPc>)
    ensures 0 <= Sum(InLoop, s) <= Sum(Counted, s)
  {
    if s != [] { InLoopAtMostCounted(s[1..]); }
  }

  // While the signaller owns the mutex no waiter is inside the critical section.
  lemma OwnedBySignaller(s: State)
    requires Inv(s) && s.owner == Signaller
    ensures s.waitCount == Sum(InLoop, s.waiters)
  {
    forall i | 0 <= i < |s.waiters| ensures s.waiters[i] != Took { assert !OwnsAsWaiter(s, i); }
    CountedIsInLoop(s.waiters);
  }

  lemma InitInv(n: nat)
    ensures Inv(Initial(n))
  {
    SumBounds(Counted, Initial(n).waiters, 0, 0);
  }

  lemma SignalInv(s: State)
    requires Inv(s) && Enabled(s, Signal)
    ensures Inv(Step(s, Signal))
  {
    hide Sum;
    var s' := Step(s, Signal);
    InLoopAtMostCounted(s.waiters);
    if s.sig.Seen? { OwnedBySignaller(s); }
    assert forall i: nat :: OwnsAsWaiter(s', i) <==> OwnsAsWaiter(s, i);
  }

  lemma WaitInv(s: State, i: nat)
    requires Inv(s) && Enabled(s, Wait(i))
    ensures Inv(Step(s, Wait(i)))
  {
    hide Sum;
    var s' := Step(s, Wait(i));
    SumUpdate(Counted, s.waiters, i, s'.waiters[i]);
    SumUpdate(InLoop, s.waiters, i, s'.waiters[i]);
    assert forall j: nat :: j != i ==> (OwnsAsWaiter(s', j) <==> OwnsAsWaiter(s, j));
    assert OwnsAsWaiter(s, i) <==> s.owner == Waiter(i);
  }

  lemma StepInv(s: State, e: Event)
    requires Inv(s) && Enabled(s, e)
    ensures Inv(Step(s, e))
  {
    hide Inv, Step;
    match e
    case Signal => SignalInv(s);
    case Wait(i) => WaitInv(s, i);
  }

  lemma {:induction false} RunInv(s: State, evs: seq<Event>, s': State)
    requires Inv(s) && Run(s, evs, s')
    ensures Inv(s')
    decreases |evs|
  {
    if evs != [] {
      StepInv(s, evs[0]);
      RunInv(Step(s, evs[0]), evs[1..], s');
    }
  }

  lemma ReachableInv(n: nat, evs: seq<Event>, s: State)
    requires Run(Initial(n), evs, s)
    ensures Inv(s)
  {
    InitInv(n);
    RunInv(Initial(n), evs, s);
  }

  // ---- Signals and waits, counted by what happens in a run

  predicate Raises(s: State, e: Event)
    requires Enabled(s, e)
  {
    !s.flag && Step(s, e).flag
  }

  // A call of condvar_wait returns.
  predicate Returns(s: State, e: Event)
    requires Enabled(s, e)
  {
    e.Wait? && s.waiters[e.i] != Outside && Step(s, e).waiters[e.i] == Outside
  }

  ghost function Signals(s: State, evs: seq<Event>): nat
    decreases |evs|
  {
    if evs == [] || !Enabled(s, evs[0]) then 0
    else (if Raises(s, evs[0]) then 1 else 0) + Signals(Step(s, evs[0]), evs[1..])
  }

  ghost function Waits(s: State, evs: seq<Event>): nat
    decreases |evs|
  {
    if evs == [] || !Enabled(s, evs[0]) then 0
    else (if Returns(s, evs[0]) then 1 else 0) + Waits(Step(s, evs[0]), evs[1..])
  }

  // Released, but not returned yet.
  function Released(w: WaitPc): int {
    if w in {Took, Leaving} then 1 else 0
  }

  // Signals under way: the raised flag, and the waits that took one.
  function UnderWay(s: State): int {
    Sum(Released, s.waiters) + if s.flag then 1 else 0
  }

  lemma StepBalance(s: State, e: Event)
    requires Inv(s) && Enabled(s, e)
    ensures UnderWay(Step(s, e)) + (if Returns(s, e) then 1 else 0) == UnderWay(s) + if Raises(s, e) then 1 else 0
  {
    hide Sum;
    if e.Wait? { SumUpdate(Released, s.waiters, e.i, Step(s, e).waiters[e.i]); }
  }

  lemma {:induction false} RunBalance(s: State, evs: seq<Event>, s': State)
    requires Inv(s) && Run(s, evs, s')
    ensures UnderWay(s') + Waits(s, evs) == UnderWay(s) + Signals(s, evs)
    decreases |evs|
  {
    hide Inv, UnderWay, Step, Enabled, Returns, Raises;
    if evs != [] {
      StepInv(s, evs[0]);
      StepBalance(s, evs[0]);
      RunBalance(Step(s, evs[0]), evs[1..], s');
    }
  }

  // While the signaller owns the mutex nobody is between taking the flag and returning.
  lemma NoneReleased(s: State)
    requires Inv(s) && s.owner == Signaller
    ensures UnderWay(s) == if s.flag then 1 else 0
  {
    forall i | 0 <= i < |s.waiters| ensures Released(s.waiters[i]) == 0 { assert !OwnsAsWaiter(s, i); }
    SumBounds(Released, s.waiters, 0, 0);
  }

  // ---- Main results

  /** Signals and waits balance: at every moment the waits that have returned are the signals given, less the
      one whose flag is up and the ones that a wait has taken and not returned with; between signals there
      are none of these. */
  lemma SignalsBalance(n: nat, evs: seq<Event>, s: State)
    requires Run(Initial(n), evs, s)
    ensures Waits(Initial(n), evs) == Signals(Initial(n), evs) - (if s.flag then 1 else 0) - Sum(Released, s.waiters)
    ensures s.sig == Idle ==> !s.flag && Waits(Initial(n), evs) == Signals(Initial(n), evs)
  {
    hide Run, Sum;
    InitInv(n);
    ReachableInv(n, evs, s);
    RunBalance(Initial(n), evs, s);
    NoneReleased(Initial(n));
    if s.sig == Idle { NoneReleased(s); }
  }

  /** A raised flag always has a taker: some waiter is in the loop, outside the miss branch. */
  lemma RaisedFlagHasTaker(n: nat, evs: seq<Event>, s: State) returns (i: nat)
    requires Run(Initial(n), evs, s) && s.flag
    ensures i < |s.waiters| && s.waiters[i] in {Loop, Locked, Missed}
  {
    ReachableInv(n, evs, s);
    i := SumPositive(InLoop, s.waiters);
  }

  /** The counter the signaller reads under the mutex is exactly the number of threads that entered
      the loop and have not consumed; so a signal is skipped only when nobody waits. */
  lemma CountIsExactUnderMutex(n: nat, evs: seq<Event>, s: State)
    requires Run(Initial(n), evs, s) && s.owner == Signaller
    ensures s.waitCount == Sum(InLoop, s.waiters)
    ensures s.sig == Idle && s.waitCount == 0 ==> forall i :: 0 <= i < |s.waiters| ==> s.waiters[i] == Outside
  {
    ReachableInv(n, evs, s);
    OwnedBySignaller(s);
    forall i | 0 <= i < |s.waiters| && s.sig == Idle && s.waitCount == 0 ensures s.waiters[i] == Outside {
      SumMember(InLoop, s.waiters, i);
      assert !OwnsAsWaiter(s, i);
    }
  }

  /** The signaller's last write of the flag never erases a signal. */
  lemma LastWriteErasesNothing(n: nat, evs: seq<Event>, s: State)
    requires Run(Initial(n), evs, s) && s.sig == Relocked
    ensures Step(s, Signal) == s.(sig := Idle)
  {
    ReachableInv(n, evs, s);
  }

  /** One whole call of condvar_signal, in any interleaving: if some thread has called condvar_wait and is
      still in its loop then exactly one call of condvar_wait returns meanwhile, and otherwise none does. */
  lemma OneSignalReleasesOneWait(n: nat, before: seq<Event>, s: State, during: seq<Event>, s': State)
    requires Run(Initial(n), before, s) && s.sig == Idle
    requires Run(Step(s, Signal), during, s') && s'.sig == Idle && StaysBusy(Step(s, Signal), during)
    ensures Waits(Step(s, Signal), during) == if exists i :: 0 <= i < |s.waiters| && s.waiters[i] == Loop then 1 else 0
  {
    hide Run, StaysBusy, Waits, Signals, Inv;
    ReachableInv(n, before, s);
    StepInv(s, Signal);
    SomebodyWaits(s);
    var m := Step(s, Signal);
    RunInv(m, during, s');
    SignalsOnce(m, during, s');
    RunBalance(m, during, s');
    BetweenSignals(m);
    BetweenSignals(s');
  }

  // Between signals the count is 0 only if no thread is in the loop.
  lemma SomebodyWaits(s: State)
    requires Inv(s) && s.sig == Idle
    ensures s.waitCount != 0 <==> exists i :: 0 <= i < |s.waiters| && s.waiters[i] == Loop
  {
    OwnedBySignaller(s);
    if s.waitCount != 0 {
      InLoopAtMostCounted(s.waiters);
      var i := SumPositive(InLoop, s.waiters);
      assert !OwnsAsWaiter(s, i);
    }
    if i :| 0 <= i < |s.waiters| && s.waiters[i] == Loop {
      SumMember(InLoop, s.waiters, i);
    }
  }

  lemma BetweenSignals(s: State)
    requires Inv(s) && (s.sig == Idle || s.sig.Seen?)
    ensures UnderWay(s) == 0
  {
    NoneReleased(s);
  }

  // The signaller returns from condvar_signal only with the last event.
  ghost predicate StaysBusy(s: State, evs: seq<Event>)
    decreases |evs|
  {
    evs != [] ==> s.sig != Idle && Enabled(s, evs[0]) && StaysBusy(Step(s, evs[0]), evs[1..])
  }

  lemma {:induction false} SignalsOnce(s: State, evs: seq<Event>, s': State)
    requires Inv(s) && Run(s, evs, s') && StaysBusy(s, evs) && s'.sig == Idle
    ensures Signals(s, evs) == if s.sig.Seen? && s.sig.n != 0 then 1 else 0
    decreases |evs|
  {
    hide Inv, Step;
    if evs != [] {
      StepInv(s, evs[0]);
      SignalsStep(s, evs[0]);
      SignalsOnce(Step(s, evs[0]), evs[1..], s');
    }
  }

  // Only the step of a signaller that has seen a waiter raises the flag.
  lemma SignalsStep(s: State, e: Event)
    requires Inv(s) && Enabled(s, e) && s.sig != Idle
    ensures Raises(s, e) <==> s.sig.Seen? && s.sig.n != 0 && !Step(s, e).sig.Seen?
    ensures Step(s, e).sig.Seen? ==> s.sig == Step(s, e).sig
  {
  }

  /** While a signal is pending something other than spinning can always happen: the mutex is free and
      a waiter can take it, or its owner can step. */
  lemma PendingSignalProgresses(n: nat, evs: seq<Event>, s: State) returns (e: Event)
    requires Run(Initial(n), evs, s) && s.flag
    ensures Enabled(s, e) && Step(s, e) != s
  {
    ReachableInv(n, evs, s);
    if s.owner == Nobody {
      var i := SumPositive(InLoop, s.waiters);
      assert !OwnsAsWaiter(s, i);
      e := Wait(i);
    } else if s.owner == Signaller {
      e := Signal;
    } else {
      assert OwnsAsWaiter(s, s.owner.i);
      e := Wait(s.owner.i);
    }
  }

  // ---- How soon a signal is taken

  // Nobody is past the test of the flag while the flag is up.
  ghost predicate Untested(s: State) {
    s.flag ==> forall i :: 0 <= i < |s.waiters| ==> s.waiters[i] in {Outside, Loop, Locked}
  }

  lemma UntestedStep(s: State, e: Event)
    requires Inv(s) && Untested(s) && Enabled(s, e)
    ensures Untested(Step(s, e)) && |Step(s, e).waiters| == |s.waiters|
  {
    if e == Signal && s.sig.Seen? {
      forall i | 0 <= i < |s.waiters| ensures s.waiters[i] in {Outside, Loop, Locked} {
        assert !OwnsAsWaiter(s, i);
        assert s.waiters[i].Outside? || s.waiters[i].Loop?;
      }
    }
  }

  lemma {:induction false} UntestedRun(s: State, evs: seq<Event>, s': State)
    requires Inv(s) && Untested(s) && Run(s, evs, s')
    ensures Untested(s') && |s'.waiters| == |s.waiters|
    decreases |evs|
  {
    hide Inv, Untested, Step, Enabled;
    if evs != [] {
      StepInv(s, evs[0]);
      UntestedStep(s, evs[0]);
      UntestedRun(Step(s, evs[0]), evs[1..], s');
    }
  }

  function NotCalled(w: WaitPc): int { if w == Outside then 1 else 0 }

  // Steps that are left until the flag is taken: the threads that may still call condvar_wait; the
  // signaller's unlock, a waiter's lock, and its test.
  function Delay(s: State): int {
    Sum(NotCalled, s.waiters) + if s.owner == Signaller then 3 else if s.owner == Nobody then 2 else 1
  }

  lemma DelayDecreases(s: State, e: Event)
    requires Inv(s) && Untested(s) && s.flag && Enabled(s, e) && Step(s, e) != s
    ensures !Step(s, e).flag || Delay(Step(s, e)) == Delay(s) - 1
  {
    hide Sum;
    if e.Wait? {
      var s' := Step(s, e);
      SumUpdate(NotCalled, s.waiters, e.i, s'.waiters[e.i]);
    }
  }

  lemma DelayBounds(s: State)
    requires s.flag ==> Sum(InLoop, s.waiters) > 0
    ensures 1 <= Delay(s) && (s.flag ==> Delay(s) <= |s.waiters| + 2)
  {
    SumBoundsBelow(NotCalled, s.waiters);
    InOrOut(s.waiters);
  }

  lemma {:induction false} InOrOut(ws: seq<WaitPc>)
    ensures Sum(NotCalled, ws) + Sum(InLoop, ws) <= |ws|
  {
    if ws != [] { InOrOut(ws[1..]); }
  }

  // Every event finds the flag up and is not mere spinning.
  ghost predicate Pending(s: State, evs: seq<Event>)
    decreases |evs|
  {
    evs != [] ==> s.flag && Enabled(s, evs[0]) && Step(s, evs[0]) != s && Pending(Step(s, evs[0]), evs[1..])
  }

  lemma {:induction false} PendingBound(s: State, evs: seq<Event>)
    requires Inv(s) && Untested(s) && Pending(s, evs)
    ensures |evs| <= Delay(s)
    decreases |evs|
  {
    hide Inv, Untested, Step, Enabled, Delay;
    FlagHasTaker(s);
    DelayBounds(s);
    if evs != [] {
      StepInv(s, evs[0]);
      UntestedStep(s, evs[0]);
      DelayDecreases(s, evs[0]);
      PendingBound(Step(s, evs[0]), evs[1..]);
    }
  }

  lemma FlagHasTaker(s: State)
    requires Inv(s)
    ensures s.flag ==> Sum(InLoop, s.waiters) > 0
  {
  }

  /** Spinning aside, a raised flag is taken within n + 2 steps, whoever makes them; with
      PendingSignalProgresses, no such run stops before. */
  lemma SignalIsTakenSoon(n: nat, before: seq<Event>, s: State, during: seq<Event>)
    requires Run(Initial(n), before, s) && s.flag && Pending(s, during)
    ensures |during| <= n + 2
  {
    InitInv(n);
    RunInv(Initial(n), before, s);
    UntestedRun(Initial(n), before, s);
    PendingBound(s, during);
    DelayBounds(s);
  }
}
