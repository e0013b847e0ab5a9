/**
 The futex lock of lecture_examples/6_threads/8_futex.c, run by any number of threads that each
 perform the same number of rounds of lock; counter = counter + 1; unlock.

 The atomic steps are the compare-and-swaps, the load and the store of the counter, and the two
 system calls. FUTEX_WAIT compares and falls asleep atomically; FUTEX_WAKE wakes one sleeper of the
 kernel's choice, if there is one. A sleeper may also return without a wake (a signal).
 */
module Futex {
  import opened Sums

  datatype Pc = TryLock | WaitCall | Asleep | Load | Store(tmp: int) | Unlock | WakeCall | Done

  // left: rounds still to complete, the current one included.
  datatype Thread = Thread(pc: Pc, left: nat)

  datatype State = State(word: int, counter: int, threads: seq<Thread>)

  // Act(t): thread t takes its next step. Wake(t, who): thread t's FUTEX_WAKE picks sleeper who.
  // Interrupt(t): sleeper t returns from FUTEX_WAIT although nobody woke it.
  datatype Event = Act(t: nat) | Wake(t: nat, who: nat) | Interrupt(t: nat)

  predicate IsAsleep(s: State, t: nat) {
    t < |s.threads| && s.threads[t].pc == Asleep
  }

  predicate AtWake(s: State, t: nat) {
    t < |s.threads| && s.threads[t].pc == WakeCall
  }

  ghost predicate Enabled(s: State, e: Event) {
    match e
    case Act(t) =>
      && t < |s.threads| && s.threads[t].pc !in {Asleep, Done}
      && (s.threads[t].pc == WakeCall ==> forall u :: !IsAsleep(s, u))
    case Wake(t, who) => AtWake(s, t) && IsAsleep(s, who)
    case Interrupt(t) => IsAsleep(s, t)
  }

  // The end of a round: the for loop either starts another one or leaves.
  function NextRound(th: Thread): Thread {
    if th.left <= 1 then Thread(Done, 0) else Thread(TryLock, th.left - 1)
  }

  function Go(s: State, t: nat, pc: Pc): State
    requires t < |s.threads|
  {
    s.(threads := s.threads[t := s.threads[t].(pc := pc)])
  }

  function Act1(s: State, t: nat): State
    requires t < |s.threads|
  {
    match s.threads[t].pc
    case TryLock => if s.word == 0 then Go(s, t, Load).(word := 1) else Go(s, t, WaitCall)
    case WaitCall => if s.word == 1 then Go(s, t, Asleep) else Go(s, t, TryLock)
    case Load => Go(s, t, Store(s.counter))
    case Store(tmp) => Go(s, t, Unlock).(counter := tmp + 1)
    case Unlock => Go(s, t, WakeCall).(word := if s.word == 1 then 0 else s.word)
    case WakeCall => s.(threads := s.threads[t := NextRound(s.threads[t])])
    case Asleep => s
    case Done => s
  }

  ghost function Step(s: State, e: Event): State
    requires Enabled(s, e)
  {
    match e
    case Act(t) => Act1(s, t)
    case Wake(t, who) => Act1(Go(s, who, TryLock), t)
    case Interrupt(t) => Go(s, t, TryLock)
  }

  ghost predicate Run(s: State, evs: seq<Event>, s': State)
    decreases |evs|
  {
    if evs == [] then s == s' else Enabled(s, evs[0]) && Run(Step(s, evs[0]), evs[1..], s')
  }

  function Initial(n: nat, k: nat): State {
    State(0, 0, seq(n, _ => if k == 0 then Thread(Done, 0) else Thread(TryLock, k)))
  }

  // ---- The invariant

  predicate Holds(s: State, t: nat) {
    t < |s.threads| && (s.threads[t].pc in {Load, Unlock} || s.threads[t].pc.Store?)
  }

  // A thread that is about to retry, about to call FUTEX_WAIT or about to call FUTEX_WAKE.
  predicate Stirring(s: State, t: nat) {
    t < |s.threads| && s.threads[t].pc in {TryLock, WaitCall, WakeCall}
  }

  // Increments a thread still owes the counter.
  function Owed(th: Thread): int {
    if th.pc in {Unlock, WakeCall} then th.left - 1 else th.left
  }

  ghost predicate NoLostWakeUp(s: State) {
    s.word == 0 && (exists t :: IsAsleep(s, t)) ==> exists t :: Stirring(s, t)
  }

  ghost predicate Inv(s: State, total: int) {
    && s.word in {0, 1}
    && (forall t, u :: Holds(s, t) && Holds(s, u) ==> t == u)
    && (s.word == 1 <==> exists t :: Holds(s, t))
    && (forall t :: 0 <= t < |s.threads| && s.threads[t].pc.Store? ==> s.threads[t].pc.tmp == s.counter)
    && (forall t :: 0 <= t < |s.threads| ==> (s.threads[t].pc == Done <==> s.threads[t].left == 0))
    && s.counter + Sum(Owed, s.threads) == total
    && NoLostWakeUp(s)
  }

  lemma InitInv(n: nat, k: nat)
    ensures Inv(Initial(n, k), n * k)
  {
    var s := Initial(n, k);
    SumBounds(Owed, s.threads, k, k);
    assert forall t :: !IsAsleep(s, t) && !Holds(s, t);
  }

  lemma ActInv(s: State, t: nat, total: int)
    requires Inv(s, total) && Enabled(s, Act(t))
    ensures Inv(Act1(s, t), total)
  {
    hide Sum;
    var s' := Act1(s, t);
    assert t < |s.threads| && s'.threads == s.threads[t := s'.threads[t]];
    SumUpdate(Owed, s.threads, t, s'.threads[t]);
    assert forall u :: u != t ==> (Holds(s', u) <==> Holds(s, u)) && (IsAsleep(s', u) <==> IsAsleep(s, u))
                                  && (Stirring(s, u) ==> Stirring(s', u));
    match s.threads[t].pc
    case TryLock => assert Holds(s', t) || Stirring(s', t);
    case WaitCall => assert s.word == 1 || Stirring(s', t);
    case Load => assert Holds(s, t) && Holds(s', t);
    case Store(_) =>
      assert Holds(s, t) && Holds(s', t);
      assert forall u :: 0 <= u < |s'.threads| && s'.threads[u].pc.Store? ==> Holds(s, u);
    case Unlock => assert Holds(s, t) && Stirring(s', t);
    case WakeCall =>
    case Asleep =>
    case Done =>
  }

  lemma RiseInv(s: State, who: nat, total: int)
    requires Inv(s, total) && IsAsleep(s, who)
    ensures Inv(Go(s, who, TryLock), total)
  {
    var s' := Go(s, who, TryLock);
    SumUpdate(Owed, s.threads, who, s'.threads[who]);
    assert forall u :: u != who ==> (Holds(s', u) <==> Holds(s, u));
    assert Stirring(s', who) && !Holds(s, who) && !Holds(s', who);
  }

  lemma StepInv(s: State, e: Event, total: int)
    requires Inv(s, total) && Enabled(s, e)
    ensures Inv(Step(s, e), total)
  {
    match e
    case Act(t) => ActInv(s, t, total);
    case Interrupt(t) => RiseInv(s, t, total);
    case Wake(t, who) =>
      RiseInv(s, who, total);
      WakeInv(Go(s, who, TryLock), t, who, total);
  }

  // FUTEX_WAKE that woke somebody: the woken thread is the one that stirs now.
  lemma WakeInv(s: State, t: nat, who: nat, total: int)
    requires Inv(s, total) && AtWake(s, t) && t != who && who < |s.threads| && s.threads[who].pc == TryLock
    ensures Inv(Act1(s, t), total)
  {
    var s' := Act1(s, t);
    SumUpdate(Owed, s.threads, t, s'.threads[t]);
    assert forall u :: u != t ==> (Holds(s', u) <==> Holds(s, u));
    assert Stirring(s', who) && !Holds(s, t) && !Holds(s', t);
  }

  lemma {:induction false} RunInv(s: State, evs: seq<Event>, s': State, total: int)
    requires Inv(s, total) && Run(s, evs, s')
    ensures Inv(s', total)
    decreases |evs|
  {
    if evs != [] {
      StepInv(s, evs[0], total);
      RunInv(Step(s, evs[0]), evs[1..], s', total);
    }
  }

  // ---- Main results

  /** Mutual exclusion: never two threads between a successful lock and the matching unlock. */
  lemma MutualExclusion(n: nat, k: nat, evs: seq<Event>, s: State, t: nat, u: nat)
    requires Run(Initial(n, k), evs, s) && Holds(s, t) && Holds(s, u)
    ensures t == u && s.word == 1
  {
    InitInv(n, k);
    RunInv(Initial(n, k), evs, s, n * k);
  }

  /** No wake-up is lost: with the word free and a thread asleep, some awake thread is about to
      retry, to wait, or to wake. */
  lemma SleepersAreRemembered(n: nat, k: nat, evs: seq<Event>, s: State, t: nat) returns (u: nat)
    requires Run(Initial(n, k), evs, s) && IsAsleep(s, t) && s.word == 0
    ensures Stirring(s, u)
  {
    InitInv(n, k);
    RunInv(Initial(n, k), evs, s, n * k);
    u :| Stirring(s, u);
  }

  ghost predicate AllDone(s: State) {
    forall t :: 0 <= t < |s.threads| ==> s.threads[t].pc == Done
  }

  lemma CanStep(s: State, total: int) returns (e: Event)
    requires Inv(s, total) && !AllDone(s)
    ensures Enabled(s, e) && !e.Interrupt?
  {
    var t: nat :| t < |s.threads| && s.threads[t].pc != Done;
    if s.threads[t].pc == Asleep {
      assert IsAsleep(s, t);
      if s.word == 1 {
        t :| Holds(s, t);
      } else {
        t :| Stirring(s, t);
      }
    }
    if s.threads[t].pc == WakeCall && exists u :: IsAsleep(s, u) {
      var u :| IsAsleep(s, u);
      e := Wake(t, u);
    } else {
      e := Act(t);
    }
  }

  /** Never stuck: while some round is unfinished some thread can step by itself, without relying
      on an interrupted sleep. */
  lemma NeverStuck(n: nat, k: nat, evs: seq<Event>, s: State) returns (e: Event)
    requires Run(Initial(n, k), evs, s) && !AllDone(s)
    ensures Enabled(s, e) && !e.Interrupt?
  {
    InitInv(n, k);
    RunInv(Initial(n, k), evs, s, n * k);
    e := CanStep(s, n * k);
  }

  /** The unprotected read and write of the counter lose nothing: it ends at n * k. */
  lemma CounterTotal(n: nat, k: nat, evs: seq<Event>, s: State)
    requires Run(Initial(n, k), evs, s) && AllDone(s)
    ensures s.counter == n * k
  {
    InitInv(n, k);
    RunInv(Initial(n, k), evs, s, n * k);
    SumBounds(Owed, s.threads, 0, 0);
  }

  // ---- Termination under every schedule

  // Progress still to be made by a thread through its rounds.
  function Rounds(th: Thread): int {
    if th.left == 0 then 0
    else 5 * (th.left - 1) + match th.pc
      case Load => 4
      case Store(_) => 3
      case Unlock => 2
      case WakeCall => 1
      case _ => 5
  }

  // Retries possible before the word changes again.
  function RetriesWhenFree(th: Thread): int {
    if th.pc == WaitCall then 1 else 0
  }

  function RetriesWhenTaken(th: Thread): int {
    match th.pc case TryLock => 2 case WaitCall => 1 case _ => 0
  }

  function Measure(s: State): int {
    Sum(Rounds, s.threads) * (2 * |s.threads| + 1)
    + (if s.word == 0 then Sum(RetriesWhenFree, s.threads) else Sum(RetriesWhenTaken, s.threads))
  }

  lemma RetriesBounded(s: State)
    ensures 0 <= Sum(RetriesWhenFree, s.threads) <= 2 * |s.threads|
    ensures 0 <= Sum(RetriesWhenTaken, s.threads) <= 2 * |s.threads|
    ensures 0 <= Sum(Rounds, s.threads) && 0 <= Measure(s)
  {
    SumBounds(RetriesWhenFree, s.threads, 0, 2);
    SumBounds(RetriesWhenTaken, s.threads, 0, 2);
    SumBoundsBelow(Rounds, s.threads);
  }

  lemma UpdateSums(s: State, t: nat, th: Thread)
    requires t < |s.threads|
    ensures Sum(Rounds, s.threads[t := th]) == Sum(Rounds, s.threads) - Rounds(s.threads[t]) + Rounds(th)
    ensures Sum(RetriesWhenFree, s.threads[t := th])
         == Sum(RetriesWhenFree, s.threads) - RetriesWhenFree(s.threads[t]) + RetriesWhenFree(th)
    ensures Sum(RetriesWhenTaken, s.threads[t := th])
         == Sum(RetriesWhenTaken, s.threads) - RetriesWhenTaken(s.threads[t]) + RetriesWhenTaken(th)
  {
    SumUpdate(Rounds, s.threads, t, th);
    SumUpdate(RetriesWhenFree, s.threads, t, th);
    SumUpdate(RetriesWhenTaken, s.threads, t, th);
  }

  // A step of the round structure outweighs every retry.
  lemma RoundsDominate(s: State, s': State)
    requires |s.threads| == |s'.threads| && Sum(Rounds, s'.threads) < Sum(Rounds, s.threads)
    ensures Measure(s') < Measure(s)
  {
    RetriesBounded(s);
    RetriesBounded(s');
    LeadingDigit(Sum(Rounds, s.threads), Sum(Rounds, s'.threads), 2 * |s.threads| + 1);
  }

  lemma {:induction false} LeadingDigit(a: int, b: int, w: nat)
    requires b < a
    ensures b * w + w <= a * w
  {
    AtLeast(a - b, w);
    Distribute(a, b, w);
  }

  lemma {:induction false} AtLeast(d: int, w: nat)
    requires d >= 1
    ensures d * w >= w
  {
  }

  lemma {:induction false} Distribute(a: int, b: int, w: int)
    ensures (a - b) * w == a * w - b * w
  {
  }

  // With the rounds as they were, the retries decide.
  lemma RetriesDecide(s: State, s': State)
    requires |s.threads| == |s'.threads| && Sum(Rounds, s'.threads) == Sum(Rounds, s.threads) && s'.word == s.word
    requires if s.word == 0 then Sum(RetriesWhenFree, s'.threads) < Sum(RetriesWhenFree, s.threads)
             else Sum(RetriesWhenTaken, s'.threads) < Sum(RetriesWhenTaken, s.threads)
    ensures Measure(s') < Measure(s)
  {
  }

  lemma ActDecreases(s: State, t: nat)
    requires Enabled(s, Act(t)) && s.word in {0, 1}
    requires s.threads[t].pc == Done <==> s.threads[t].left == 0
    ensures Measure(Act1(s, t)) < Measure(s)
  {
    hide Measure, Sum;
    var s' := Act1(s, t);
    assert s'.threads == s.threads[t := s'.threads[t]];
    UpdateSums(s, t, s'.threads[t]);
    if Sum(Rounds, s'.threads) < Sum(Rounds, s.threads) { RoundsDominate(s, s'); } else { RetriesDecide(s, s'); }
  }

  lemma WakeDecreases(s: State, t: nat, who: nat)
    requires Enabled(s, Wake(t, who)) && s.threads[t].left > 0 && s.threads[who].left > 0
    ensures Measure(Step(s, Wake(t, who))) < Measure(s)
  {
    hide Measure, Sum;
    var s' := Step(s, Wake(t, who));
    var m := Go(s, who, TryLock);
    UpdateSums(s, who, m.threads[who]);
    assert s'.threads == m.threads[t := s'.threads[t]];
    UpdateSums(m, t, s'.threads[t]);
    RoundsDominate(s, s');
  }

  lemma StepDecreases(s: State, e: Event, total: int)
    requires Inv(s, total) && Enabled(s, e) && !e.Interrupt?
    ensures Measure(Step(s, e)) < Measure(s)
  {
    hide Measure, Sum, Act1;
    match e
    case Act(t) => ActDecreases(s, t);
    case Wake(t, who) => WakeDecreases(s, t, who);
  }

  // A sleeper that returns by itself has two more retries before it.
  lemma InterruptAdds(s: State, t: nat)
    requires IsAsleep(s, t)
    ensures Measure(Step(s, Interrupt(t))) <= Measure(s) + 2
  {
    hide Sum;
    UpdateSums(s, t, Step(s, Interrupt(t)).threads[t]);
  }

  function Interrupts(evs: seq<Event>): nat {
    if evs == [] then 0 else (if evs[0].Interrupt? then 1 else 0) + Interrupts(evs[1..])
  }

  lemma {:induction false} RunBound(s: State, evs: seq<Event>, s': State, total: int)
    requires Inv(s, total) && Run(s, evs, s')
    ensures |evs| + Measure(s') <= Measure(s) + 3 * Interrupts(evs)
    decreases |evs|
  {
    hide Inv, Step, Measure;
    if evs != [] {
      StepInv(s, evs[0], total);
      if evs[0].Interrupt? { InterruptAdds(s, evs[0].t); } else { StepDecreases(s, evs[0], total); }
      RunBound(Step(s, evs[0]), evs[1..], s', total);
    }
  }

  lemma {:induction false} InitMeasure(n: nat, k: nat)
    ensures Measure(Initial(n, k)) == 5 * k * n * (2 * n + 1)
  {
    var ths := Initial(n, k).threads;
    SumBounds(Rounds, ths, 5 * k, 5 * k);
    SumBounds(RetriesWhenFree, ths, 0, 0);
    assert Sum(Rounds, ths) == 5 * k * n;
  }

  /** Every schedule is finite, with an explicit bound, as long as only finitely many sleeps are interrupted:
      each costs three steps at most. With NeverStuck and CounterTotal every such schedule that is not cut
      short ends with all rounds done. */
  lemma EveryScheduleEnds(n: nat, k: nat, evs: seq<Event>, s: State)
    requires Run(Initial(n, k), evs, s)
    ensures |evs| <= 5 * k * n * (2 * n + 1) + 3 * Interrupts(evs)
  {
    hide Measure, Inv, Run;
    InitInv(n, k);
    RunBound(Initial(n, k), evs, s, n * k);
    RetriesBounded(s);
    InitMeasure(n, k);
  }
}
