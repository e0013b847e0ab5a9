/**
 The counting semaphore of lecture_examples/7_ipc/10_sem_mutex.h, built from a mutex and a condition
 variable, used by any number of threads that get and put in any order.

 pthread_cond_signal wakes one sleeper of the system's choice, if there is one. A sleeper may also
 wake spuriously. A woken thread has to take the mutex again, and other threads may overtake it.
 */
module Semaphore {
  import opened Sums

  datatype Owner = Nobody | Thread(i: nat)

  // GetLock, PutLock: about to lock. Test: about to test the counter. Take: about to decrement.
  // Sleeping: in the condition queue. Woken: about to lock again. Add: about to increment.
  // Notify: about to signal. Unlock: about to unlock and return.
  datatype Pc = Idle | GetLock | Test | Take | Sleeping | Woken | PutLock | Add | Notify | Unlock

  datatype State = State(counter: int, owner: Owner, pcs: seq<Pc>)

  // Wake(t, who): the signal of thread t picks sleeper who. Spurious(t): sleeper t wakes by itself.
  datatype Event = CallGet(t: nat) | CallPut(t: nat) | Act(t: nat) | Wake(t: nat, who: nat) | Spurious(t: nat)

  predicate At(s: State, t: nat, pc: Pc) {
    t < |s.pcs| && s.pcs[t] == pc
  }

  ghost predicate Enabled(s: State, e: Event) {
    match e
    case CallGet(t) => At(s, t, Idle)
    case CallPut(t) => At(s, t, Idle)
    case Act(t) =>
      && t < |s.pcs| && s.pcs[t] !in {Idle, Sleeping}
      && (s.pcs[t] in {GetLock, Woken, PutLock} ==> s.owner == Nobody)
      && (s.pcs[t] == Notify ==> forall u :: !At(s, u, Sleeping))
    case Wake(t, who) => At(s, t, Notify) && At(s, who, Sleeping)
    case Spurious(t) => At(s, t, Sleeping)
  }

  function Go(s: State, t: nat, pc: Pc): State
    requires t < |s.pcs|
  {
    s.(pcs := s.pcs[t := pc])
  }

  function Act1(s: State, t: nat): State
    requires t < |s.pcs|
  {
    match s.pcs[t]
    case GetLock => Go(s, t, Test).(owner := Thread(t))
    case Woken => Go(s, t, Test).(owner := Thread(t))
    case Test => if s.counter == 0 then Go(s, t, Sleeping).(owner := Nobody) else Go(s, t, Take)
    case Take => Go(s, t, Unlock).(counter := s.counter - 1)
    case PutLock => Go(s, t, Add).(owner := Thread(t))
    case Add => Go(s, t, Notify).(counter := s.counter + 1)
    case Notify => Go(s, t, Unlock)
    case Unlock => Go(s, t, Idle).(owner := Nobody)
    case Idle => s
    case Sleeping => s
  }

  ghost function Step(s: State, e: Event): State
    requires Enabled(s, e)
  {
    match e
    case CallGet(t) => Go(s, t, GetLock)
    case CallPut(t) => Go(s, t, PutLock)
    case Act(t) => Act1(s, t)
    case Wake(t, who) => Act1(Go(s, who, Woken), t)
    case Spurious(t) => Go(s, t, Woken)
  }

  ghost predicate Run(s: State, evs: seq<Event>, s': State)
    decreases |evs|
  {
    if evs == [] then s == s' else Enabled(s, evs[0]) && Run(Step(s, evs[0]), evs[1..], s')
  }

  function Initial(n: nat, permits: nat): State {
    State(permits, Nobody, seq(n, _ => Idle))
  }

  // ---- The invariant

  function Awake(pc: Pc): int { if pc == Woken then 1 else 0 }

  predicate Owns(s: State, t: nat) {
    t < |s.pcs| && s.pcs[t] in {Test, Take, Add, Notify, Unlock}
  }

  // Permits whose wake-up the owner of the mutex is about to issue or to use up.
  function InHand(s: State): int {
    if s.owner.Thread? && s.owner.i < |s.pcs| && s.pcs[s.owner.i] in {Test, Take, Notify} then 1 else 0
  }

  ghost predicate Inv(s: State) {
    && s.counter >= 0
    && (forall t: nat :: Owns(s, t) <==> s.owner == Thread(t))
    && (forall t: nat :: At(s, t, Take) ==> s.counter > 0)
    && ((exists t: nat :: At(s, t, Sleeping)) ==> s.counter <= Sum(Awake, s.pcs) + InHand(s))
  }

  lemma ActOwners(s: State, t: nat)
    requires Inv(s) && Enabled(s, Act(t))
    ensures var s' := Act1(s, t);
      && (forall u: nat :: Owns(s', u) <==> s'.owner == Thread(u))
      && (forall u: nat :: At(s', u, Take) ==> s'.counter > 0)
      && s'.counter >= 0
  {
    var s' := Act1(s, t);
    assert Owns(s, t) <==> s.owner == Thread(t);
    assert s.pcs[t] == Take ==> At(s, t, Take);
    assert forall u: nat :: u != t ==> (Owns(s', u) <==> Owns(s, u));
    assert forall u: nat :: At(s', u, Take) ==> Owns(s', u);
    assert forall u: nat :: u != t ==> (At(s', u, Take) <==> At(s, u, Take));
  }

  lemma ActSleepers(s: State, t: nat)
    requires Inv(s) && Enabled(s, Act(t))
    ensures var s' := Act1(s, t);
      (exists u: nat :: At(s', u, Sleeping)) ==> s'.counter <= Sum(Awake, s'.pcs) + InHand(s')
  {
    hide Sum;
    var s' := Act1(s, t);
    SumUpdate(Awake, s.pcs, t, s'.pcs[t]);
    SumBounds(Awake, s.pcs, 0, 1);
    assert Owns(s, t) <==> s.owner == Thread(t);
    assert s.pcs[t] == Take ==> At(s, t, Take);
    if u: nat :| At(s', u, Sleeping) && u != t {
      assert At(s, u, Sleeping);
    }
  }

  lemma ActInv(s: State, t: nat)
    requires Inv(s) && Enabled(s, Act(t))
    ensures Inv(Act1(s, t))
  {
    ActOwners(s, t);
    ActSleepers(s, t);
  }

  lemma RiseInv(s: State, who: nat)
    requires Inv(s) && At(s, who, Sleeping)
    ensures Inv(Go(s, who, Woken))
    ensures Sum(Awake, Go(s, who, Woken).pcs) == Sum(Awake, s.pcs) + 1
  {
    var s' := Go(s, who, Woken);
    SumUpdate(Awake, s.pcs, who, Woken);
    assert forall u: nat :: u != who ==> (Owns(s', u) <==> Owns(s, u));
    assert !Owns(s, who) && !Owns(s', who);
    assert forall u: nat, pc :: u != who ==> (At(s', u, pc) <==> At(s, u, pc));
    assert forall u: nat :: At(s', u, Take) ==> At(s, u, Take);
    assert forall u: nat :: At(s', u, Sleeping) ==> At(s, u, Sleeping);
  }

  lemma CallInv(s: State, t: nat, pc: Pc)
    requires Inv(s) && At(s, t, Idle) && pc in {GetLock, PutLock}
    ensures Inv(Go(s, t, pc))
  {
    var s' := Go(s, t, pc);
    SumUpdate(Awake, s.pcs, t, pc);
    assert forall u: nat :: u != t ==> (Owns(s', u) <==> Owns(s, u));
    assert !Owns(s, t) && !Owns(s', t);
    assert forall u: nat :: At(s', u, Take) ==> At(s, u, Take);
    assert forall u: nat :: At(s', u, Sleeping) ==> At(s, u, Sleeping);
  }

  // A signal that woke somebody: the permit just added is covered by the thread it woke.
  lemma WakeInv(s: State, t: nat, who: nat)
    requires Inv(s) && At(s, t, Notify) && At(s, who, Sleeping)
    ensures Inv(Act1(Go(s, who, Woken), t))
  {
    RiseInv(s, who);
    var m := Go(s, who, Woken);
    var s' := Act1(m, t);
    SumUpdate(Awake, m.pcs, t, Unlock);
    assert Owns(s, t) && At(s, who, Sleeping);
    assert forall u: nat :: u != t ==> (Owns(s', u) <==> Owns(m, u));
    assert Owns(s', t) && Owns(m, t);
    assert forall u: nat :: At(s', u, Take) ==> At(m, u, Take);
  }

  lemma StepInv(s: State, e: Event)
    requires Inv(s) && Enabled(s, e)
    ensures Inv(Step(s, e))
  {
    match e
    case CallGet(t) => CallInv(s, t, GetLock);
    case CallPut(t) => CallInv(s, t, PutLock);
    case Act(t) => ActInv(s, t);
    case Wake(t, who) => WakeInv(s, t, who);
    case Spurious(t) => RiseInv(s, t);
  }

  lemma {:induction false} RunInv(s: State, evs: seq<Event>, s': State)
    requires Inv(s) && Run(s, evs, s')
    ensures Inv(s')
    decreases |evs|
  {
    if evs != [] {
      StepInv(s, evs[0]);
      RunInv(Step(s, evs[0]), evs[1..], s');
    }
  }

  lemma ReachableInv(n: nat, permits: nat, evs: seq<Event>, s: State)
    requires Run(Initial(n, permits), evs, s)
    ensures Inv(s)
  {
    RunInv(Initial(n, permits), evs, s);
  }

  // ---- Permits and calls

  // In a call of semaphore_put that has not added its permit yet, of semaphore_get that has not taken one.
  function Putting(pc: Pc): int { if pc in {PutLock, Add} then 1 else 0 }
  function Getting(pc: Pc): int { if pc in {GetLock, Test, Take, Sleeping, Woken} then 1 else 0 }

  function Puts(evs: seq<Event>): nat {
    if evs == [] then 0 else (if evs[0].CallPut? then 1 else 0) + Puts(evs[1..])
  }

  function Gets(evs: seq<Event>): nat {
    if evs == [] then 0 else (if evs[0].CallGet? then 1 else 0) + Gets(evs[1..])
  }

  // The permits once every call in progress has had its own.
  function Settled(s: State): int {
    s.counter + Sum(Putting, s.pcs) - Sum(Getting, s.pcs)
  }

  lemma MoveSettled(s: State, t: nat, pc: Pc)
    requires t < |s.pcs|
    ensures Settled(Go(s, t, pc)) == Settled(s) + Putting(pc) - Putting(s.pcs[t]) - Getting(pc) + Getting(s.pcs[t])
  {
    SumUpdate(Putting, s.pcs, t, pc);
    SumUpdate(Getting, s.pcs, t, pc);
  }

  lemma StepSettled(s: State, e: Event)
    requires Enabled(s, e)
    ensures Settled(Step(s, e)) == Settled(s) + Puts([e]) - Gets([e])
  {
    hide Sum;
    var s' := Step(s, e);
    if e.Wake? {
      MoveSettled(s, e.who, Woken);
      MoveSettled(Go(s, e.who, Woken), e.t, s'.pcs[e.t]);
    } else {
      MoveSettled(s, e.t, s'.pcs[e.t]);
    }
  }

  lemma {:induction false} RunSettled(s: State, evs: seq<Event>, s': State)
    requires Run(s, evs, s')
    ensures Settled(s') == Settled(s) + Puts(evs) - Gets(evs)
    decreases |evs|
  {
    hide Step, Enabled, Settled;
    if evs != [] {
      StepSettled(s, evs[0]);
      RunSettled(Step(s, evs[0]), evs[1..], s');
    }
  }

  // ---- Main results

  /** Permits are conserved and never overdrawn, in every interleaving: each call of semaphore_put adds one
      and each call of semaphore_get takes one, but for the calls still on their way to do so. */
  lemma PermitsConserved(n: nat, permits: nat, evs: seq<Event>, s: State)
    requires Run(Initial(n, permits), evs, s)
    ensures s.counter >= 0
    ensures s.counter == permits + (Puts(evs) - Sum(Putting, s.pcs)) - (Gets(evs) - Sum(Getting, s.pcs))
    ensures AllIdle(s) ==> s.counter == permits + Puts(evs) - Gets(evs)
    ensures forall t, u :: Owns(s, t) && Owns(s, u) ==> t == u
  {
    hide Run, Sum;
    ReachableInv(n, permits, evs, s);
    RunSettled(Initial(n, permits), evs, s);
    IdleSettled(Initial(n, permits));
    if AllIdle(s) { IdleSettled(s); }
  }

  predicate AllIdle(s: State) {
    forall t :: 0 <= t < |s.pcs| ==> s.pcs[t] == Idle
  }

  lemma IdleSettled(s: State)
    requires AllIdle(s)
    ensures Settled(s) == s.counter && Sum(Putting, s.pcs) == Sum(Getting, s.pcs) == 0
  {
    SumBounds(Putting, s.pcs, 0, 0);
    SumBounds(Getting, s.pcs, 0, 0);
  }

  /** No permit is stranded behind a sleeper: with the mutex free and a thread asleep, every permit is
      matched by a woken thread that has not resumed yet. */
  lemma NoStrandedPermit(n: nat, permits: nat, evs: seq<Event>, s: State, t: nat)
    requires Run(Initial(n, permits), evs, s) && s.owner == Nobody && At(s, t, Sleeping)
    ensures s.counter <= Sum(Awake, s.pcs)
  {
    ReachableInv(n, permits, evs, s);
  }

  /** Whoever owns the mutex can go on. */
  lemma OwnerCanStep(n: nat, permits: nat, evs: seq<Event>, s: State) returns (e: Event)
    requires Run(Initial(n, permits), evs, s) && s.owner.Thread?
    ensures Enabled(s, e) && (e == Act(s.owner.i) || (e.Wake? && e.t == s.owner.i))
  {
    ReachableInv(n, permits, evs, s);
    var t := s.owner.i;
    assert Owns(s, t);
    e := Act(t);
    if w: nat :| s.pcs[t] == Notify && At(s, w, Sleeping) { e := Wake(t, w); }
  }

  /** Threads that have called and not returned are stuck only when all of them sleep and there is no
      permit to hand out. */
  lemma StuckOnlyWithoutPermits(n: nat, permits: nat, evs: seq<Event>, s: State, t: nat)
    requires Run(Initial(n, permits), evs, s) && t < |s.pcs| && s.pcs[t] != Idle
    requires forall e :: Enabled(s, e) ==> !e.Act? && !e.Wake?
    ensures s.counter == 0 && forall u :: 0 <= u < |s.pcs| ==> s.pcs[u] in {Idle, Sleeping}
  {
    if s.owner.Thread? { var e := OwnerCanStep(n, permits, evs, s); }
    ReachableInv(n, permits, evs, s);
    forall u: nat | u < |s.pcs| ensures s.pcs[u] in {Idle, Sleeping} {
      assert !Enabled(s, Act(u)) && !Owns(s, u);
    }
    assert At(s, t, Sleeping);
    SumBounds(Awake, s.pcs, 0, 0);
  }

  // ---- Runs are finite but for calls and spurious wake-ups

  // Steps that a thread may still make in its call; a signal pays for the thread it wakes.
  function Ahead(pc: Pc): int {
    match pc
    case Idle => 0
    case Sleeping => 0
    case Unlock => 1
    case Take => 2
    case Test => 3
    case GetLock => 4
    case Woken => 4
    case Notify => 6
    case Add => 7
    case PutLock => 8
  }

  // What an event from outside brings.
  function Fuel(e: Event): nat {
    match e
    case CallGet(_) => 5
    case CallPut(_) => 9
    case Spurious(_) => 5
    case Act(_) => 0
    case Wake(_, _) => 0
  }

  function FuelOf(evs: seq<Event>): nat {
    if evs == [] then 0 else Fuel(evs[0]) + FuelOf(evs[1..])
  }

  lemma AheadDecreases(s: State, e: Event)
    requires Enabled(s, e)
    ensures Sum(Ahead, Step(s, e).pcs) + 1 <= Sum(Ahead, s.pcs) + Fuel(e)
  {
    hide Sum;
    var s' := Step(s, e);
    if e.Wake? {
      var m := Go(s, e.who, Woken);
      SumUpdate(Ahead, s.pcs, e.who, Woken);
      SumUpdate(Ahead, m.pcs, e.t, s'.pcs[e.t]);
      assert s'.pcs == m.pcs[e.t := s'.pcs[e.t]];
    } else {
      SumUpdate(Ahead, s.pcs, e.t, s'.pcs[e.t]);
      assert s'.pcs == s.pcs[e.t := s'.pcs[e.t]];
    }
  }

  lemma {:induction false} RunBound(s: State, evs: seq<Event>, s': State)
    requires Run(s, evs, s')
    ensures |evs| + Sum(Ahead, s'.pcs) <= Sum(Ahead, s.pcs) + FuelOf(evs)
    decreases |evs|
  {
    hide Step, Enabled, Sum, Fuel;
    if evs != [] {
      AheadDecreases(s, evs[0]);
      RunBound(Step(s, evs[0]), evs[1..], s');
    }
  }

  /** Every run is bounded by its calls: five steps for each call of semaphore_get and each spurious wake-up,
      nine for each call of semaphore_put, whatever the interleaving. */
  lemma EveryRunEnds(n: nat, permits: nat, evs: seq<Event>, s: State)
    requires Run(Initial(n, permits), evs, s)
    ensures |evs| <= FuelOf(evs)
  {
    RunBound(Initial(n, permits), evs, s);
    SumBounds(Ahead, Initial(n, permits).pcs, 0, 0);
    SumBoundsBelow(Ahead, s.pcs);
  }
}
