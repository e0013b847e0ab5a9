/**
 The event collector of lecture_examples/7_ipc/9_sem_event_source.c and 9_sem_event_cons.c: any
 number of sources put typed messages in one System V queue and count them in one semaphore per
 type; any number of consumers take one message of each of the three types at a time, under a fourth
 semaphore that serves as a lock. Types 1, 2, 3 of the source are 0, 1, 2 here.
 */
module EventCollector {
  import opened Sums

  const TYPES: nat := 3

  type Payload = string

  datatype Msg = Msg(kind: nat, data: Payload)

  // kind: the source's own type. counting: it has sent a message and not yet counted it.
  datatype Source = Source(kind: nat, counting: bool)

  // Ready: about to lock. Reading(part): holds the lock, part is what it has received so far; with
  // all three received it is about to unlock.
  datatype Consumer = Ready | Reading(part: seq<Payload>)

  // sent, triples: history, every message ever sent and every completed collection.
  datatype State = State(sems: seq<int>, lock: int, queue: seq<Msg>, sources: seq<Source>, consumers: seq<Consumer>,
                         sent: seq<Msg>, triples: seq<seq<Payload>>)

  datatype Event = Send(i: nat, data: Payload) | Count(i: nat) | Lock(c: nat) | Receive(c: nat) | Release(c: nat)

  // The messages of one kind, in order.
  function OfKind(q: seq<Msg>, k: nat): seq<Payload> {
    if q == [] then []
    else if q[0].kind == k then [q[0].data] + OfKind(q[1..], k)
    else OfKind(q[1..], k)
  }

  // msgrcv with a positive type takes the first message of that type.
  function FirstOfKind(q: seq<Msg>, k: nat): (i: nat)
    ensures i <= |q| && (i < |q| ==> q[i].kind == k)
    ensures i == |q| <==> OfKind(q, k) == []
  {
    if q == [] || q[0].kind == k then 0 else 1 + FirstOfKind(q[1..], k)
  }

  predicate Enabled(s: State, e: Event) {
    match e
    case Send(i, _) => i < |s.sources| && !s.sources[i].counting
    case Count(i) => i < |s.sources| && s.sources[i].counting && s.sources[i].kind < |s.sems|
    case Lock(c) => c < |s.consumers| && s.consumers[c] == Ready && CanLock(s)
    case Receive(c) =>
      && c < |s.consumers| && s.consumers[c].Reading? && |s.consumers[c].part| < TYPES
      && FirstOfKind(s.queue, |s.consumers[c].part|) < |s.queue|
    case Release(c) => c < |s.consumers| && s.consumers[c].Reading? && |s.consumers[c].part| == TYPES
  }

  // semop applies all four decrements or none.
  predicate CanLock(s: State) {
    s.lock >= 1 && forall k :: 0 <= k < |s.sems| ==> s.sems[k] >= 1
  }

  function Step(s: State, e: Event): State
    requires Enabled(s, e)
  {
    match e
    case Send(i, data) =>
      var m := Msg(s.sources[i].kind, data);
      s.(queue := s.queue + [m], sent := s.sent + [m], sources := s.sources[i := s.sources[i].(counting := true)])
    case Count(i) =>
      var k := s.sources[i].kind;
      s.(sems := s.sems[k := s.sems[k] + 1], sources := s.sources[i := s.sources[i].(counting := false)])
    case Lock(c) =>
      s.(sems := seq(|s.sems|, k requires 0 <= k < |s.sems| => s.sems[k] - 1), lock := s.lock - 1,
         consumers := s.consumers[c := Reading([])])
    case Receive(c) =>
      var part := s.consumers[c].part;
      var i := FirstOfKind(s.queue, |part|);
      s.(queue := s.queue[..i] + s.queue[i + 1..], consumers := s.consumers[c := Reading(part + [s.queue[i].data])])
    case Release(c) =>
      s.(lock := s.lock + 1, consumers := s.consumers[c := Ready], triples := s.triples + [s.consumers[c].part])
  }

  ghost predicate Run(s: State, evs: seq<Event>, s': State)
    decreases |evs|
  {
    if evs == [] then s == s' else Enabled(s, evs[0]) && Run(Step(s, evs[0]), evs[1..], s')
  }

  // The semaphores start as 0, 0, 0, 1.
  function Initial(kinds: seq<nat>, consumers: nat): State {
    State([0, 0, 0], 1, [], seq(|kinds|, i requires 0 <= i < |kinds| => Source(kinds[i], false)),
          seq(consumers, _ => Ready), [], [])
  }

  // ---- The invariant

  function Inside(c: Consumer): int { if c.Reading? then 1 else 0 }

  function Uncounted(k: nat): Source -> int {
    (x: Source) => if x.counting && x.kind == k then 1 else 0
  }

  function Reserved(k: nat): Consumer -> int {
    (c: Consumer) => if c.Reading? && |c.part| <= k then 1 else 0
  }

  // What the consumer inside has already received of kind k.
  function Partial(cs: seq<Consumer>, k: nat): seq<Payload> {
    if cs == [] then []
    else (if cs[0].Reading? && |cs[0].part| > k then [cs[0].part[k]] else []) + Partial(cs[1..], k)
  }

  function Column(ts: seq<seq<Payload>>, k: nat): seq<Payload> {
    seq(|ts|, j requires 0 <= j < |ts| => if k < |ts[j]| then ts[j][k] else "")
  }

  ghost predicate KindInv(s: State, k: nat)
    requires k < |s.sems|
  {
    && s.sems[k] >= 0
    && |OfKind(s.queue, k)| == s.sems[k] + Sum(Uncounted(k), s.sources) + Sum(Reserved(k), s.consumers)
    && OfKind(s.sent, k) == Column(s.triples, k) + Partial(s.consumers, k) + OfKind(s.queue, k)
  }

  ghost predicate Inv(s: State) {
    && |s.sems| == TYPES
    && s.lock >= 0 && s.lock + Sum(Inside, s.consumers) == 1
    && (forall i :: 0 <= i < |s.sources| ==> s.sources[i].kind < TYPES)
    && (forall c :: 0 <= c < |s.consumers| && s.consumers[c].Reading? ==> |s.consumers[c].part| <= TYPES)
    && (forall t :: 0 <= t < |s.triples| ==> |s.triples[t]| == TYPES)
    && (forall k: nat :: k < TYPES ==> KindInv(s, k))
  }

  // ---- The queue

  lemma {:induction false} OfKindConcat(p: seq<Msg>, q: seq<Msg>, k: nat)
    ensures OfKind(p + q, k) == OfKind(p, k) + OfKind(q, k)
  {
    if p == [] {
      assert p + q == q;
    } else {
      assert (p + q)[1..] == p[1..] + q;
      OfKindConcat(p[1..], q, k);
    }
  }

  lemma {:induction false} NoneBeforeFirst(q: seq<Msg>, k: nat)
    ensures OfKind(q[..FirstOfKind(q, k)], k) == []
  {
    var i := FirstOfKind(q, k);
    if i > 0 {
      NoneBeforeFirst(q[1..], k);
      assert q[..i][1..] == q[1..][..i - 1];
    }
  }

  // Removing the first message of kind k pops kind k and leaves the other kinds alone.
  lemma RemoveFirst(q: seq<Msg>, k: nat, j: nat)
    requires FirstOfKind(q, k) < |q|
    ensures var i := FirstOfKind(q, k);
      OfKind(q, j) == (if j == k then [q[i].data] else []) + OfKind(q[..i] + q[i + 1..], j)
  {
    hide FirstOfKind;
    var i := FirstOfKind(q, k);
    NoneBeforeFirst(q, k);
    assert q == q[..i] + ([q[i]] + q[i + 1..]);
    OfKindConcat(q[..i], [q[i]] + q[i + 1..], j);
    OfKindConcat([q[i]], q[i + 1..], j);
    OfKindConcat(q[..i], q[i + 1..], j);
    assert OfKind([q[i]], j) == if j == k then [q[i].data] else [];
  }

  // ---- The one consumer inside

  lemma NobodyInside(cs: seq<Consumer>, k: nat)
    requires Sum(Inside, cs) == 0
    ensures Partial(cs, k) == [] && Sum(Reserved(k), cs) == 0
    ensures forall c :: 0 <= c < |cs| ==> cs[c] == Ready
  {
    forall c | 0 <= c < |cs| ensures cs[c] == Ready { SumMember(Inside, cs, c); }
    AllReady(cs, k);
  }

  lemma {:induction false} AllReady(cs: seq<Consumer>, k: nat)
    requires forall c :: 0 <= c < |cs| ==> cs[c] == Ready
    ensures Partial(cs, k) == [] && Sum(Reserved(k), cs) == 0
  {
    if cs != [] {
      forall c | 0 <= c < |cs[1..]| ensures cs[1..][c] == Ready { assert cs[1..][c] == cs[c + 1]; }
      AllReady(cs[1..], k);
    }
  }

  lemma {:induction false} PartialConcat(p: seq<Consumer>, q: seq<Consumer>, k: nat)
    ensures Partial(p + q, k) == Partial(p, k) + Partial(q, k)
  {
    if p == [] {
      assert p + q == q;
    } else {
      assert (p + q)[1..] == p[1..] + q;
      PartialConcat(p[1..], q, k);
    }
  }

  // With consumer c the only one inside, its own fields say everything.
  lemma OneInside(cs: seq<Consumer>, c: nat, k: nat)
    requires c < |cs| && cs[c].Reading? && Sum(Inside, cs) == 1
    ensures Partial(cs, k) == if |cs[c].part| > k then [cs[c].part[k]] else []
    ensures Sum(Reserved(k), cs) == if |cs[c].part| <= k then 1 else 0
  {
    var l, r := cs[..c], cs[c + 1..];
    assert cs == l + ([cs[c]] + r);
    SumConcat(Inside, l, [cs[c]] + r);
    SumConcat(Inside, [cs[c]], r);
    SumBounds(Inside, l, 0, 1);
    SumBounds(Inside, r, 0, 1);
    NobodyInside(l, k);
    NobodyInside(r, k);
    PartialConcat(l, [cs[c]] + r, k);
    PartialConcat([cs[c]], r, k);
    SumConcat(Reserved(k), l, [cs[c]] + r);
    SumConcat(Reserved(k), [cs[c]], r);
  }

  // ---- Each step keeps the invariant

  lemma InitInv(kinds: seq<nat>, n: nat)
    requires forall i :: 0 <= i < |kinds| ==> kinds[i] < TYPES
    ensures Inv(Initial(kinds, n))
  {
    hide Sum;
    var s := Initial(kinds, n);
    SumBounds(Inside, s.consumers, 0, 0);
    forall k: nat | k < TYPES ensures KindInv(s, k) {
      SumBounds(Uncounted(k), s.sources, 0, 0);
      AllReady(s.consumers, k);
    }
  }

  lemma SourceInv(s: State, e: Event)
    requires Inv(s) && Enabled(s, e) && (e.Send? || e.Count?)
    ensures Inv(Step(s, e))
  {
    var s' := Step(s, e);
    forall k: nat | k < TYPES ensures KindInv(s', k) {
      assert KindInv(s, k);
      SumUpdate(Uncounted(k), s.sources, e.i, s'.sources[e.i]);
      if e.Send? {
        var m := Msg(s.sources[e.i].kind, e.data);
        OfKindConcat(s.queue, [m], k);
        OfKindConcat(s.sent, [m], k);
        assert OfKind([m], k) == if m.kind == k then [m.data] else [];
      }
    }
  }

  lemma LockInv(s: State, c: nat)
    requires Inv(s) && Enabled(s, Lock(c))
    ensures Inv(Step(s, Lock(c)))
  {
    var s' := Step(s, Lock(c));
    SumUpdate(Inside, s.consumers, c, Reading([]));
    SumBounds(Inside, s.consumers, 0, 1);
    forall k: nat | k < TYPES ensures KindInv(s', k) {
      assert KindInv(s, k);
      NobodyInside(s.consumers, k);
      OneInside(s'.consumers, c, k);
    }
  }

  // One receive, seen by one kind: the head of the queue moves to what the consumer holds.
  lemma Received(s: State, c: nat, k: nat) returns (got: seq<Payload>)
    requires Inv(s) && Enabled(s, Receive(c)) && k < TYPES
    requires Sum(Inside, s.consumers) == 1 == Sum(Inside, Step(s, Receive(c)).consumers)
    ensures var s' := Step(s, Receive(c));
      && OfKind(s.queue, k) == got + OfKind(s'.queue, k)
      && Partial(s'.consumers, k) == Partial(s.consumers, k) + got
      && Sum(Reserved(k), s'.consumers) == Sum(Reserved(k), s.consumers) - |got|
  {
    hide OfKind, FirstOfKind, Sum, Partial, KindInv;
    var s' := Step(s, Receive(c));
    OneInside(s.consumers, c, k);
    OneInside(s'.consumers, c, k);
    var part := s.consumers[c].part;
    RemoveFirst(s.queue, |part|, k);
    got := if |part| == k then [s'.consumers[c].part[|part|]] else [];
  }

  lemma Shift(a: seq<Payload>, b: seq<Payload>, c: seq<Payload>, d: seq<Payload>)
    ensures a + b + (c + d) == a + (b + c) + d
  {
  }

  lemma ReceiveKind(s: State, c: nat, k: nat)
    requires Inv(s) && Enabled(s, Receive(c)) && k < TYPES
    requires Sum(Inside, s.consumers) == 1 == Sum(Inside, Step(s, Receive(c)).consumers)
    ensures KindInv(Step(s, Receive(c)), k)
  {
    assert KindInv(s, k);
    var got := Received(s, c, k);
    Shift(Column(s.triples, k), Partial(s.consumers, k), got, OfKind(Step(s, Receive(c)).queue, k));
  }

  lemma ReceiveInv(s: State, c: nat)
    requires Inv(s) && Enabled(s, Receive(c))
    ensures Inv(Step(s, Receive(c)))
  {
    var s' := Step(s, Receive(c));
    SumUpdate(Inside, s.consumers, c, s'.consumers[c]);
    SumMember(Inside, s.consumers, c);
    forall k: nat | k < TYPES ensures KindInv(s', k) { ReceiveKind(s, c, k); }
  }

  lemma ReleaseInv(s: State, c: nat)
    requires Inv(s) && Enabled(s, Release(c))
    ensures Inv(Step(s, Release(c)))
  {
    var s' := Step(s, Release(c));
    SumUpdate(Inside, s.consumers, c, Ready);
    SumMember(Inside, s.consumers, c);
    forall k: nat | k < TYPES ensures KindInv(s', k) {
      assert KindInv(s, k);
      OneInside(s.consumers, c, k);
      NobodyInside(s'.consumers, k);
      assert Column(s'.triples, k) == Column(s.triples, k) + [s.consumers[c].part[k]];
    }
  }

  lemma StepInv(s: State, e: Event)
    requires Inv(s) && Enabled(s, e)
    ensures Inv(Step(s, e))
  {
    match e
    case Send(_, _) => SourceInv(s, e);
    case Count(_) => SourceInv(s, e);
    case Lock(c) => LockInv(s, c);
    case Receive(c) => ReceiveInv(s, c);
    case Release(c) => ReleaseInv(s, c);
  }

  lemma {:induction false} RunInv(s: State, evs: seq<Event>, s': State)
    requires Inv(s) && Run(s, evs, s')
    ensures Inv(s')
    decreases |evs|
  {
    if evs != [] {
      StepInv(s, evs[0]);
      RunInv(Step(s, evs[0]), evs[1..], s');
    }
  }

  // A run of n consumers and one source for each element of kinds, its type.
  ghost predicate Reaches(kinds: seq<nat>, n: nat, evs: seq<Event>, s: State) {
    (forall i :: 0 <= i < |kinds| ==> kinds[i] < TYPES) && Run(Initial(kinds, n), evs, s)
  }

  ghost predicate Reachable(s: State) {
    exists kinds, n, evs :: Reaches(kinds, n, evs, s)
  }

  lemma ReachesInv(kinds: seq<nat>, n: nat, evs: seq<Event>, s: State)
    requires Reaches(kinds, n, evs, s)
    ensures Inv(s)
  {
    InitInv(kinds, n);
    RunInv(Initial(kinds, n), evs, s);
  }

  lemma ReachableInv(s: State)
    requires Reachable(s)
    ensures Inv(s)
  {
    var kinds, n, evs :| Reaches(kinds, n, evs, s);
    ReachesInv(kinds, n, evs, s);
  }

  // ---- What was sent, and how often was collected, by the events alone

  function SentIn(kinds: seq<nat>, e: Event): seq<Msg> {
    if e.Send? && e.i < |kinds| then [Msg(kinds[e.i], e.data)] else []
  }

  function SentBy(kinds: seq<nat>, evs: seq<Event>): seq<Msg> {
    if evs == [] then [] else SentIn(kinds, evs[0]) + SentBy(kinds, evs[1..])
  }

  function Collections(evs: seq<Event>): nat {
    if evs == [] then 0 else (if evs[0].Release? then 1 else 0) + Collections(evs[1..])
  }

  predicate Types(s: State, kinds: seq<nat>) {
    |s.sources| == |kinds| && forall i :: 0 <= i < |kinds| ==> s.sources[i].kind == kinds[i]
  }

  lemma StepHistory(s: State, e: Event, kinds: seq<nat>)
    requires Enabled(s, e) && Types(s, kinds)
    ensures Types(Step(s, e), kinds)
    ensures Step(s, e).sent == s.sent + SentIn(kinds, e)
    ensures |Step(s, e).triples| == |s.triples| + if e.Release? then 1 else 0
  {
  }

  lemma {:induction false} RunHistory(s: State, evs: seq<Event>, s': State, kinds: seq<nat>)
    requires Run(s, evs, s') && Types(s, kinds)
    ensures s'.sent == s.sent + SentBy(kinds, evs)
    ensures |s'.triples| == |s.triples| + Collections(evs)
    decreases |evs|
  {
    hide Step, Enabled, Types, SentIn;
    if evs != [] {
      StepHistory(s, evs[0], kinds);
      RunHistory(Step(s, evs[0]), evs[1..], s', kinds);
      assert s'.sent == s.sent + (SentIn(kinds, evs[0]) + SentBy(kinds, evs[1..]));
    }
  }

  lemma History(kinds: seq<nat>, n: nat, evs: seq<Event>, s: State)
    requires Reaches(kinds, n, evs, s)
    ensures s.sent == SentBy(kinds, evs) && |s.triples| == Collections(evs)
  {
    RunHistory(Initial(kinds, n), evs, s, kinds);
  }

  // ---- Main results

  /** At most one consumer reads at a time. */
  lemma OneReader(s: State, c: nat, d: nat)
    requires Reachable(s) && c < |s.consumers| && d < |s.consumers|
    requires s.consumers[c].Reading? && s.consumers[d].Reading?
    ensures c == d && s.lock == 0
  {
    ReachableInv(s);
    SumMember(Inside, s.consumers, c);
    if c < d { SumTwoMembers(Inside, s.consumers, c, d); }
    if d < c { SumTwoMembers(Inside, s.consumers, d, c); }
  }

  /** A receive never blocks: the lock holder always finds a message of the type it asks for. */
  lemma ReceiveNeverBlocks(s: State, c: nat)
    requires Reachable(s) && c < |s.consumers| && s.consumers[c].Reading?
    ensures Enabled(s, if |s.consumers[c].part| < TYPES then Receive(c) else Release(c))
  {
    ReachableInv(s);
    var k := |s.consumers[c].part|;
    if k < TYPES {
      assert KindInv(s, k);
      SumMember(Reserved(k), s.consumers, c);
      SumBoundsBelow(Uncounted(k), s.sources);
    }
  }

  /** There is one collection for every release, and the t-th holds the t-th text that was sent with each
      type. */
  lemma TriplesInOrder(kinds: seq<nat>, n: nat, evs: seq<Event>, s: State, t: nat, k: nat)
    requires Reaches(kinds, n, evs, s) && t < Collections(evs) && k < TYPES
    ensures |s.triples| == Collections(evs) && |s.triples[t]| == TYPES
    ensures t < |OfKind(SentBy(kinds, evs), k)| && s.triples[t][k] == OfKind(SentBy(kinds, evs), k)[t]
  {
    ReachesInv(kinds, n, evs, s);
    History(kinds, n, evs, s);
    assert KindInv(s, k);
    assert Column(s.triples, k)[t] == s.triples[t][k];
  }

  // With nothing in flight a semaphore is the surplus of messages sent over collections made.
  lemma Surplus(s: State, k: nat)
    requires Inv(s) && s.lock > 0 && k < TYPES
    requires forall i :: 0 <= i < |s.sources| ==> !s.sources[i].counting
    ensures s.sems[k] == |OfKind(s.sent, k)| - |s.triples| && s.lock == 1
  {
    assert KindInv(s, k);
    SumBoundsBelow(Inside, s.consumers);
    NobodyInside(s.consumers, k);
    SumBounds(Uncounted(k), s.sources, 0, 0);
  }

  // Every type has been sent more often than collected.
  predicate TripleWaiting(kinds: seq<nat>, evs: seq<Event>) {
    forall k: nat :: k < TYPES ==> |OfKind(SentBy(kinds, evs), k)| > Collections(evs)
  }

  /** No complete triple is left waiting: with no source between send and count and no consumer inside,
      a consumer can lock exactly when every type has been sent more often than collected. */
  lemma LockableIffTripleWaiting(kinds: seq<nat>, n: nat, evs: seq<Event>, s: State)
    requires Reaches(kinds, n, evs, s) && s.lock > 0
    requires forall i :: 0 <= i < |s.sources| ==> !s.sources[i].counting
    ensures CanLock(s) <==> TripleWaiting(kinds, evs)
  {
    ReachesInv(kinds, n, evs, s);
    History(kinds, n, evs, s);
    if CanLock(s) {
      forall k: nat | k < TYPES ensures |OfKind(SentBy(kinds, evs), k)| > Collections(evs) {
        Surplus(s, k);
        assert s.sems[k] >= 1;
      }
    }
    if TripleWaiting(kinds, evs) {
      forall k | 0 <= k < |s.sems| ensures s.sems[k] >= 1 {
        Surplus(s, k);
        assert |OfKind(SentBy(kinds, evs), k)| > Collections(evs);
      }
    }
  }
}
