/**
 The scheduler with coroutine bodies that make finitely many yields and spawns: it harvests every
 coroutine exactly once, with its body's return value, and comes to an end.
 */
module Programs {
  import opened Options
  import opened Sums
  import opened Scheduler

  // What a body still does to the library; work in between leaves no trace there.
  datatype Body = Return(ret: int) | Yield(rest: Body) | Spawn(child: Body, rest: Body)

  // rest[i]: the saved continuation of coroutine i, None once it has returned. bodies: history, what each
  // was created with.
  datatype System = System(s: State, rest: seq<Option<Body>>, bodies: seq<Body>)

  function Create(sys: System, b: Body): System {
    System(New(sys.s), sys.rest + [Some(b)], sys.bodies + [b])
  }

  predicate Running(sys: System) {
    sys.s.cur.Co? && sys.s.cur.id < |sys.rest| && sys.rest[sys.s.cur.id].Some?
  }

  // The executing coroutine's next action.
  function Act(sys: System): System
    requires Running(sys)
  {
    var c := sys.s.cur.id;
    match sys.rest[c].value
    case Return(v) => System(Scheduler.Return(sys.s, v), sys.rest[c := None], sys.bodies)
    case Yield(k) => System(Scheduler.Yield(sys.s), sys.rest[c := Some(k)], sys.bodies)
    case Spawn(b, k) => Create(sys.(rest := sys.rest[c := Some(k)]), b)
  }

  predicate Waiting(sys: System) {
    sys.s.cur == Sched && sys.s.list != []
  }

  function Next(sys: System): System
    requires Waiting(sys) || Running(sys)
  {
    if Running(sys) then Act(sys) else sys.(s := Wait(sys.s))
  }

  // ---- The invariant

  function ReturnOf(b: Body): int {
    match b case Return(v) => v case Yield(k) => ReturnOf(k) case Spawn(_, k) => ReturnOf(k)
  }

  function YieldsOf(b: Body): nat {
    match b case Return(_) => 0 case Yield(k) => 1 + YieldsOf(k) case Spawn(_, k) => YieldsOf(k)
  }

  function Size(b: Body): nat {
    match b case Return(_) => 1 case Yield(k) => 1 + Size(k) case Spawn(c, k) => 1 + Size(c) + Size(k)
  }

  function Remaining(r: Option<Body>): int {
    if r.Some? then Size(r.value) else 0
  }

  ghost predicate BodyInv(sys: System, i: nat)
    requires i < |sys.s.co| == |sys.rest| == |sys.bodies|
  {
    var c, r, b := sys.s.co[i], sys.rest[i], sys.bodies[i];
    && (r.None? <==> c.finished)
    && (if r.Some? then ReturnOf(r.value) == ReturnOf(b) && c.switches + YieldsOf(r.value) == YieldsOf(b)
        else c.ret == ReturnOf(b) && c.switches == YieldsOf(b))
  }

  ghost predicate Inv(sys: System) {
    && Scheduler.Inv(sys.s)
    && |sys.s.co| == |sys.rest| == |sys.bodies|
    && forall i: nat :: i < |sys.s.co| ==> BodyInv(sys, i)
  }

  lemma CreateInv(sys: System, b: Body)
    requires Inv(sys)
    ensures Inv(Create(sys, b))
  {
    NewInv(sys.s);
    var sys' := Create(sys, b);
    forall i: nat | i < |sys'.s.co| ensures BodyInv(sys', i) {
      if i < |sys.s.co| { assert BodyInv(sys, i); }
    }
  }

  // Somebody can always go on, and whoever executes has a continuation.
  lemma AlwaysNext(sys: System)
    requires Inv(sys)
    ensures sys.s.cur.Co? ==> Running(sys)
    ensures Waiting(sys) || Running(sys) || (sys.s.cur == Sched && sys.s.list == [])
  {
    if sys.s.cur.Co? { assert BodyInv(sys, sys.s.cur.id); }
  }

  lemma ActInv(sys: System)
    requires Inv(sys) && Running(sys)
    ensures Inv(Act(sys))
  {
    var sys', c := Act(sys), sys.s.cur.id;
    assert BodyInv(sys, c);
    match sys.rest[c].value
    case Return(v) =>
      ReturnInv(sys.s, v);
      forall i: nat | i < |sys'.s.co| ensures BodyInv(sys', i) { assert BodyInv(sys, i); }
    case Yield(k) =>
      YieldInv(sys.s);
      forall i: nat | i < |sys'.s.co| ensures BodyInv(sys', i) { assert BodyInv(sys, i); }
    case Spawn(b, k) =>
      var m := sys.(rest := sys.rest[c := Some(k)]);
      forall i: nat | i < |m.s.co| ensures BodyInv(m, i) { assert BodyInv(sys, i); }
      CreateInv(m, b);
  }

  lemma NextInv(sys: System)
    requires Inv(sys) && (Waiting(sys) || Running(sys))
    ensures Inv(Next(sys))
  {
    if Running(sys) {
      ActInv(sys);
    } else {
      WaitInv(sys.s);
      var sys' := Next(sys);
      assert sys'.s.co == sys.s.co;
      forall i: nat | i < |sys'.s.co| ensures BodyInv(sys', i) { assert BodyInv(sys, i); }
    }
  }

  // ---- Termination: fewer actions, or as many with a shorter list, or a round begins

  function Work(sys: System): int {
    Sum(Remaining, sys.rest)
  }

  function Idle(sys: System): nat { if sys.s.cur == Sched then 1 else 0 }

  lemma NextDecreases(sys: System)
    requires Inv(sys) && (Waiting(sys) || Running(sys))
    ensures 0 <= Work(Next(sys)) <= Work(sys)
    ensures Work(Next(sys)) == Work(sys) ==> |Next(sys).s.list| <= |sys.s.list|
    ensures Work(Next(sys)) == Work(sys) && |Next(sys).s.list| == |sys.s.list| ==> Idle(Next(sys)) < Idle(sys)
  {
    var n := Next(sys);
    SumBoundsBelow(Remaining, n.rest);
    if Running(sys) {
      var c := sys.s.cur.id;
      var r := match sys.rest[c].value case Return(_) => None case Yield(k) => Some(k) case Spawn(_, k) => Some(k);
      SumUpdate(Remaining, sys.rest, c, r);
      if sys.rest[c].value.Spawn? {
        SumConcat(Remaining, sys.rest[c := r], [Some(sys.rest[c].value.child)]);
      }
    } else {
      NextInv(sys);
      RoundStarts(sys.s);
    }
  }

  predicate Over(sys: System) {
    sys.s.cur == Sched && sys.s.list == []
  }

  // The main program: for (; (c = coro_sched_wait()) != NULL;) {}
  ghost function RunAll(sys: System): (sys': System)
    requires Inv(sys)
    ensures Inv(sys') && Over(sys')
    decreases Work(sys), |sys.s.list|, Idle(sys)
  {
    AlwaysNext(sys);
    if Over(sys) then sys
    else
      NextInv(sys);
      NextDecreases(sys);
      RunAll(Next(sys))
  }

  lemma NextKeepsBodies(sys: System)
    requires Waiting(sys) || Running(sys)
    ensures sys.bodies <= Next(sys).bodies
  {
  }

  lemma {:induction false} RunAllKeepsBodies(sys: System)
    requires Inv(sys)
    ensures sys.bodies <= RunAll(sys).bodies
    decreases Work(sys), |sys.s.list|, Idle(sys)
  {
    hide Inv, Next;
    AlwaysNext(sys);
    if !Over(sys) {
      NextInv(sys);
      NextDecreases(sys);
      NextKeepsBodies(sys);
      RunAllKeepsBodies(Next(sys));
    }
  }

  function CreateAll(sys: System, bs: seq<Body>): System
    decreases |bs|
  {
    if bs == [] then sys else CreateAll(Create(sys, bs[0]), bs[1..])
  }

  const EMPTY := System(INITIAL, [], [])

  lemma {:induction false} CreateAllNext(sys: System, bs: seq<Body>, b: Body)
    ensures CreateAll(sys, bs + [b]) == Create(CreateAll(sys, bs), b)
    decreases |bs|
  {
    hide Create;
    if bs == [] {
      assert (bs + [b])[1..] == [];
    } else {
      CreateAllNext(Create(sys, bs[0]), bs[1..], b);
      assert (bs + [b])[1..] == bs[1..] + [b];
    }
  }

  lemma {:induction false} CreateAllKeepsCur(sys: System, bs: seq<Body>)
    ensures CreateAll(sys, bs).s.cur == sys.s.cur
    decreases |bs|
  {
    if bs != [] { CreateAllKeepsCur(Create(sys, bs[0]), bs[1..]); }
  }

  // ---- Reachable states

  function Steps(sys: System, n: nat): System
    decreases n
  {
    if n == 0 || !(Waiting(sys) || Running(sys)) then sys else Steps(Next(sys), n - 1)
  }

  ghost predicate Reachable(sys: System) {
    exists bs: seq<Body>, n: nat :: sys == Steps(CreateAll(EMPTY, bs), n)
  }

  lemma Created(bs: seq<Body>)
    ensures Reachable(CreateAll(EMPTY, bs)) && CreateAll(EMPTY, bs).s.cur == Sched
  {
    CreateAllKeepsCur(EMPTY, bs);
    assert Steps(CreateAll(EMPTY, bs), 0) == CreateAll(EMPTY, bs);
  }

  lemma {:induction false} StepsNext(sys: System, n: nat)
    requires Waiting(Steps(sys, n)) || Running(Steps(sys, n))
    ensures Steps(sys, n + 1) == Next(Steps(sys, n))
    decreases n
  {
    hide Next, Running;
    if n > 0 { StepsNext(Next(sys), n - 1); }
  }

  lemma {:induction false} StepsAdd(sys: System, n: nat, m: nat)
    ensures Steps(sys, n + m) == Steps(Steps(sys, n), m)
    decreases n
  {
    hide Next, Running;
    if n > 0 && (Waiting(sys) || Running(sys)) { StepsAdd(Next(sys), n - 1, m); }
  }

  lemma {:induction false} StepsInv(sys: System, n: nat)
    requires Inv(sys)
    ensures Inv(Steps(sys, n))
    decreases n
  {
    hide Inv, Next, Waiting, Running;
    if n > 0 && (Waiting(sys) || Running(sys)) {
      NextInv(sys);
      StepsInv(Next(sys), n - 1);
    }
  }

  lemma ReachableInv(sys: System)
    requires Reachable(sys)
    ensures Inv(sys)
  {
    var bs: seq<Body>, n: nat :| sys == Steps(CreateAll(EMPTY, bs), n);
    CreateAllInv(EMPTY, bs);
    StepsInv(CreateAll(EMPTY, bs), n);
  }

  lemma ReachableNext(sys: System)
    requires Reachable(sys) && (Waiting(sys) || Running(sys))
    ensures Reachable(Next(sys))
  {
    var bs: seq<Body>, n: nat :| sys == Steps(CreateAll(EMPTY, bs), n);
    StepsNext(CreateAll(EMPTY, bs), n);
  }

  lemma Outcome(sys: System, n: nat)
    requires Reachable(sys) && Over(Steps(sys, n))
    ensures Inv(sys) && Steps(sys, n) == RunAll(sys)
  {
    ReachableInv(sys);
    StepsToTheEnd(sys, n);
  }

  // Whoever gets to the end gets to the end of the run.
  lemma {:induction false} StepsToTheEnd(sys: System, n: nat)
    requires Inv(sys) && Over(Steps(sys, n))
    ensures Steps(sys, n) == RunAll(sys)
    decreases n
  {
    hide Inv, Next;
    AlwaysNext(sys);
    if !Over(sys) {
      NextInv(sys);
      StepsToTheEnd(Next(sys), n - 1);
    }
  }

  lemma {:induction false} CreateAllInv(sys: System, bs: seq<Body>)
    requires Inv(sys)
    ensures Inv(CreateAll(sys, bs)) && CreateAll(sys, bs).bodies == sys.bodies + bs
    decreases |bs|
  {
    if bs != [] {
      CreateInv(sys, bs[0]);
      CreateAllInv(Create(sys, bs[0]), bs[1..]);
      assert sys.bodies + bs == sys.bodies + [bs[0]] + bs[1..];
    }
  }

  // ---- Main result

  /** Any number of coroutines, whatever they spawn: the main loop ends; then the returned coroutines are all
      that were ever created, each exactly once, each finished with its body's return value, and each
      reports exactly the yields its body makes. */
  lemma HarvestComplete(bs: seq<Body>, i: nat)
    ensures Inv(CreateAll(EMPTY, bs))
    ensures var e := RunAll(CreateAll(EMPTY, bs));
      && bs <= e.bodies && |e.s.co| == |e.bodies|
      && (forall a, b :: 0 <= a < b < |e.s.harvested| ==> e.s.harvested[a] != e.s.harvested[b])
      && (i < |e.s.co| <==> i in e.s.harvested)
      && (i < |e.s.co| ==> e.s.co[i].finished && e.s.co[i].ret == ReturnOf(e.bodies[i])
                           && e.s.co[i].switches == YieldsOf(e.bodies[i]))
  {
    assert Inv(EMPTY);
    CreateAllInv(EMPTY, bs);
    var sys := CreateAll(EMPTY, bs);
    assert sys.bodies == bs;
    RunAllKeepsBodies(sys);
    var e := RunAll(sys);
    if i < |e.s.co| { assert BodyInv(e, i) && i in e.s.harvested; }
  }

  // ---- The coroutines that come into being

  // What a body will spawn, and what those will spawn, and so on.
  function Offspring(b: Body): multiset<Body> {
    match b
    case Return(_) => multiset{}
    case Yield(k) => Offspring(k)
    case Spawn(c, k) => multiset{c} + Offspring(c) + Offspring(k)
  }

  function Pending(r: Option<Body>): multiset<Body> {
    if r.Some? then Offspring(r.value) else multiset{}
  }

  function Unborn(rest: seq<Option<Body>>): multiset<Body> {
    if rest == [] then multiset{} else Pending(rest[0]) + Unborn(rest[1..])
  }

  // Bodies with all their offspring.
  function Families(bs: seq<Body>): multiset<Body> {
    if bs == [] then multiset{} else multiset{bs[0]} + Offspring(bs[0]) + Families(bs[1..])
  }

  function Family(sys: System): multiset<Body> {
    multiset(sys.bodies) + Unborn(sys.rest)
  }

  lemma Exchange(a: multiset<Body>, b: multiset<Body>, c: multiset<Body>)
    ensures a + b + c == c + b + a && a + b + c == a + c + b
  {
  }

  lemma {:induction false} UnbornUpdate(rest: seq<Option<Body>>, i: nat, r: Option<Body>)
    requires i < |rest|
    ensures Unborn(rest[i := r]) + Pending(rest[i]) == Unborn(rest) + Pending(r)
  {
    hide Pending;
    if i == 0 {
      assert rest[0 := r][1..] == rest[1..];
      Exchange(Pending(r), Unborn(rest[1..]), Pending(rest[0]));
    } else {
      assert rest[i := r][1..] == rest[1..][i - 1 := r];
      UnbornUpdate(rest[1..], i - 1, r);
      Shift(Pending(rest[0]), Unborn(rest[1..][i - 1 := r]), Pending(rest[i]));
      Shift(Pending(rest[0]), Unborn(rest[1..]), Pending(r));
    }
  }

  lemma Shift(a: multiset<Body>, b: multiset<Body>, c: multiset<Body>)
    ensures a + b + c == a + (b + c)
  {
  }

  lemma {:induction false} UnbornSnoc(rest: seq<Option<Body>>, r: Option<Body>)
    ensures Unborn(rest + [r]) == Unborn(rest) + Pending(r)
  {
    if rest == [] {
      assert (rest + [r])[1..] == [];
    } else {
      assert (rest + [r])[1..] == rest[1..] + [r];
      UnbornSnoc(rest[1..], r);
    }
  }

  lemma {:induction false} NothingUnborn(rest: seq<Option<Body>>)
    requires forall i :: 0 <= i < |rest| ==> rest[i] == None
    ensures Unborn(rest) == multiset{}
  {
    if rest != [] { NothingUnborn(rest[1..]); }
  }

  lemma CreateFamily(sys: System, b: Body)
    ensures Family(Create(sys, b)) == Family(sys) + multiset{b} + Offspring(b)
  {
    UnbornSnoc(sys.rest, Some(b));
  }

  // A continuation moves on: what it no longer owes has been born.
  lemma Moves(rest: seq<Option<Body>>, i: nat, r: Option<Body>, born: multiset<Body>)
    requires i < |rest| && Pending(rest[i]) == born + Pending(r)
    ensures Unborn(rest[i := r]) + born == Unborn(rest)
  {
    UnbornUpdate(rest, i, r);
    Cancel(Unborn(rest[i := r]) + born, Unborn(rest), Pending(r));
  }

  lemma Cancel(a: multiset<Body>, b: multiset<Body>, c: multiset<Body>)
    requires a + c == b + c
    ensures a == b
  {
    forall x ensures a[x] == b[x] { assert (a + c)[x] == (b + c)[x]; }
  }

  lemma NextFamily(sys: System)
    requires Waiting(sys) || Running(sys)
    ensures Family(Next(sys)) == Family(sys)
  {
    hide Unborn;
    if Running(sys) {
      var c := sys.s.cur.id;
      match sys.rest[c].value
      case Return(_) => Moves(sys.rest, c, None, multiset{});
      case Yield(k) => Moves(sys.rest, c, Some(k), multiset{});
      case Spawn(b, k) =>
        Moves(sys.rest, c, Some(k), multiset{b} + Offspring(b));
        CreateFamily(sys.(rest := sys.rest[c := Some(k)]), b);
    }
  }

  lemma {:induction false} RunAllFamily(sys: System)
    requires Inv(sys)
    ensures Family(RunAll(sys)) == Family(sys)
    decreases Work(sys), |sys.s.list|, Idle(sys)
  {
    hide Inv, Next, Family;
    AlwaysNext(sys);
    if !Over(sys) {
      NextInv(sys);
      NextDecreases(sys);
      NextFamily(sys);
      RunAllFamily(Next(sys));
    }
  }

  lemma {:induction false} CreateAllFamily(sys: System, bs: seq<Body>)
    ensures Family(CreateAll(sys, bs)) == Family(sys) + Families(bs)
    decreases |bs|
  {
    hide Create, Family;
    if bs != [] {
      CreateFamily(sys, bs[0]);
      CreateAllFamily(Create(sys, bs[0]), bs[1..]);
    }
  }

  /** The coroutines that come into being are exactly those that the main program creates, with all their
      offspring: none is missing and there is no other. */
  lemma FamilyComplete(bs: seq<Body>)
    ensures Inv(CreateAll(EMPTY, bs))
    ensures multiset(RunAll(CreateAll(EMPTY, bs)).bodies) == Families(bs)
  {
    hide CreateAll, RunAll, Families, Inv, Unborn, Family;
    AllReturned(bs);
    CreateAllFamily(EMPTY, bs);
    RunAllFamily(CreateAll(EMPTY, bs));
    NobodyYet();
    FamilyBorn(RunAll(CreateAll(EMPTY, bs)));
    assert multiset{} + Families(bs) == Families(bs);
  }

  lemma NobodyYet()
    ensures Family(EMPTY) == multiset{}
  {
  }

  lemma FamilyBorn(sys: System)
    requires Unborn(sys.rest) == multiset{}
    ensures Family(sys) == multiset(sys.bodies)
  {
  }

  lemma AllReturned(bs: seq<Body>)
    ensures Inv(CreateAll(EMPTY, bs)) && Unborn(RunAll(CreateAll(EMPTY, bs)).rest) == multiset{}
  {
    CreateAllInv(EMPTY, bs);
    var e := RunAll(CreateAll(EMPTY, bs));
    forall i: nat | i < |e.rest| ensures e.rest[i] == None {
      HarvestComplete(bs, i);
      assert BodyInv(e, i);
    }
    NothingUnborn(e.rest);
  }
}
