/**
 1/solution/libcoro.c over its doubly linked list: the globals, the nodes and the functions that change
 them, each tied to the state machine of Scheduler.dfy and Programs.dfy. What a coroutine's stack holds is
 its remaining body; executing is the context the processor runs.
 */
module LibCoro {
  import opened Options
  import S = Scheduler
  import P = Programs
  import Sums

  // struct coro. ctxCode and ctxLocal: whose code the jump buffer resumes, and the pointer in it.
  class Coro {
    var ret: int
    var isFinished: bool
    var switchCount: nat
    var next: Coro?
    var prev: Coro?
    var ctxCode: Coro?
    var ctxLocal: Coro?
    var rest: Option<P.Body>

    constructor ()
      ensures ret == 0 && !isFinished && switchCount == 0 && rest == None
      ensures next == prev == ctxCode == ctxLocal == null
    {
      ret, isFinished, switchCount, rest := 0, false, 0, None;
      next, prev, ctxCode, ctxLocal := null, null, null, null;
    }
  }

  predicate InRange(list: seq<nat>, n: nat) {
    forall k :: 0 <= k < |list| ==> list[k] < n
  }

  // The nodes with these numbers.
  ghost function Pick(nodes: seq<Coro>, list: seq<nat>): (ns: seq<Coro>)
    requires InRange(list, |nodes|)
  {
    seq(|list|, k requires 0 <= k < |list| => nodes[list[k]])
  }

  lemma PickNew(nodes: seq<Coro>, c: Coro, list: seq<nat>)
    requires InRange(list, |nodes|)
    ensures Pick(nodes + [c], [|nodes|] + list) == [c] + Pick(nodes, list)
  {
  }

  lemma PickDelete(nodes: seq<Coro>, list: seq<nat>, k: nat)
    requires InRange(list, |nodes|) && k < |list|
    ensures InRange(list[..k] + list[k + 1..], |nodes|)
    ensures Pick(nodes, list[..k] + list[k + 1..]) == Pick(nodes, list)[..k] + Pick(nodes, list)[k + 1..]
  {
  }

  lemma {:induction false} NextOfAt(list: seq<nat>, k: nat)
    requires S.Decreasing(list) && k < |list|
    ensures S.NextOf(list, S.Co(list[k])) == if k + 1 < |list| then S.Co(list[k + 1]) else S.Sched
  {
    if k > 0 {
      NextOfAt(list[1..], k - 1);
    }
  }

  function Stored(s: S.State, v: int): S.State
    requires s.cur.Co? && s.cur.id < |s.co|
  {
    s.(co := s.co[s.cur.id := s.co[s.cur.id].(ret := v, finished := true)])
  }

  // What a coroutine that yields relies on.
  ghost predicate Ready(s: S.State) {
    && s.cur.Co? && s.waiting && s.cur == s.thisPtr && s.cur.id in s.list && S.Decreasing(s.list)
    && forall i :: i in s.list ==> i < |s.co| && !s.co[i].finished
  }

  // The heap's view of a state that the program reaches.
  lemma ActFacts(sys: P.System)
    requires P.Reachable(sys) && sys.s.cur.Co?
    ensures P.Running(sys) && Ready(sys.s)
    ensures P.Reachable(P.Act(sys)) && P.Act(sys) == P.Next(sys)
    ensures P.Act(sys).s.harvested == sys.s.harvested && 0 <= P.Work(P.Act(sys)) < P.Work(sys)
  {
    P.ReachableInv(sys);
    P.AlwaysNext(sys);
    P.ReachableNext(sys);
    P.NextDecreases(sys);
  }

  lemma WorkBound(sys: P.System)
    ensures 0 <= P.Work(sys)
  {
    Sums.SumBoundsBelow(P.Remaining, sys.rest);
  }

  lemma WaitFacts(sys: P.System)
    requires P.Reachable(sys) && P.Waiting(sys)
    ensures var n := sys.(s := S.Wait(sys.s));
      P.Reachable(n) && n == P.Next(sys) && P.Work(n) == P.Work(sys)
    ensures var k := S.FirstFinished(sys.s, sys.s.list);
      if k < |sys.s.list| then sys.s.list[k] < |sys.s.co| && S.Wait(sys.s).cur == S.Sched
      else S.Wait(sys.s).cur.Co? && S.Wait(sys.s).harvested == sys.s.harvested
  {
    P.ReachableInv(sys);
    P.ReachableNext(sys);
    S.RoundStarts(sys.s);
  }

  // It has done all that its body does.
  ghost predicate Ended(c: Coro, b: P.Body)
    reads c
  {
    c.isFinished && c.ret == P.ReturnOf(b) && c.switchCount == P.YieldsOf(b)
  }

  // So have all coroutines.
  ghost predicate AllDone(nodes: seq<Coro>, bodies: seq<P.Body>)
    reads nodes
  {
    |bodies| <= |nodes| && forall i :: 0 <= i < |bodies| ==> Ended(nodes[i], bodies[i])
  }

  class Library {
    const sched: Coro
    var coroList: Coro?
    var thisPtr: Coro?
    var isSchedWaiting: bool
    // The branch "no place to return" was taken.
    var failed: bool
    var executing: Coro

    // nodes: every coroutine created, by number. sys: the state machine.
    ghost var nodes: seq<Coro>
    ghost var sys: P.System

    ghost function Obj(c: S.Ctx): Coro
      reads this`nodes
    {
      if c.Co? && c.id < |nodes| then nodes[c.id] else sched
    }

    // The doubly linked list that starts at coroList consists of exactly these nodes.
    ghost predicate Chain(ns: seq<Coro>)
      reads this`coroList, ns`next, ns`prev
    {
      && coroList == (if ns == [] then null else ns[0])
      && (ns != [] ==> ns[0].prev == null && ns[|ns| - 1].next == null)
      && (forall k {:trigger ns[k].next} :: 0 <= k < |ns| - 1 ==> ns[k].next == ns[k + 1])
      && (forall k {:trigger ns[k].prev} :: 1 <= k < |ns| ==> ns[k].prev == ns[k - 1])
      && (forall i, j :: 0 <= i < j < |ns| ==> ns[i] != ns[j])
    }

    // It is the list of the state machine.
    ghost predicate Linked(list: seq<nat>)
      reads this`coroList, this`nodes, nodes`next, nodes`prev
    {
      InRange(list, |nodes|) && Chain(Pick(nodes, list))
    }

    ghost predicate NodeOk(sys: P.System, i: nat)
      reads this`nodes, nodes`ret, nodes`isFinished, nodes`switchCount, nodes`rest, nodes`ctxCode, nodes`ctxLocal
      requires i < |nodes| == |sys.s.co| == |sys.rest|
    {
      var n, c := nodes[i], sys.s.co[i];
      && n.ret == c.ret && n.isFinished == c.finished && n.switchCount == c.switches && n.rest == sys.rest[i]
      && (!c.finished ==> n.ctxCode == n.ctxLocal == n && c.ctx == S.Buf(S.Co(i), S.Co(i)))
    }

    ghost predicate Distinct()
      reads this`nodes
    {
      sched !in nodes && forall i, j :: 0 <= i < j < |nodes| ==> nodes[i] != nodes[j]
    }

    // The scheduler can be resumed.
    ghost predicate SchedSaved(sys: P.System)
      reads sched`ctxCode, sched`ctxLocal
    {
      sched.ctxCode == sched.ctxLocal == sched && sys.s.schedCtx == S.Buf(S.Sched, S.Sched)
    }

    // Everything but the list.
    ghost predicate Matches(sys: P.System)
      reads this`nodes, this`executing, this`thisPtr, this`isSchedWaiting, this`failed
      reads sched`switchCount, sched`next, sched`ctxCode, sched`ctxLocal
      reads nodes`ret, nodes`isFinished, nodes`switchCount, nodes`rest, nodes`ctxCode, nodes`ctxLocal
    {
      && Distinct()
      && |nodes| == |sys.s.co| == |sys.rest|
      && (forall i: nat :: i < |nodes| ==> NodeOk(sys, i))
      && sched.switchCount == sys.s.rounds && sched.next == null
      && (sys.s.cur.Co? ==> SchedSaved(sys))
      && sys.s.cur == sys.s.thisPtr && (sys.s.cur.Co? ==> sys.s.cur.id < |nodes|)
      && executing == Obj(sys.s.cur) && thisPtr == Obj(sys.s.thisPtr)
      && isSchedWaiting == sys.s.waiting && failed == sys.s.failed
    }

    // The heap is what the state machine says.
    ghost predicate Valid()
      reads this, sched, nodes
    {
      Matches(sys) && Linked(sys.s.list)
    }

    // coro_sched_init
    constructor ()
      ensures Valid() && sys == P.EMPTY && fresh(sched) && nodes == []
    {
      var s := new Coro();
      sched, thisPtr, executing := s, s, s;
      coroList := null;
      isSchedWaiting, failed := false, false;
      nodes := [];
      sys := P.EMPTY;
    }

    // Changing next and prev of listed nodes leaves the rest as it is.
    twostate lemma OnlyLinksChanged(sys: P.System)
      requires old(Matches(sys)) && nodes == old(nodes)
      requires executing == old(executing) && thisPtr == old(thisPtr) && isSchedWaiting == old(isSchedWaiting)
      requires failed == old(failed)
      requires sched.switchCount == old(sched.switchCount) && sched.next == old(sched.next)
      requires sched.ctxCode == old(sched.ctxCode) && sched.ctxLocal == old(sched.ctxLocal)
      requires forall i: nat :: i < |nodes| ==>
        var n := nodes[i]; n.ret == old(n.ret) && n.isFinished == old(n.isFinished)
                           && n.switchCount == old(n.switchCount)
                           && n.rest == old(n.rest) && n.ctxCode == old(n.ctxCode) && n.ctxLocal == old(n.ctxLocal)
      ensures Matches(sys)
    {
      forall i: nat | i < |nodes| ensures NodeOk(sys, i) {
        assert old(NodeOk(sys, i));
      }
    }

    // coro_list_add
    method ListAdd(c: Coro, ghost ns: seq<Coro>)
      requires Chain(ns) && c !in ns
      modifies this`coroList, c`next, c`prev, ns`prev
      ensures Chain([c] + ns)
    {
      c.next := coroList;
      c.prev := null;
      if coroList != null {
        coroList.prev := c;
      }
      coroList := c;
    }

    // coro_list_add for the newest coroutine, seen from the state machine
    method AddListed(c: Coro, ghost before: seq<Coro>, ghost list: seq<nat>)
      requires Matches(sys) && nodes == before + [c] && InRange(list, |before|) && Chain(Pick(before, list))
      modifies this`coroList, nodes`next, nodes`prev
      ensures Matches(sys) && Linked([|before|] + list)
    {
      ghost var ns := Pick(before, list);
      PickNew(before, c, list);
      assert nodes[|before|] == c;
      forall k | 0 <= k < |ns| ensures ns[k] in nodes && ns[k] != c {
        assert ns[k] == nodes[list[k]];
      }
      assert forall n :: n in ns ==> n in nodes;
      ListAdd(c, ns);
      OnlyLinksChanged(sys);
    }

    // coro_list_delete
    method ListDelete(c: Coro, ghost k: nat, ghost ns: seq<Coro>)
      requires Chain(ns) && k < |ns| && ns[k] == c
      modifies this`coroList, ns`next, ns`prev
      ensures Chain(ns[..k] + ns[k + 1..])
    {
      var prev, next := c.prev, c.next;
      if prev != null {
        prev.next := next;
      }
      if next != null {
        next.prev := prev;
      }
      if prev == null {
        coroList := next;
      }
      ghost var ms := ns[..k] + ns[k + 1..];
      forall j | 0 <= j < |ms| - 1 ensures ms[j].next == ms[j + 1] {
        assert ms[j] == if j < k then ns[j] else ns[j + 1];
        assert ms[j + 1] == if j + 1 < k then ns[j + 1] else ns[j + 2];
      }
      forall j | 1 <= j < |ms| ensures ms[j].prev == ms[j - 1] {
        assert ms[j] == if j < k then ns[j] else ns[j + 1];
        assert ms[j - 1] == if j - 1 < k then ns[j - 1] else ns[j];
      }
    }

    // The first half of coro_yield_to
    method Save()
      requires Matches(sys)
      modifies this`sys, sched`switchCount, sched`ctxCode, sched`ctxLocal
      modifies nodes`switchCount, nodes`ctxCode, nodes`ctxLocal
      ensures Matches(sys) && SchedSaved(sys) && sys == old(sys.(s := S.Save(sys.s)))
    {
      var from := thisPtr;
      ghost var was := sys;
      from.switchCount := from.switchCount + 1;
      from.ctxCode, from.ctxLocal := executing, from;
      sys := sys.(s := S.Save(sys.s));
      forall i: nat | i < |nodes| ensures NodeOk(sys, i) {
        assert old(NodeOk(was, i));
      }
    }

    // siglongjmp, and what the resumed code does first
    method Jump(to: Coro, ghost target: S.Ctx)
      requires Matches(sys) && to == Obj(target)
      requires target.Co? ==> target.id < |nodes| && !sys.s.co[target.id].finished
      requires SchedSaved(sys)
      modifies this`sys, this`executing, this`thisPtr, this`isSchedWaiting
      ensures Matches(sys) && sys == old(sys.(s := S.Jump(sys.s, target)))
    {
      ghost var was := sys;
      assert target.Co? ==> NodeOk(sys, target.id);
      executing, thisPtr := to.ctxCode, to.ctxLocal;
      if executing == sched {
        isSchedWaiting := false;
      }
      sys := sys.(s := S.Jump(sys.s, target));
      forall i: nat | i < |nodes| ensures NodeOk(sys, i) {
        assert old(NodeOk(was, i));
      }
    }

    // coro_yield_to
    method YieldTo(to: Coro, ghost target: S.Ctx)
      requires Matches(sys) && to == Obj(target)
      requires target.Co? ==> target.id < |nodes| && !sys.s.co[target.id].finished
      modifies this`sys, this`executing, this`thisPtr, this`isSchedWaiting
      modifies sched`switchCount, sched`ctxCode, sched`ctxLocal, nodes`switchCount, nodes`ctxCode, nodes`ctxLocal
      ensures Matches(sys) && sys == old(sys.(s := S.YieldTo(sys.s, target)))
    {
      Save();
      Jump(to, target);
    }

    // The new stack, with the dance in coro_body: it stores its context there and jumps back.
    method Make(b: P.Body) returns (c: Coro)
      requires Matches(sys)
      modifies this`thisPtr
      ensures Matches(sys)
      ensures fresh(c) && c.ret == 0 && !c.isFinished && c.switchCount == 0 && c.rest == Some(b)
      ensures c.ctxCode == c && c.ctxLocal == c
    {
      c := new Coro();
      c.rest := Some(b);
      var oldThis := thisPtr;
      thisPtr := c;
      var local := thisPtr;
      thisPtr := null;
      c.ctxCode, c.ctxLocal := c, local;
      thisPtr := oldThis;
      OnlyLinksChanged(sys);
    }

    // The new coroutine gets the next number.
    ghost method Enroll(c: Coro, b: P.Body)
      requires Matches(sys) && c != sched && c !in nodes
      requires c.ret == 0 && !c.isFinished && c.switchCount == 0 && c.rest == Some(b) && c.ctxCode == c == c.ctxLocal
      modifies this`nodes, this`sys
      ensures Matches(sys) && sys == P.Create(old(sys), b) && nodes == old(nodes) + [c]
    {
      var was := sys;
      nodes := nodes + [c];
      sys := P.Create(sys, b);
      forall i: nat | i < |nodes| ensures NodeOk(sys, i) {
        if i < |was.s.co| { assert old(NodeOk(was, i)); }
      }
    }

    // coro_new
    method New(b: P.Body) returns (c: Coro)
      requires Valid()
      modifies this, nodes`next, nodes`prev
      ensures Valid() && sys == P.Create(old(sys), b)
      ensures fresh(c) && nodes == old(nodes) + [c]
    {
      c := Make(b);
      Enroll(c, b);
      AddListed(c, old(nodes), old(sys.s.list));
    }

    lemma NextAt(list: seq<nat>, k: nat)
      requires Linked(list) && k < |list|
      ensures nodes[list[k]].next == if k + 1 < |list| then nodes[list[k + 1]] else null
    {
      var ns := Pick(nodes, list);
      assert ns[k] == nodes[list[k]];
    }

    // The next field of a listed node, by number.
    lemma NextNode(list: seq<nat>, c: nat)
      requires Linked(list) && S.Decreasing(list) && c in list
      ensures match S.NextOf(list, S.Co(c))
        case Sched => nodes[c].next == null
        case Co(n) => n in list && nodes[c].next == nodes[n]
    {
      var k: nat :| k < |list| && list[k] == c;
      NextOfAt(list, k);
      NextAt(list, k);
    }

    // Where a yield goes.
    lemma Successor() returns (target: S.Ctx)
      requires Valid() && Ready(sys.s)
      ensures target == S.NextOf(sys.s.list, sys.s.thisPtr) && thisPtr != null
      ensures thisPtr.next == if target == S.Sched then null else Obj(target)
      ensures target.Co? ==> target.id < |nodes| && !sys.s.co[target.id].finished
    {
      target := S.NextOf(sys.s.list, sys.s.thisPtr);
      NextNode(sys.s.list, sys.s.cur.id);
    }

    // coro_yield
    method Yield()
      requires Valid() && Ready(sys.s)
      modifies this`sys, this`executing, this`thisPtr, this`isSchedWaiting
      modifies sched`switchCount, sched`ctxCode, sched`ctxLocal, nodes`switchCount, nodes`ctxCode, nodes`ctxLocal
      ensures Valid() && sys == old(sys.(s := S.Yield(sys.s)))
    {
      hide Ready, S.NextOf;
      ghost var target := Successor();
      var from := thisPtr;
      var to := from.next;
      if to == null {
        YieldTo(sched, target);
      } else {
        YieldTo(to, target);
      }
    }

    // The end of coro_body: the result is stored
    method StoreResult(v: int)
      requires Matches(sys) && sys.s.cur.Co?
      modifies this`sys, nodes`ret, nodes`isFinished
      ensures Matches(sys) && sys == old(sys.(s := Stored(sys.s, v)))
    {
      var c := executing;
      ghost var was := sys;
      c.ret := v;
      c.isFinished := true;
      sys := sys.(s := Stored(sys.s, v));
      forall i: nat | i < |nodes| ensures NodeOk(sys, i) {
        assert old(NodeOk(was, i));
      }
    }

    // Its branch "no place to return"
    method Fail()
      requires Matches(sys)
      modifies this`sys, this`failed
      ensures Matches(sys) && sys == old(sys.(s := sys.s.(failed := true)))
    {
      ghost var was := sys;
      failed := true;
      sys := sys.(s := sys.s.(failed := true));
      forall i: nat | i < |nodes| ensures NodeOk(sys, i) {
        assert old(NodeOk(was, i));
      }
    }

    // The end of coro_body
    method Return(v: int)
      requires Valid() && sys.s.cur.Co?
      modifies this`sys, this`executing, this`thisPtr, this`isSchedWaiting, this`failed, nodes`ret, nodes`isFinished
      ensures Valid() && sys == old(sys.(s := S.Return(sys.s, v)))
    {
      StoreResult(v);
      if !isSchedWaiting {
        Fail();
      } else {
        Jump(sched, S.Sched);
      }
    }

    // The executing code goes past one action.
    method Advance(r: Option<P.Body>)
      requires Matches(sys) && sys.s.cur.Co?
      modifies this`sys, nodes`rest
      ensures Matches(sys) && sys == old(sys.(rest := sys.rest[sys.s.cur.id := r]))
    {
      ghost var was := sys;
      executing.rest := r;
      sys := sys.(rest := sys.rest[sys.s.cur.id := r]);
      forall i: nat | i < |nodes| ensures NodeOk(sys, i) {
        assert old(NodeOk(was, i));
      }
    }

    // Only new coroutines were added.
    twostate predicate Grown()
      reads this`nodes
    {
      old(nodes) <= nodes && forall i :: |old(nodes)| <= i < |nodes| ==> fresh(nodes[i])
    }

    // One action of the coroutine that executes.
    method RunAction()
      requires Valid() && P.Running(sys) && Ready(sys.s)
      modifies this, sched, nodes
      ensures Valid() && sys == P.Act(old(sys))
      ensures Grown()
    {
      assert NodeOk(sys, sys.s.cur.id);
      match executing.rest
      case Some(Return(v)) =>
        Advance(None);
        Return(v);
      case Some(Yield(k)) =>
        Advance(Some(k));
        Yield();
      case Some(Spawn(b, k)) =>
        Advance(Some(k));
        var _ := New(b);
    }

    // The scan in coro_sched_wait
    method Scan() returns (c: Coro?)
      requires Valid()
      ensures c == null <==> S.FirstFinished(sys.s, sys.s.list) == |sys.s.list|
      ensures c != null ==>
        var i := sys.s.list[S.FirstFinished(sys.s, sys.s.list)];
        i < |nodes| && c == nodes[i] && c.isFinished
    {
      ghost var list, k := sys.s.list, 0;
      c := coroList;
      while c != null
        invariant k <= |list| && (c == null <==> k == |list|)
        invariant c != null ==> list[k] < |nodes| && c == nodes[list[k]]
        invariant k <= S.FirstFinished(sys.s, list)
        decreases |list| - k
      {
        assert NodeOk(sys, list[k]);
        if c.isFinished {
          return;
        }
        NextAt(list, k);
        c := c.next;
        k := k + 1;
      }
    }

    // The state machine's list changes with the heap's.
    ghost method Relist(list: seq<nat>, harvested: seq<nat>)
      requires Matches(sys)
      modifies this`sys
      ensures Matches(sys) && sys == old(sys.(s := sys.s.(list := list, harvested := harvested)))
    {
      ghost var was := sys;
      sys := sys.(s := sys.s.(list := list, harvested := harvested));
      forall i: nat | i < |nodes| ensures NodeOk(sys, i) {
        assert old(NodeOk(was, i));
      }
    }

    // coro_list_delete, seen from the state machine
    method DeleteListed(c: Coro, ghost k: nat, ghost list: seq<nat>)
      requires Matches(sys) && Linked(list) && k < |list| && c == nodes[list[k]]
      modifies this`coroList, nodes`next, nodes`prev
      ensures Matches(sys) && Linked(list[..k] + list[k + 1..])
    {
      ListDelete(c, k, Pick(nodes, list));
      OnlyLinksChanged(sys);
      PickDelete(nodes, list, k);
    }

    // coro_sched_wait: a finished coroutine is taken off the list
    method Harvest(c: Coro, ghost k: nat)
      requires Valid() && k < |sys.s.list| && k == S.FirstFinished(sys.s, sys.s.list) && c == nodes[sys.s.list[k]]
      modifies this`sys, this`coroList, nodes`next, nodes`prev
      ensures Valid() && sys == old(sys.(s := S.Wait(sys.s)))
    {
      hide S.FirstFinished, S.YieldTo;
      ghost var list := sys.s.list;
      DeleteListed(c, k, list);
      Relist(list[..k] + list[k + 1..], sys.s.harvested + [list[k]]);
    }

    // coro_sched_wait: the scheduler is about to wait
    method Raise()
      requires Matches(sys)
      modifies this`sys, this`isSchedWaiting
      ensures Matches(sys) && sys == old(sys.(s := sys.s.(waiting := true)))
    {
      ghost var was := sys;
      isSchedWaiting := true;
      sys := sys.(s := sys.s.(waiting := true));
      forall i: nat | i < |nodes| ensures NodeOk(sys, i) {
        assert old(NodeOk(was, i));
      }
    }

    // coro_sched_wait: nobody has finished, so the head of the list runs
    method StartRound()
      requires Valid() && sys.s.cur == S.Sched && coroList != null
      requires S.FirstFinished(sys.s, sys.s.list) == |sys.s.list|
      modifies this`sys, this`executing, this`thisPtr, this`isSchedWaiting
      modifies sched`switchCount, sched`ctxCode, sched`ctxLocal, nodes`switchCount, nodes`ctxCode, nodes`ctxLocal
      ensures Valid() && sys == old(sys.(s := S.Wait(sys.s)))
    {
      Raise();
      YieldTo(coroList, S.Co(sys.s.list[0]));
    }

    // What the loops below test.
    lemma Tests()
      requires Valid()
      ensures executing == sched <==> sys.s.cur == S.Sched
      ensures coroList == null <==> sys.s.list == []
    {
    }

    lemma Node(i: nat)
      requires Valid() && i < |sys.s.co|
      ensures i < |nodes| && nodes[i].ret == sys.s.co[i].ret && nodes[i].isFinished == sys.s.co[i].finished
      ensures nodes[i].switchCount == sys.s.co[i].switches
    {
      assert NodeOk(sys, i);
    }

    lemma AllEnded(bodies: seq<P.Body>)
      requires Valid() && P.Inv(P.CreateAll(P.EMPTY, bodies)) && sys == P.RunAll(P.CreateAll(P.EMPTY, bodies))
      ensures AllDone(nodes, sys.bodies)
    {
      hide Valid, P.Inv, P.RunAll, P.CreateAll, P.ReturnOf, P.YieldsOf;
      forall i: nat | i < |sys.bodies| ensures i < |nodes| && Ended(nodes[i], sys.bodies[i]) {
        P.HarvestComplete(bodies, i);
        Node(i);
      }
      P.HarvestComplete(bodies, 0);
      if sys.bodies != [] { Node(|sys.bodies| - 1); }
    }

    // The coroutines run until one resumes the scheduler.
    method RunCoroutines() returns (ghost n: nat)
      requires Valid() && P.Reachable(sys)
      modifies this, sched, nodes
      ensures Valid() && P.Reachable(sys) && sys.s.cur == S.Sched
      ensures sys == P.Steps(old(sys), n) && sys.s.harvested == old(sys.s.harvested)
      ensures 0 <= P.Work(sys) <= old(P.Work(sys)) && (old(sys.s.cur.Co?) ==> P.Work(sys) < old(P.Work(sys)))
      ensures Grown()
    {
      hide Valid, Ready, P.Reachable, P.Running, P.Act, P.Next, P.Work;
      n := 0;
      Tests();
      WorkBound(sys);
      while executing != sched
        invariant Valid() && P.Reachable(sys) && (executing == sched <==> sys.s.cur == S.Sched)
        invariant sys == P.Steps(old(sys), n) && sys.s.harvested == old(sys.s.harvested)
        invariant 0 <= P.Work(sys) && (P.Work(sys) < old(P.Work(sys)) || sys == old(sys))
        invariant Grown()
        decreases P.Work(sys)
      {
        ActFacts(sys);
        P.StepsNext(old(sys), n);
        RunAction();
        n := n + 1;
        Tests();
      }
    }

    /** coro_sched_wait, called in the scheduler's context: it returns the next finished coroutine of the
        harvest, and NULL only when none is left. */
    method SchedWait() returns (c: Coro?, ghost n: nat)
      requires Valid() && P.Reachable(sys) && sys.s.cur == S.Sched
      modifies this, sched, nodes
      ensures Valid() && P.Reachable(sys) && sys.s.cur == S.Sched
      ensures sys == P.Steps(old(sys), n)
      ensures 0 <= P.Work(sys) <= old(P.Work(sys))
      ensures c != null && P.Work(sys) == old(P.Work(sys)) ==> |sys.s.list| < |old(sys.s.list)|
      ensures if c == null then P.Over(sys) && sys.s.harvested == old(sys.s.harvested)
        else exists i: nat :: i < |nodes| && c == nodes[i] && c.isFinished
                              && sys.s.harvested == old(sys.s.harvested) + [i]
      ensures Grown()
    {
      hide Valid, P.Reachable, P.Next, P.Work, S.FirstFinished, S.YieldTo;
      n := 0;
      Tests();
      WorkBound(sys);
      while coroList != null
        invariant Valid() && P.Reachable(sys) && sys.s.cur == S.Sched && (coroList == null <==> sys.s.list == [])
        invariant sys == P.Steps(old(sys), n) && sys.s.harvested == old(sys.s.harvested)
        invariant 0 <= P.Work(sys) && (P.Work(sys) < old(P.Work(sys)) || sys == old(sys))
        invariant Grown()
        decreases P.Work(sys)
      {
        WaitFacts(sys);
        P.StepsNext(old(sys), n);
        c := Scan();
        n := n + 1;
        if c != null {
          Harvest(c, S.FirstFinished(sys.s, sys.s.list));
          return;
        }
        StartRound();
        ghost var m := RunCoroutines();
        P.StepsAdd(old(sys), n, m);
        n := n + m;
        Tests();
      }
      c := null;
    }

    /** The main program's loop over coro_sched_wait reaches the end of the run. */
    method WaitAll()
      requires Valid() && P.Reachable(sys) && sys.s.cur == S.Sched
      modifies this, sched, nodes
      ensures Valid() && P.Inv(old(sys)) && sys == P.RunAll(old(sys))
      ensures Grown()
    {
      hide Valid, P.Reachable, P.Work, P.Inv, P.Steps, P.RunAll;
      var c: Coro?;
      ghost var n: nat, m: nat;
      c, n := SchedWait();
      while c != null
        invariant Valid() && P.Reachable(sys) && sys.s.cur == S.Sched
        invariant sys == P.Steps(old(sys), n) && 0 <= P.Work(sys) && (c == null ==> P.Over(sys))
        invariant Grown()
        decreases c != null, P.Work(sys), |sys.s.list|
      {
        c, m := SchedWait();
        P.StepsAdd(old(sys), n, m);
        n := n + m;
      }
      P.Outcome(old(sys), n);
    }
  }

  /** A main program: coro_sched_init, a coro_new for each body, the loop over coro_sched_wait. The heap ends
      as the state machine says. */
  method Program(bodies: seq<P.Body>) returns (lib: Library)
    ensures fresh(lib) && lib.Valid()
    ensures P.Inv(P.CreateAll(P.EMPTY, bodies)) && lib.sys == P.RunAll(P.CreateAll(P.EMPTY, bodies))
    ensures lib.coroList == null && AllDone(lib.nodes, lib.sys.bodies)
    ensures bodies <= lib.sys.bodies && multiset(lib.sys.bodies) == P.Families(bodies)
  {
    hide AllDone, P.Create, P.Reachable, P.Inv, P.RunAll;
    lib := new Library();
    var i := 0;
    while i < |bodies|
      invariant i <= |bodies| && lib.Valid() && lib.sys == P.CreateAll(P.EMPTY, bodies[..i])
      invariant fresh(lib) && fresh(lib.sched) && fresh(lib.nodes)
    {
      P.CreateAllNext(P.EMPTY, bodies[..i], bodies[i]);
      assert bodies[..i] + [bodies[i]] == bodies[..i + 1];
      var _ := lib.New(bodies[i]);
      i := i + 1;
    }
    assert bodies[..i] == bodies;
    P.Created(bodies);
    lib.WaitAll();
    lib.Tests();
    lib.AllEnded(bodies);
    P.HarvestComplete(bodies, 0);
    P.FamilyComplete(bodies);
  }
}
