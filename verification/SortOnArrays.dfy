/**
 The program of 1/solution/solution.c with its data in real arrays: what a coroutine does between two
 yields calls read_file and the merge of me_mergesort as MergeSort.dfy has them, and is a step of Pool.dfy.
 */
module SortOnArrays {
  import opened Integers
  import opened MergeSort
  import opened Options
  import K = KWayMerge
  import M = SortMain
  import P = Pool
  import S = Scheduler

  // The locals of a coroutine: it is about to call get_file, or it is in me_mergesort, or it has left its loop.
  datatype Frame = Claiming | Sorting(file: nat, rhs: int32, currSize: int32, leftStart: int32) | Exited

  // What a step works on.
  datatype Place = Place(coro: nat, file: nat)

  class Memory {
    // The content of each file, and what main allocates: numbers, and processed of each coro_file.
    const inputs: seq<seq<int>>
    var numbers: seq<array?<int>>
    var processed: seq<bool>
    // Of each coroutine: its locals, its switch_count, and that of its coro_args.
    var frames: seq<Frame>
    var switches: seq<nat>
    var reported: seq<nat>
    // read_file has ended the program.
    var aborted: bool

    // The pool's state machine.
    ghost var p: P.State

    ghost predicate FileOk(f: nat)
      reads this, numbers
      requires f < |inputs| == |numbers| == |processed| == |p.files|
    {
      && p.files[f].input == inputs[f] && p.files[f].processed == processed[f] && |inputs[f]| < LIMIT
      && p.files[f].row == (if numbers[f] == null then [] else numbers[f][..])
      && (!processed[f] ==> numbers[f] == null)
    }

    ghost predicate Distinct()
      reads this
    {
      forall f, g :: 0 <= f < g < |numbers| && numbers[f] != null ==> numbers[f] != numbers[g]
    }

    ghost predicate FrameOk(c: nat)
      reads this
      requires c < |frames| == |switches| == |reported| == |p.ws|
    {
      && p.ws[c].switches == switches[c] && p.ws[c].reported == reported[c]
      && (frames[c].Claiming? <==> p.ws[c].pc.Claiming?)
      && (frames[c].Exited? <==> p.ws[c].pc.Exited?)
      && (frames[c].Sorting? ==>
            var f := frames[c];
            && f.file < |numbers| && numbers[f.file] != null && numbers[f.file].Length == f.rhs as int < LIMIT
            && 1 <= f.currSize && 0 <= f.leftStart
            && (f.leftStart == 0 || f.leftStart as int >= 2 * f.currSize as int)
            && p.ws[c].pc == P.Sorting(f.file, f.rhs as int, f.currSize as int, f.leftStart as int))
    }

    ghost predicate Valid()
      reads this, numbers
    {
      && |inputs| == |numbers| == |processed| == |p.files|
      && |frames| == |switches| == |reported| == |p.ws|
      && aborted == p.aborted && Distinct()
      && (forall f: nat :: f < |inputs| ==> FileOk(f))
      && (forall c: nat :: c < |frames| ==> FrameOk(c))
    }

    constructor (inputs: seq<seq<int>>, k: nat)
      requires forall f :: 0 <= f < |inputs| ==> |inputs[f]| < LIMIT
      ensures Valid() && p == P.Start(inputs, k) && this.inputs == inputs
      ensures forall f :: 0 <= f < |numbers| ==> numbers[f] == null
    {
      this.inputs := inputs;
      numbers := seq(|inputs|, _ => null);
      processed := seq(|inputs|, _ => false);
      frames := seq(k, _ => Claiming);
      switches := seq(k, _ => 0);
      reported := seq(k, _ => 0);
      aborted := false;
      p := P.Start(inputs, k);
    }

    // The loop of get_file
    method GetFile() returns (f: nat)
      requires Valid()
      ensures f == P.FirstFree(p.files)
    {
      f := 0;
      while f < |processed|
        invariant f <= P.FirstFree(p.files)
      {
        assert FileOk(f);
        if !processed[f] { return; }
        f := f + 1;
      }
    }

    // Arrays are the old ones or new.
    twostate predicate Kept()
      reads this
    {
      && |numbers| == |old(numbers)| && |frames| == |old(frames)|
      && forall f :: 0 <= f < |numbers| && numbers[f] != null ==> numbers[f] == old(numbers)[f] || fresh(numbers[f])
    }

    // Only file f and coroutine c have changed.
    twostate predicate Elsewhere(c: nat, f: nat)
      reads this, numbers
    {
      && |inputs| == |processed| == |p.files| == |numbers|
      && |inputs| == |old(processed)| == |old(p).files| == |old(numbers)|
      && |frames| == |old(frames)| == |old(switches)|
      && |frames| == |switches| == |reported| == |p.ws| == |old(reported)| == |old(p).ws|
      && (forall g: nat :: g < |numbers| && g != f ==> SameFile(g))
      && (forall d: nat :: d < |frames| && d != c ==> SameFrame(d))
    }

    twostate predicate SameFile(g: nat)
      reads this, numbers
      requires g < |numbers| == |processed| == |p.files| == |old(numbers)| == |old(processed)| == |old(p).files|
    {
      && numbers[g] == old(numbers)[g] && processed[g] == old(processed)[g] && p.files[g] == old(p).files[g]
      && (numbers[g] != null ==> numbers[g][..] == old(numbers[g][..]))
    }

    twostate predicate SameFrame(d: nat)
      reads this
      requires d < |frames| == |switches| == |reported| == |p.ws|
      requires |frames| == |old(frames)| == |old(switches)| == |old(reported)| == |old(p).ws|
    {
      && frames[d] == old(frames)[d] && switches[d] == old(switches)[d] && reported[d] == old(reported)[d]
      && p.ws[d] == old(p).ws[d]
    }

    // What a step leaves alone stays valid.
    twostate lemma OthersKept(at: Place)
      requires old(Valid()) && Elsewhere(at.coro, at.file) && aborted == p.aborted && Distinct()
      requires at.file < |inputs| ==>
        FileOk(at.file) && (old(numbers)[at.file] != null ==> numbers[at.file] == old(numbers)[at.file])
      requires at.coro < |frames| && FrameOk(at.coro)
      ensures Valid()
    {
      forall g: nat | g < |inputs| ensures FileOk(g) {
        if g != at.file { assert old(FileOk(g)) && SameFile(g); }
      }
      forall d: nat | d < |frames| ensures FrameOk(d) {
        if d != at.coro {
          assert old(FrameOk(d)) && SameFrame(d);
          if frames[d].Sorting? && frames[d].file != at.file { assert SameFile(frames[d].file); }
        }
      }
    }

    // intermediate: no file is left
    method Leave(c: nat)
      requires Valid() && c < |frames| && P.FirstFree(p.files) == |p.files|
      modifies this
      ensures Valid() && p == P.Claim(old(p), c) && Kept()
    {
      assert FrameOk(c);
      frames := frames[c := Exited];
      p := P.Claim(p, c);
      OthersKept(Place(c, |inputs|));
    }

    // read_file ends the program.
    method Abort(c: nat, f: nat)
      requires Valid() && c < |frames| && f == P.FirstFree(p.files) < |p.files| && inputs[f] == []
      modifies this
      ensures Valid() && p == P.Claim(old(p), c) && Kept()
    {
      assert FrameOk(c) && FileOk(f);
      frames := frames[c := Claiming];
      processed := processed[f := true];
      aborted := true;
      p := P.Claim(p, c);
      OthersKept(Place(c, f));
    }

    // intermediate: the file just read
    method Store(c: nat, f: nat, a: array<int>)
      requires Valid() && c < |frames| && f == P.FirstFree(p.files) < |p.files| && inputs[f] != []
      requires a[..] == inputs[f] && a !in numbers
      modifies this
      ensures Valid() && p == P.Claim(old(p), c)
      ensures numbers == old(numbers)[f := a] && |frames| == |old(frames)|
    {
      hide P.FirstFree;
      assert FrameOk(c) && FileOk(f);
      processed := processed[f := true];
      numbers := numbers[f := a];
      assert Distinct();
      frames := frames[c := Sorting(f, a.Length as int32, 1, 0)];
      switches := switches[c := switches[c] + 1];
      p := P.Claim(p, c);
      OthersKept(Place(c, f));
    }

    // The top of the loop of intermediate
    method Claim(c: nat)
      requires Valid() && c < |frames|
      modifies this
      ensures Valid() && p == P.Claim(old(p), c) && Kept()
    {
      var f := GetFile();
      if f == |processed| {
        Leave(c);
      } else {
        assert FileOk(f);
        var r, _ := ReadFile(inputs[f]);
        if r == None {
          Abort(c, f);
        } else {
          Store(c, f, r.value);
        }
      }
    }

    // me_mergesort: one merge and the yield after it
    method MergeStep(c: nat)
      requires Valid() && c < |frames| && P.CanRun(p, c) && p.ws[c].pc.Sorting?
      requires p.ws[c].pc.width <= p.ws[c].pc.n && p.ws[c].pc.left < p.ws[c].pc.n - 1
      modifies this, numbers
      ensures Valid() && p == P.AfterMerge(old(p), c) && numbers == old(numbers) && Kept()
    {
      hide MergeAt, Resume;
      assert FrameOk(c);
      var fr := frames[c];
      assert FileOk(fr.file);
      var _ := MergeOne(numbers[fr.file], fr.rhs, fr.currSize, fr.leftStart);
      frames := frames[c := fr.(leftStart := fr.leftStart + 2 * fr.currSize)];
      switches := switches[c := switches[c] + 1];
      p := P.AfterMerge(p, c);
      forall g: nat | g < |numbers| && g != fr.file ensures SameFile(g) {
        assert numbers[g] != null ==> numbers[g] != numbers[fr.file];
      }
      OthersKept(Place(c, fr.file));
    }

    // me_mergesort: the yield after a pass
    method PassStep(c: nat)
      requires Valid() && c < |frames| && P.CanRun(p, c) && p.ws[c].pc.Sorting?
      requires p.ws[c].pc.width <= p.ws[c].pc.n && p.ws[c].pc.left >= p.ws[c].pc.n - 1
      modifies this
      ensures Valid() && p == P.AfterPass(old(p), c) && numbers == old(numbers) && Kept()
    {
      assert FrameOk(c);
      var fr := frames[c];
      frames := frames[c := fr.(currSize := 2 * fr.currSize, leftStart := 0)];
      switches := switches[c := switches[c] + 1];
      p := P.AfterPass(p, c);
      OthersKept(Place(c, |inputs|));
    }

    // The end of me_mergesort
    method Report(c: nat)
      requires Valid() && c < |frames|
      modifies this
      ensures Valid() && p == P.Reported(old(p), c) && numbers == old(numbers) && Kept()
    {
      assert FrameOk(c);
      reported := reported[c := switches[c]];
      p := P.Reported(p, c);
      OthersKept(Place(c, |inputs|));
    }

    /** What coroutine c does between two yields is its step in the pool's state machine. */
    method Segment(c: nat)
      requires Valid() && P.CanRun(p, c)
      modifies this, numbers
      ensures Valid() && p == P.Step(old(p), c) && Kept()
    {
      assert FrameOk(c);
      match frames[c]
      case Claiming =>
        Claim(c);
      case Sorting(f, rhs, currSize, leftStart) =>
        if currSize > rhs {
          Report(c);
          Claim(c);
        } else if leftStart < rhs - 1 {
          MergeStep(c);
        } else {
          PassStep(c);
        }
    }

    // What write_result_to_file finds.
    method Rows() returns (rows: seq<seq<int>>)
      requires Valid()
      ensures rows == M.Rows(p.files)
    {
      rows := [];
      for f := 0 to |numbers|
        invariant |rows| == f && forall g :: 0 <= g < f ==> rows[g] == p.files[g].row
      {
        assert FileOk(f);
        rows := rows + [if numbers[f] == null then [] else numbers[f][..]];
      }
    }
  }

  // When main's loop goes on.
  lemma Going(m: M.State, inputs: seq<seq<int>>, k: nat)
    requires M.Inv(m, inputs, k)
    ensures M.CanGo(m) <==> !m.p.aborted && (m.s.cur.Co? || m.s.list != [])
    ensures M.CanGo(m) && m.s.cur.Co? ==> P.CanRun(m.p, m.s.cur.id)
  {
    if !M.CanGo(m) { M.AtTheEnd(m, inputs, k); }
  }

  /** The scheduler runs the coroutines on real arrays: the memory goes through the states of the program. */
  method Run(inputs: seq<seq<int>>, k: nat) returns (mem: Memory, ghost n: nat)
    requires forall f :: 0 <= f < |inputs| ==> |inputs[f]| < LIMIT
    ensures fresh(mem) && mem.Valid()
    ensures mem.p == M.After(inputs, k, n).p && !M.CanGo(M.After(inputs, k, n))
  {
    hide M.Inv, M.CanGo, P.Step, S.Wait, S.Yield, S.Return, P.Potential;
    var s := M.News(S.INITIAL, k);
    mem := new Memory(inputs, k);
    n := 0;
    ghost var m := M.Start(inputs, k);
    M.StartInv(inputs, k);
    Going(m, inputs, k);
    while !mem.aborted && (s.cur.Co? || s.list != [])
      invariant m == M.After(inputs, k, n) && M.Inv(m, inputs, k) && m.s == s && m.p == mem.p
      invariant fresh(mem) && mem.Valid()
      invariant forall f :: 0 <= f < |mem.numbers| && mem.numbers[f] != null ==> fresh(mem.numbers[f])
      invariant M.CanGo(m) <==> !mem.aborted && (s.cur.Co? || s.list != [])
      decreases P.Potential(mem.p), |s.list|, M.Idle(s)
    {
      Going(m, inputs, k);
      M.NextInv(m, inputs, k);
      M.NextDecreases(m, inputs, k);
      M.StepsNext(M.Start(inputs, k), n);
      m, n := M.Next(m), n + 1;
      if s.cur == S.Sched {
        s := S.Wait(s);
      } else {
        var c := s.cur.id;
        mem.Segment(c);
        assert mem.FrameOk(c);
        if !mem.aborted {
          s := if mem.frames[c].Exited? then S.Return(s, 0) else S.Yield(s);
        }
      }
      Going(m, inputs, k);
    }
  }

  /** main on real arrays with 32-bit indices: for any number of coroutines and any files of fewer than 2^30
      integers the output is the sorted permutation of all of them, or the program ends in read_file. */
  method SortFiles(inputs: seq<seq<int>>, coroParam: nat) returns (out: Option<seq<int>>, zeros: int)
    requires coroParam >= 1 && inputs != [] && forall f :: 0 <= f < |inputs| ==> |inputs[f]| < LIMIT
    ensures out == None <==> exists f :: 0 <= f < |inputs| && inputs[f] == []
    ensures out.Some? ==> Sorted(out.value) && multiset(out.value) == multiset(K.Flat(inputs)) && zeros == 0
  {
    hide M.After, M.CanGo;
    var mem: Memory;
    ghost var n: nat;
    mem, n := Run(inputs, coroParam);
    M.AbortsExactlyOnEmptyFiles(inputs, coroParam, n);
    if mem.aborted {
      return None, 0;
    }
    M.RowsSorted(inputs, coroParam, n);
    var rows := mem.Rows();
    var numbers;
    numbers, zeros := K.WriteResult(rows);
    return Some(numbers), zeros;
  }
}
