/**
 The one-way channel of lecture_examples/7_ipc/3_mem_sort.c: a writer process and a reader process
 pass a window of shared memory back and forth with two flags. Every load and store of a flag and
 every byte that memcpy moves is one atomic step, and the two processes interleave freely.

 Both processes handle the same number of messages. The reader has to know how long each one is: that
 length is a function of what it has received before.
 */
module SharedChannel {
  import opened Integers

  newtype byte = b: int | 0 <= b < 256

  // MEM_SIZE - MEM_META_SIZE
  const WINDOW: nat := 65534

  // Spin: waiting for the own flag. Copy(k): k bytes of the chunk are copied. Clear: about to lower the
  // own flag. Publish: about to raise the other one.
  datatype Pc = Spin | Copy(k: nat) | Clear | Publish | Done

  // msg, off: the message and the offset at which the current chunk starts.
  datatype Writer = Writer(pc: Pc, msg: nat, off: nat)

  // got: the messages read completely. part: the bytes of the current one so far.
  datatype Reader = Reader(pc: Pc, got: seq<seq<byte>>, off: nat, part: seq<byte>)

  // sentLens, readLens: history, the chunk lengths each side used.
  datatype State = State(window: seq<byte>, readable: bool, writable: bool, w: Writer, r: Reader,
                         sentLens: seq<nat>, readLens: seq<nat>)

  // What the two programs do: the messages sent, and the reader's length for its next message.
  datatype Program = Program(msgs: seq<seq<byte>>, size: seq<seq<byte>> -> nat)

  datatype Event = Write | Read

  function Chunk(size: nat): (n: nat)
    ensures n <= size && n <= WINDOW
  {
    if WINDOW > size then size else WINDOW
  }

  ghost predicate ProgramOk(p: Program) {
    forall m :: 0 <= m < |p.msgs| ==> p.size(p.msgs[..m]) == |p.msgs[m]|
  }

  function Left(size: nat, off: nat): nat { if off <= size then size - off else 0 }

  // The chunk the writer is at.
  function WriteLen(p: Program, w: Writer): nat {
    if w.msg < |p.msgs| then Chunk(Left(|p.msgs[w.msg]|, w.off)) else 0
  }

  function ReadLen(p: Program, r: Reader): nat {
    Chunk(Left(p.size(r.got), r.off))
  }

  // The end of a chunk of length n: out of the loop if nothing of the message is left.
  function NextWrite(p: Program, w: Writer): Writer {
    var n := WriteLen(p, w);
    if w.msg < |p.msgs| && w.off + n < |p.msgs[w.msg]| then Writer(Spin, w.msg, w.off + n)
    else Writer(if w.msg + 1 < |p.msgs| then Spin else Done, w.msg + 1, 0)
  }

  function NextRead(p: Program, r: Reader): Reader {
    var n := ReadLen(p, r);
    if r.off + n < p.size(r.got) then Reader(Spin, r.got, r.off + n, r.part)
    else Reader(if |r.got| + 1 < |p.msgs| then Spin else Done, r.got + [r.part], 0, [])
  }

  function WriteStep(p: Program, s: State): State {
    var n := WriteLen(p, s.w);
    match s.w.pc
    case Spin => if s.writable then s.(w := s.w.(pc := Copy(0))) else s
    case Copy(k) =>
      if k < n && k < |s.window| && s.w.off + k < |p.msgs[s.w.msg]|
      then s.(window := s.window[k := p.msgs[s.w.msg][s.w.off + k]], w := s.w.(pc := Copy(k + 1)))
      else s.(w := s.w.(pc := Clear))
    case Clear => s.(writable := false, w := s.w.(pc := Publish))
    case Publish => s.(readable := true, w := NextWrite(p, s.w), sentLens := s.sentLens + [n])
    case Done => s
  }

  function ReadStep(p: Program, s: State): State {
    var n := ReadLen(p, s.r);
    match s.r.pc
    case Spin => if s.readable then s.(r := s.r.(pc := Copy(0))) else s
    case Copy(k) =>
      if k < n && k < |s.window|
      then s.(r := s.r.(pc := Copy(k + 1), part := s.r.part + [s.window[k]]))
      else s.(r := s.r.(pc := Clear))
    case Clear => s.(readable := false, r := s.r.(pc := Publish))
    case Publish => s.(writable := true, r := NextRead(p, s.r), readLens := s.readLens + [n])
    case Done => s
  }

  function Step(p: Program, s: State, e: Event): State {
    match e case Write => WriteStep(p, s) case Read => ReadStep(p, s)
  }

  ghost predicate Run(p: Program, s: State, evs: seq<Event>, s': State)
    decreases |evs|
  {
    if evs == [] then s == s' else Run(p, Step(p, s, evs[0]), evs[1..], s')
  }

  // The mapping is fresh, the writable flag is up and the readable flag is down.
  ghost predicate Init(p: Program, s: State) {
    && |s.window| == WINDOW && !s.readable && s.writable
    && s.w == Writer(if p.msgs == [] then Done else Spin, 0, 0)
    && s.r == Reader(if p.msgs == [] then Done else Spin, [], 0, [])
    && s.sentLens == [] && s.readLens == []
  }

  // ---- The invariant

  predicate WritersTurn(s: State) { s.w.pc.Copy? || s.w.pc.Clear? || s.w.pc.Publish? }
  predicate ReadersTurn(s: State) { s.r.pc.Copy? || s.r.pc.Clear? || s.r.pc.Publish? }

  function Copied(pc: Pc, n: nat): nat {
    match pc case Copy(k) => k case Clear => n case Publish => n case _ => 0
  }

  ghost predicate WriterAt(p: Program, w: Writer) {
    && w.msg <= |p.msgs| && (w.pc == Done <==> w.msg == |p.msgs|)
    && (w.msg < |p.msgs| ==> w.off <= |p.msgs[w.msg]|)
    && Copied(w.pc, WriteLen(p, w)) <= WriteLen(p, w)
  }

  ghost predicate ReaderAt(p: Program, r: Reader) {
    && |r.got| <= |p.msgs| && r.got == p.msgs[..|r.got|]
    && (r.pc == Done <==> |r.got| == |p.msgs|)
    && Copied(r.pc, ReadLen(p, r)) <= ReadLen(p, r)
    && (if |r.got| < |p.msgs|
        then r.off + ReadLen(p, r) <= |p.msgs[|r.got|]|
             && r.part == p.msgs[|r.got|][..r.off + Copied(r.pc, ReadLen(p, r))]
        else r.off == 0 && r.part == [])
  }

  // The window holds the first n bytes of the chunk that starts at off in message m.
  ghost predicate Holds(p: Program, window: seq<byte>, m: nat, off: nat, n: nat) {
    && m < |p.msgs| && off + n <= |p.msgs[m]| && n <= |window|
    && window[..n] == p.msgs[m][off..off + n]
  }

  // It is the writer's turn from the reader's publish to its own; both are at the same chunk.
  ghost predicate WritePhase(p: Program, s: State) {
    && !s.readable && !ReadersTurn(s)
    && (s.writable <==> s.w.pc != Publish)
    && |s.r.got| == s.w.msg && s.r.off == s.w.off
    && s.sentLens == s.readLens
    && (WritersTurn(s) ==> Holds(p, s.window, s.w.msg, s.w.off, Copied(s.w.pc, WriteLen(p, s.w))))
  }

  // It is the reader's turn from the writer's publish to its own; the writer is one chunk ahead.
  ghost predicate ReadPhase(p: Program, s: State) {
    && !s.writable && !WritersTurn(s) && s.r.pc != Done
    && (s.readable <==> s.r.pc != Publish)
    && Holds(p, s.window, |s.r.got|, s.r.off, ReadLen(p, s.r))
    && s.w == NextWrite(p, Writer(Publish, |s.r.got|, s.r.off))
    && s.sentLens == s.readLens + [ReadLen(p, s.r)]
  }

  ghost predicate Inv(p: Program, s: State) {
    && |s.window| == WINDOW
    && WriterAt(p, s.w) && ReaderAt(p, s.r)
    && (WritePhase(p, s) || ReadPhase(p, s))
  }

  // The reader's length for its next message is the right one.
  lemma SameLength(p: Program, got: seq<seq<byte>>)
    requires ProgramOk(p) && |got| < |p.msgs| && got == p.msgs[..|got|]
    ensures p.size(got) == |p.msgs[|got|]|
  {
  }

  lemma InitInv(p: Program, s: State)
    requires ProgramOk(p) && Init(p, s)
    ensures Inv(p, s)
  {
    if p.msgs != [] { SameLength(p, []); }
    assert s.r.got == p.msgs[..0];
  }

  lemma WriteInv(p: Program, s: State)
    requires ProgramOk(p) && Inv(p, s)
    ensures Inv(p, WriteStep(p, s))
  {
    var s' := WriteStep(p, s);
    if |s.r.got| < |p.msgs| { SameLength(p, s.r.got); }
    if WritersTurn(s) {
      assert WritePhase(p, s);
      if s.w.pc.Copy? { CopyIn(p, s); }
    }
  }

  // One byte of the writer's memcpy.
  lemma CopyIn(p: Program, s: State)
    requires Inv(p, s) && WritePhase(p, s) && s.w.pc.Copy?
    ensures var s' := WriteStep(p, s);
      Holds(p, s'.window, s'.w.msg, s'.w.off, Copied(s'.w.pc, WriteLen(p, s'.w)))
  {
    var k := s.w.pc.k;
    var m := p.msgs[s.w.msg];
    if k < WriteLen(p, s.w) {
      var win := s.window[k := m[s.w.off + k]];
      assert win[..k + 1] == s.window[..k] + [m[s.w.off + k]];
      assert m[s.w.off..s.w.off + k + 1] == m[s.w.off..s.w.off + k] + [m[s.w.off + k]];
    }
  }

  lemma ReadInv(p: Program, s: State)
    requires ProgramOk(p) && Inv(p, s)
    ensures Inv(p, ReadStep(p, s))
  {
    var s' := ReadStep(p, s);
    if |s.r.got| < |p.msgs| { SameLength(p, s.r.got); }
    if ReadersTurn(s) {
      assert ReadPhase(p, s);
      if s.r.pc.Copy? { CopyOut(p, s); }
      if s.r.pc == Publish { EndOfChunk(p, s); }
    }
  }

  // One byte of the reader's memcpy.
  lemma CopyOut(p: Program, s: State)
    requires ProgramOk(p) && Inv(p, s) && ReadPhase(p, s) && s.r.pc.Copy?
    ensures ReaderAt(p, ReadStep(p, s).r)
  {
    var k := s.r.pc.k;
    var m := p.msgs[|s.r.got|];
    if k < ReadLen(p, s.r) {
      assert s.window[k] == s.window[..ReadLen(p, s.r)][k] == m[s.r.off + k];
      assert m[..s.r.off + k + 1] == m[..s.r.off + k] + [m[s.r.off + k]];
    }
  }

  lemma EndOfChunk(p: Program, s: State)
    requires ProgramOk(p) && Inv(p, s) && ReadPhase(p, s) && s.r.pc == Publish
    ensures ReaderAt(p, NextRead(p, s.r))
    ensures var r' := NextRead(p, s.r); |r'.got| == s.w.msg && r'.off == s.w.off
  {
    SameLength(p, s.r.got);
    var m := |s.r.got|;
    var r' := NextRead(p, s.r);
    if s.r.off + ReadLen(p, s.r) < p.size(s.r.got) {
    } else {
      assert s.r.part == p.msgs[m];
      assert p.msgs[..m + 1] == p.msgs[..m] + [p.msgs[m]];
      if m + 1 < |p.msgs| { SameLength(p, r'.got); }
    }
  }

  lemma {:induction false} RunInv(p: Program, s: State, evs: seq<Event>, s': State)
    requires ProgramOk(p) && Inv(p, s) && Run(p, s, evs, s')
    ensures Inv(p, s')
    decreases |evs|
  {
    if evs != [] {
      if evs[0] == Write { WriteInv(p, s); } else { ReadInv(p, s); }
      RunInv(p, Step(p, s, evs[0]), evs[1..], s');
    }
  }

  lemma ReachableInv(p: Program, s0: State, evs: seq<Event>, s: State)
    requires ProgramOk(p) && Init(p, s0) && Run(p, s0, evs, s)
    ensures Inv(p, s)
  {
    InitInv(p, s0);
    RunInv(p, s0, evs, s);
  }

  // ---- Main results

  /** The two copies never overlap, the flags are never both up, and whoever copies sees its own flag up. */
  lemma TurnsAlternate(p: Program, s0: State, evs: seq<Event>, s: State)
    requires ProgramOk(p) && Init(p, s0) && Run(p, s0, evs, s)
    ensures !(WritersTurn(s) && ReadersTurn(s))
    ensures !(s.readable && s.writable)
    ensures (s.w.pc.Copy? ==> s.writable) && (s.r.pc.Copy? ==> s.readable)
  {
    ReachableInv(p, s0, evs, s);
  }

  // The lengths of the chunks of a message, and of all messages one after the other.
  function Lens(size: nat): seq<nat> {
    if size <= 65534 then [size] else [65534] + Lens(size - 65534)
  }

  function AllLens(msgs: seq<seq<byte>>): seq<nat> {
    if msgs == [] then [] else Lens(|msgs[0]|) + AllLens(msgs[1..])
  }

  // The chunks the writer has not published yet.
  function ToSend(p: Program, w: Writer): seq<nat> {
    if w.msg < |p.msgs| then Lens(Left(|p.msgs[w.msg]|, w.off)) + AllLens(p.msgs[w.msg + 1..]) else []
  }

  lemma PublishLens(p: Program, w: Writer)
    requires WriterAt(p, w) && w.pc == Publish
    ensures ToSend(p, w) == [WriteLen(p, w)] + ToSend(p, NextWrite(p, w))
  {
    assert w.msg + 1 < |p.msgs| ==> p.msgs[w.msg + 1..][1..] == p.msgs[w.msg + 2..];
  }

  lemma StepLens(p: Program, s: State, e: Event)
    requires Inv(p, s)
    ensures Step(p, s, e).sentLens + ToSend(p, Step(p, s, e).w) == s.sentLens + ToSend(p, s.w)
  {
    hide ToSend, NextWrite;
    if e == Write {
      if s.w.pc == Publish {
        PublishLens(p, s.w);
      } else {
        SameToSend(p, s.w, WriteStep(p, s).w);
      }
    }
  }

  lemma SameToSend(p: Program, w: Writer, w': Writer)
    requires w'.msg == w.msg && w'.off == w.off
    ensures ToSend(p, w') == ToSend(p, w)
  {
  }

  lemma {:induction false} RunLens(p: Program, s: State, evs: seq<Event>, s': State)
    requires ProgramOk(p) && Inv(p, s) && Run(p, s, evs, s')
    ensures s'.sentLens + ToSend(p, s'.w) == s.sentLens + ToSend(p, s.w)
    decreases |evs|
  {
    hide Inv, Step, ToSend, ProgramOk;
    if evs != [] {
      StepLens(p, s, evs[0]);
      EventInv(p, s, evs[0]);
      RunLens(p, Step(p, s, evs[0]), evs[1..], s');
    }
  }

  lemma EventInv(p: Program, s: State, e: Event)
    requires ProgramOk(p) && Inv(p, s)
    ensures Inv(p, Step(p, s, e))
  {
    hide Inv, ProgramOk, WriteStep, ReadStep;
    if e == Write { WriteInv(p, s); } else { ReadInv(p, s); }
  }

  /** A message goes in chunks of 65534 bytes and one last chunk of what is left; an empty one goes too. */
  lemma {:induction false} LensShape(size: nat)
    ensures var n := |Lens(size)|;
      && n == (if size == 0 then 1 else (size + 65533) / 65534)
      && (forall i :: 0 <= i < n - 1 ==> Lens(size)[i] == 65534)
      && Lens(size)[n - 1] == size - 65534 * (n - 1) <= 65534
  {
    if size > 65534 { LensShape(size - 65534); }
  }

  /** Reader and writer agree on every chunk: the writer publishes the chunks of its messages in order, what
      was read is what was sent, with at most one chunk still in the window, and the length of that one is
      the one the reader is going to use. In the end both have handled all chunks of all messages. */
  lemma ChunksAgree(p: Program, s0: State, evs: seq<Event>, s: State)
    requires ProgramOk(p) && Init(p, s0) && Run(p, s0, evs, s)
    ensures s.sentLens <= AllLens(p.msgs)
    ensures s.sentLens == s.readLens || s.sentLens == s.readLens + [ReadLen(p, s.r)]
    ensures ReadersTurn(s) ==> s.sentLens == s.readLens + [ReadLen(p, s.r)]
    ensures s.r.pc == Done ==> s.readLens == s.sentLens == AllLens(p.msgs)
  {
    InitInv(p, s0);
    ReachableInv(p, s0, evs, s);
    RunLens(p, s0, evs, s);
    assert s.sentLens + ToSend(p, s.w) == AllLens(p.msgs);
    if s.r.pc == Done {
      ReadsAreExact(p, s0, evs, s);
      assert ToSend(p, s.w) == [];
    }
  }

  /** Every read returns exactly the bytes of the matching write; the current one is right so far. */
  lemma ReadsAreExact(p: Program, s0: State, evs: seq<Event>, s: State)
    requires ProgramOk(p) && Init(p, s0) && Run(p, s0, evs, s)
    ensures |s.r.got| <= |p.msgs| && s.r.got == p.msgs[..|s.r.got|]
    ensures |s.r.got| < |p.msgs| ==> s.r.part <= p.msgs[|s.r.got|]
    ensures s.r.pc == Done ==> s.r.got == p.msgs && s.w.pc == Done
  {
    ReachableInv(p, s0, evs, s);
    if s.r.pc == Done { assert p.msgs[..|p.msgs|] == p.msgs; }
  }

  /** No deadlock: until both processes are done one of them has a step that is not mere waiting. */
  lemma NeverStuck(p: Program, s0: State, evs: seq<Event>, s: State) returns (e: Event)
    requires ProgramOk(p) && Init(p, s0) && Run(p, s0, evs, s)
    requires !(s.w.pc == Done && s.r.pc == Done)
    ensures Step(p, s, e) != s
  {
    ReachableInv(p, s0, evs, s);
    e := if WritePhase(p, s) then Write else Read;
    if e == Write && s.w.pc.Copy? { CopyIn(p, s); }
  }

  // ---- Every run is finite, waiting aside

  function TotalLength(msgs: seq<seq<byte>>): nat {
    if msgs == [] then 0 else |msgs[0]| + TotalLength(msgs[1..])
  }

  // Bytes and messages still to move from offset off of message m on.
  function Rest(p: Program, m: nat, off: nat): int
    requires m <= |p.msgs|
  {
    |p.msgs| - m + TotalLength(p.msgs[m..]) - off
  }

  function Progress(pc: Pc, n: nat): nat {
    match pc case Spin => 0 case Copy(k) => 1 + k case Clear => n + 2 case Publish => n + 3 case Done => 0
  }

  function WriterWork(p: Program, w: Writer): int
    requires w.msg <= |p.msgs|
  {
    5 * Rest(p, w.msg, w.off) - Progress(w.pc, WriteLen(p, w))
  }

  function ReaderWork(p: Program, r: Reader): int
    requires |r.got| <= |p.msgs|
  {
    5 * Rest(p, |r.got|, r.off) - Progress(r.pc, ReadLen(p, r))
  }

  lemma RestOfMessage(p: Program, m: nat)
    requires m < |p.msgs|
    ensures Rest(p, m, |p.msgs[m]|) == Rest(p, m + 1, 0) + 1
  {
    assert p.msgs[m..][1..] == p.msgs[m + 1..];
  }

  lemma WorkBounds(p: Program, s: State)
    requires ProgramOk(p) && Inv(p, s)
    ensures WriterWork(p, s.w) >= 0 && ReaderWork(p, s.r) >= 0
  {
    if s.w.msg < |p.msgs| { RestOfMessage(p, s.w.msg); } else { assert p.msgs[|p.msgs|..] == []; }
    if |s.r.got| < |p.msgs| {
      RestOfMessage(p, |s.r.got|);
      SameLength(p, s.r.got);
    } else {
      assert p.msgs[|p.msgs|..] == [];
    }
    WriterOff(p, s);
  }

  // A finished process stands at offset 0.
  lemma WriterOff(p: Program, s: State)
    requires Inv(p, s)
    ensures s.w.pc == Done ==> s.w.off == 0
  {
  }

  lemma WriterDecreases(p: Program, s: State)
    requires Inv(p, s) && WriteStep(p, s) != s && WriterAt(p, WriteStep(p, s).w)
    ensures WriterWork(p, WriteStep(p, s).w) < WriterWork(p, s.w)
  {
    if s.w.msg < |p.msgs| { RestOfMessage(p, s.w.msg); }
  }

  lemma ReaderDecreases(p: Program, s: State)
    requires ProgramOk(p) && Inv(p, s) && ReadStep(p, s) != s && ReaderAt(p, ReadStep(p, s).r)
    ensures ReaderWork(p, ReadStep(p, s).r) < ReaderWork(p, s.r)
  {
    if |s.r.got| < |p.msgs| {
      RestOfMessage(p, |s.r.got|);
      SameLength(p, s.r.got);
      if s.r.pc == Publish { assert ReadPhase(p, s); }
    }
  }

  lemma WorkDecreases(p: Program, s: State, e: Event)
    requires ProgramOk(p) && Inv(p, s) && Step(p, s, e) != s && Inv(p, Step(p, s, e))
    ensures var s' := Step(p, s, e);
      WriterWork(p, s'.w) + ReaderWork(p, s'.r) < WriterWork(p, s.w) + ReaderWork(p, s.r)
  {
    hide WriterWork, ReaderWork;
    if e == Write { WriterDecreases(p, s); } else { ReaderDecreases(p, s); }
  }

  // No step of the run is mere waiting.
  ghost predicate Busy(p: Program, s: State, evs: seq<Event>)
    decreases |evs|
  {
    evs != [] ==> Step(p, s, evs[0]) != s && Busy(p, Step(p, s, evs[0]), evs[1..])
  }

  lemma {:induction false} BusyBound(p: Program, s: State, evs: seq<Event>, s': State)
    requires ProgramOk(p) && Inv(p, s) && Run(p, s, evs, s') && Busy(p, s, evs)
    ensures |evs| <= WriterWork(p, s.w) + ReaderWork(p, s.r)
    decreases |evs|
  {
    WorkBounds(p, s);
    if evs != [] {
      if evs[0] == Write { WriteInv(p, s); } else { ReadInv(p, s); }
      WorkDecreases(p, s, evs[0]);
      BusyBound(p, Step(p, s, evs[0]), evs[1..], s');
    }
  }

  /** Waiting aside, a run has at most ten steps per byte and per message; with NeverStuck, every such
      run ends with everything delivered. */
  lemma EveryRunEnds(p: Program, s0: State, evs: seq<Event>, s: State)
    requires ProgramOk(p) && Init(p, s0) && Run(p, s0, evs, s) && Busy(p, s0, evs)
    ensures |evs| <= 10 * (|p.msgs| + TotalLength(p.msgs))
  {
    InitInv(p, s0);
    BusyBound(p, s0, evs, s);
    assert p.msgs[0..] == p.msgs;
  }

  // ---- What sorter sends and main expects: the number of ints, then the ints

  // The four bytes of an int, lowest first.
  function IntBytes(x: int32): (bs: seq<byte>)
    ensures |bs| == 4
  {
    var u := if x < 0 then x as int + 0x1_0000_0000 else x as int;
    Digits(u)
  }

  function Digits(u: int): (bs: seq<byte>)
    requires 0 <= u < 0x1_0000_0000
    ensures |bs| == 4 && Word(bs) == u
  {
    var v := u / 256;
    var w := v / 256;
    [(u % 256) as byte, (v % 256) as byte, (w % 256) as byte, (w / 256) as byte]
  }

  function Word(bs: seq<byte>): (u: int)
    requires |bs| == 4
    ensures 0 <= u < 0x1_0000_0000
  {
    bs[0] as int + 256 * (bs[1] as int + 256 * (bs[2] as int + 256 * (bs[3] as int)))
  }

  function BytesInt(bs: seq<byte>): int32
    requires |bs| == 4
  {
    var u := Word(bs);
    if u >= 0x8000_0000 then (u - 0x1_0000_0000) as int32 else u as int32
  }

  lemma IntRoundTrip(x: int32)
    ensures BytesInt(IntBytes(x)) == x
  {
  }

  function ArrayBytes(a: seq<int32>): (bs: seq<byte>)
    ensures |bs| == 4 * |a|
  {
    if a == [] then [] else IntBytes(a[0]) + ArrayBytes(a[1..])
  }

  function BytesArray(bs: seq<byte>): seq<int32>
    requires |bs| % 4 == 0
  {
    if bs == [] then [] else [BytesInt(bs[..4])] + BytesArray(bs[4..])
  }

  lemma {:induction false} ArrayRoundTrip(a: seq<int32>)
    ensures BytesArray(ArrayBytes(a)) == a
  {
    if a != [] {
      var bs := ArrayBytes(a);
      assert bs[..4] == IntBytes(a[0]) && bs[4..] == ArrayBytes(a[1..]);
      IntRoundTrip(a[0]);
      ArrayRoundTrip(a[1..]);
    }
  }

  // sorter's two writes, and main's two reads, the second as long as the first one says.
  function SortProgram(a: seq<int32>): Program
    requires |a| < 0x2000_0000
  {
    Program([IntBytes(|a| as int32), ArrayBytes(a)], MainSize)
  }

  function MainSize(got: seq<seq<byte>>): nat {
    if |got| == 1 && |got[0]| == 4 && BytesInt(got[0]) >= 0 then 4 * BytesInt(got[0]) as int else 4
  }

  /** Whatever the interleaving, when main has done its two reads it holds the sorter's array. */
  lemma MainReceivesArray(a: seq<int32>, s0: State, evs: seq<Event>, s: State)
    requires |a| < 0x2000_0000
    requires Init(SortProgram(a), s0) && Run(SortProgram(a), s0, evs, s) && s.r.pc == Done
    ensures |s.r.got| == 2 && |s.r.got[1]| == 4 * |a| && BytesArray(s.r.got[1]) == a
  {
    var p := SortProgram(a);
    IntRoundTrip(|a| as int32);
    assert p.msgs[..0] == [] && p.msgs[..1] == [IntBytes(|a| as int32)];
    ReadsAreExact(p, s0, evs, s);
    ArrayRoundTrip(a);
  }
}
