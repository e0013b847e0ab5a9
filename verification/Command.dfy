/**
 The command grouper parse_cmds of 2/solution/command.c. The pair it returns points to a local
 variable; here the array and its length are returned together.
 */
module Command {
  import opened Tokens
  import Parser

  // strcmp against ">" and ">>"
  predicate Redirection(t: string) { t == ">" || t == ">>" }

  // strcmp against "||", "&&", "|" and "&"
  predicate Connective(t: string) { t == "||" || t == "&&" || t == "|" || t == "&" }

  // ---- Specification

  datatype Group = Group(name: string, argv: seq<string>, special: bool)

  // The commands that come from an open command and the tokens after it.
  function GroupFrom(open: Group, rest: seq<string>): seq<Group>
    decreases |rest|
  {
    if rest == [] then [open]
    else if Redirection(rest[0]) then [open] + GroupFrom(Group(rest[0], [], true), rest[1..])
    else if Connective(rest[0]) then
      var op := Group(rest[0], [], true);
      if |rest| == 1 then [open, op] else [open, op] + GroupFrom(Group(rest[1], [], false), rest[2..])
    else GroupFrom(open.(argv := open.argv + [rest[0]]), rest[1..])
  }

  function Groups(ts: seq<string>): seq<Group>
    requires ts != []
  {
    GroupFrom(Group(ts[0], [], false), ts[1..])
  }

  function Flatten(gs: seq<Group>): seq<string> {
    if gs == [] then [] else [gs[0].name] + gs[0].argv + Flatten(gs[1..])
  }

  // A connective entry: it takes no arguments and the token after it names the next command.
  predicate Barrier(g: Group) { g.special && g.name in {"||", "&&", "|", "&"} }

  // The shape of a grouping whose first entry is special or not: special entries are named by
  // operators, connectives have no arguments, no argument is an operator, and only what follows a
  // connective starts a plain command.
  predicate Shape(gs: seq<Group>, special: bool) {
    && gs != []
    && gs[0].special == special
    && (special ==> IsOperator(gs[0].name))
    && (Barrier(gs[0]) ==> gs[0].argv == [])
    && (forall a :: a in gs[0].argv ==> !IsOperator(a))
    && (|gs| > 1 ==> Shape(gs[1..], !Barrier(gs[0])))
  }

  // ---- Main results

  lemma {:induction false} FlattenGroupFrom(open: Group, rest: seq<string>)
    ensures Flatten(GroupFrom(open, rest)) == [open.name] + open.argv + rest
    decreases |rest|
  {
    if rest == [] {
      assert Flatten([open]) == [open.name] + open.argv + [];
    } else if Redirection(rest[0]) {
      var tail := GroupFrom(Group(rest[0], [], true), rest[1..]);
      FlattenGroupFrom(Group(rest[0], [], true), rest[1..]);
      assert ([open] + tail)[1..] == tail;
      assert [rest[0]] + [] + rest[1..] == rest;
    } else if Connective(rest[0]) {
      var op := Group(rest[0], [], true);
      if |rest| == 1 {
        assert [open, op][1..] == [op] && [op][1..] == [];
        assert Flatten([op]) == rest;
      } else {
        var tail := GroupFrom(Group(rest[1], [], false), rest[2..]);
        FlattenGroupFrom(Group(rest[1], [], false), rest[2..]);
        assert ([open, op] + tail)[1..] == [op] + tail && ([op] + tail)[1..] == tail;
        assert [rest[0]] + [] + ([rest[1]] + [] + rest[2..]) == rest;
      }
    } else {
      FlattenGroupFrom(open.(argv := open.argv + [rest[0]]), rest[1..]);
      assert open.argv + [rest[0]] + rest[1..] == open.argv + rest;
    }
  }

  /** Nothing is lost, added or reordered: name and arguments of all commands, concatenated, are the
      token list. */
  lemma GroupsKeepTokens(ts: seq<string>)
    requires ts != []
    ensures Flatten(Groups(ts)) == ts
  {
    FlattenGroupFrom(Group(ts[0], [], false), ts[1..]);
  }

  // An entry that may still take arguments.
  predicate Open(g: Group) {
    !Barrier(g) && (g.special ==> IsOperator(g.name)) && forall a :: a in g.argv ==> !IsOperator(a)
  }

  lemma {:induction false} GroupFromShape(open: Group, rest: seq<string>)
    requires Open(open)
    ensures Shape(GroupFrom(open, rest), open.special)
    decreases |rest|
  {
    if rest == [] {
    } else if Redirection(rest[0]) {
      var tail := GroupFrom(Group(rest[0], [], true), rest[1..]);
      GroupFromShape(Group(rest[0], [], true), rest[1..]);
      assert ([open] + tail)[1..] == tail;
    } else if Connective(rest[0]) {
      var op := Group(rest[0], [], true);
      if |rest| == 1 {
        assert [open, op][1..] == [op];
      } else {
        var tail := GroupFrom(Group(rest[1], [], false), rest[2..]);
        GroupFromShape(Group(rest[1], [], false), rest[2..]);
        assert ([open, op] + tail)[1..] == [op] + tail && ([op] + tail)[1..] == tail;
      }
    } else {
      GroupFromShape(open.(argv := open.argv + [rest[0]]), rest[1..]);
    }
  }

  // Any grouping of the right shape whose first entry continues the open one is what GroupFrom builds.
  lemma {:induction false} OnlyOneGrouping(open: Group, rest: seq<string>, gs: seq<Group>)
    requires Open(open) && Shape(gs, open.special)
    requires gs[0].name == open.name && open.argv <= gs[0].argv
    requires Flatten(gs) == [open.name] + open.argv + rest
    ensures gs == GroupFrom(open, rest)
    decreases |rest|, 1
  {
    var more := Remainder(open, rest, gs);
    if more != [] {
      OnlyOneArgument(open, rest, gs, more);
    } else {
      assert gs[0].argv == open.argv && gs[0] == open && gs == [open] + gs[1..];
      if |gs| > 1 { OnlyOneTail(open, rest, gs[1..]); }
    }
  }

  lemma Remainder(open: Group, rest: seq<string>, gs: seq<Group>) returns (more: seq<string>)
    requires gs != [] && gs[0].name == open.name && open.argv <= gs[0].argv
    requires Flatten(gs) == [open.name] + open.argv + rest
    ensures gs[0].argv == open.argv + more && rest == more + Flatten(gs[1..])
  {
    more := gs[0].argv[|open.argv|..];
    var head := [open.name] + open.argv;
    assert Flatten(gs) == head + (more + Flatten(gs[1..]));
    SameTail(head, more + Flatten(gs[1..]), rest);
  }

  // The next token is one more argument of the first entry.
  lemma {:induction false} OnlyOneArgument(open: Group, rest: seq<string>, gs: seq<Group>, more: seq<string>)
    requires Open(open) && Shape(gs, open.special) && gs[0].name == open.name
    requires gs[0].argv == open.argv + more && more != [] && rest == more + Flatten(gs[1..])
    requires Flatten(gs) == [open.name] + open.argv + rest
    ensures gs == GroupFrom(open, rest)
    decreases |rest|, 0
  {
    var a := more[0];
    assert rest == [a] + rest[1..] && a in gs[0].argv;
    assert gs[0].argv[..|open.argv| + 1] == open.argv + [a];
    assert [open.name] + (open.argv + [a]) + rest[1..] == [open.name] + open.argv + rest;
    OnlyOneGrouping(open.(argv := open.argv + [a]), rest[1..], gs);
  }

  // The first entry is complete: the next token is the operator that names the second.
  lemma {:induction false} OnlyOneTail(open: Group, rest: seq<string>, tail: seq<Group>)
    requires Open(open) && Shape(tail, true) && Flatten(tail) == rest
    ensures [open] + tail == GroupFrom(open, rest)
    decreases |rest|, 0
  {
    var op, tail' := tail[0], tail[1..];
    assert rest == [op.name] + op.argv + Flatten(tail');
    assert rest[0] == op.name;
    if Redirection(op.name) {
      assert [op.name] + [] + rest[1..] == rest;
      OnlyOneGrouping(Group(op.name, [], true), rest[1..], tail);
    } else {
      assert op == Group(rest[0], [], true) && tail == [op] + tail';
      assert rest[1..] == Flatten(tail');
      if tail' == [] {
        assert [open] + tail == [open, op];
      } else {
        var n := tail'[0].name;
        assert rest[1..] == [n] + tail'[0].argv + Flatten(tail'[1..]);
        assert rest[1] == n && [n] + [] + rest[2..] == rest[1..];
        OnlyOneGrouping(Group(n, [], false), rest[2..], tail');
        assert [open] + tail == [open, op] + tail';
      }
    }
  }

  lemma SameTail(p: seq<string>, a: seq<string>, b: seq<string>)
    requires p + a == p + b
    ensures a == b
  {
    assert (p + a)[|p|..] == a && (p + b)[|p|..] == b;
  }

  /** The grouping is determined by its shape: a list of commands is what parse_cmds makes of the tokens
      if and only if it has the right shape and concatenates to the tokens. */
  lemma GroupsUnique(ts: seq<string>, gs: seq<Group>)
    requires ts != []
    ensures gs == Groups(ts) <==> Shape(gs, false) && Flatten(gs) == ts
  {
    GroupsKeepTokens(ts);
    GroupFromShape(Group(ts[0], [], false), ts[1..]);
    if Shape(gs, false) && Flatten(gs) == ts {
      assert gs[0].name == ts[0];
      OnlyOneGrouping(Group(ts[0], [], false), ts[1..], gs);
    }
  }

  /** From the line to the commands: grouping what parse_line makes of a printed list of NUL-free words and
      operators gives commands whose names and arguments, concatenated, are that list. */
  lemma LineToCommands(ps: seq<Piece>)
    requires ps != [] && GoodPieces(ps)
    requires forall w :: w in Values(ps) ==> Parser.NUL !in w
    ensures var ts := CStrings(Parser.Scan(Print(ps), Parser.Plain)); ts == Values(ps) != [] && Flatten(Groups(ts)) == ts
  {
    RoundTrip(ps);
    TokensAreStrings(Values(ps));
    GroupsKeepTokens(Values(ps));
  }

  // ---- parse_cmds

  class Cmd {
    const name: string
    var argv: seq<string>
    var special: bool

    // cmd_init
    constructor (name: string)
      ensures this.name == name && argv == [] && !special
    {
      this.name := name;
      argv := [];
      special := false;
    }

    function Value(): Group
      reads this
    {
      Group(name, argv, special)
    }
  }

  // realloc of a pointer array that never shrinks
  method Grow(old': array<Cmd?>, size: nat) returns (a: array<Cmd?>)
    requires old'.Length <= size
    ensures fresh(a) && a.Length == size && a[..old'.Length] == old'[..]
  {
    a := new Cmd?[size](_ => null);
    for i := 0 to old'.Length
      invariant a[..i] == old'[..i]
    {
      a[i] := old'[i];
    }
  }

  // What the first |done| cells of cmds hold.
  ghost predicate Stored(cmds: seq<Cmd?>, done: seq<Group>)
    reads set c | c in cmds
  {
    && |done| <= |cmds|
    && forall k :: 0 <= k < |done| ==> cmds[k] != null && cmds[k].Value() == done[k]
  }

  // The loop's state: the entries stored so far, none of which is the current command, and room for
  // one more.
  ghost predicate Holding(cs: array<Cmd?>, index: nat, temp: Cmd, done: seq<Group>)
    reads cs, cs[..]
  {
    && index < cs.Length && |done| == index && Stored(cs[..], done)
    && forall k :: 0 <= k < index ==> cs[k] != temp
  }

  // realloc to the new size, then store the current command and start an operator.
  method NextOperator(old': array<Cmd?>, size: nat, index: nat, temp: Cmd, name: string, ghost done: seq<Group>)
    returns (cs: array<Cmd?>, op: Cmd)
    requires Holding(old', index, temp, done) && old'.Length <= size && index + 1 < size
    ensures fresh(cs) && fresh(op) && cs.Length == size
    ensures op.Value() == Group(name, [], true)
    ensures Holding(cs, index + 1, op, done + [temp.Value()])
  {
    cs := Grow(old', size);
    assert forall k :: 0 <= k < index ==> cs[k] == cs[..old'.Length][k] == old'[k];
    cs[index] := temp;
    op := new Cmd(name);
    op.special := true;
  }

  // A connective: the same, and the connective itself is stored at once.
  method NextConnective(old': array<Cmd?>, size: nat, index: nat, temp: Cmd, name: string, ghost done: seq<Group>)
    returns (cs: array<Cmd?>, op: Cmd)
    requires Holding(old', index, temp, done) && old'.Length <= size && index + 2 < size
    ensures fresh(cs) && fresh(op) && cs.Length == size
    ensures op.Value() == Group(name, [], true) && cs[index + 1] == op
    ensures Holding(cs, index + 1, op, done + [temp.Value()])
  {
    cs, op := NextOperator(old', size, index, temp, name, done);
    cs[index + 1] := op;
  }

  // The token after a connective starts a command.
  method NextCommand(cs: array<Cmd?>, index: nat, op: Cmd, name: string, ghost done: seq<Group>) returns (temp: Cmd)
    requires Holding(cs, index, op, done) && index + 1 < cs.Length && cs[index] == op
    ensures fresh(temp) && temp.Value() == Group(name, [], false)
    ensures Holding(cs, index + 1, temp, done + [op.Value()])
  {
    temp := new Cmd(name);
  }

  lemma NothingHeld(cs: array<Cmd?>, temp: Cmd)
    requires cs.Length > 0
    ensures Holding(cs, 0, temp, [])
  {
  }

  // Any other token is an argument.
  method AddArgument(cs: array<Cmd?>, index: nat, temp: Cmd, arg: string, ghost done: seq<Group>)
    requires Holding(cs, index, temp, done)
    modifies temp`argv
    ensures temp.Value() == old(temp.Value().(argv := temp.argv + [arg]))
    ensures Holding(cs, index, temp, done)
  {
    temp.argv := temp.argv + [arg];
  }

  // At the end the current command is stored.
  method StoreLast(cs: array<Cmd?>, index: nat, temp: Cmd, ghost done: seq<Group>)
    requires Holding(cs, index, temp, done)
    modifies cs
    ensures index < cs.Length && |done| == index && Stored(cs[..index + 1], done + [temp.Value()])
  {
    cs[index] := temp;
  }

  // What is stored, what is open and what is left make the whole grouping.
  ghost predicate Pending(argv: seq<string>, i: nat, open: Group, done: seq<Group>) {
    1 <= i <= |argv| && done + GroupFrom(open, argv[i..]) == Groups(argv)
  }

  lemma PendingStart(argv: seq<string>)
    requires argv != []
    ensures Pending(argv, 1, Group(argv[0], [], false), [])
  {
  }

  lemma PendingEnd(argv: seq<string>, open: Group, done: seq<Group>)
    requires Pending(argv, |argv|, open, done)
    ensures done + [open] == Groups(argv)
  {
  }

  lemma PendingStep(argv: seq<string>, i: nat, open: Group, done: seq<Group>)
    requires Pending(argv, i, open, done) && i < |argv|
    ensures var t := argv[i]; var op := Group(t, [], true);
      if Redirection(t) then Pending(argv, i + 1, op, done + [open])
      else if Connective(t) then
        if i + 1 < |argv| then Pending(argv, i + 2, Group(argv[i + 1], [], false), done + [open] + [op])
        else done + [open] + [op] == Groups(argv)
      else Pending(argv, i + 1, open.(argv := open.argv + [t]), done)
  {
    var rest := argv[i..];
    assert rest[0] == argv[i] && rest[1..] == argv[i + 1..];
    if Redirection(argv[i]) {
      assert done + ([open] + GroupFrom(Group(argv[i], [], true), rest[1..]))
          == done + [open] + GroupFrom(Group(argv[i], [], true), rest[1..]);
    } else if Connective(argv[i]) {
      var op := Group(argv[i], [], true);
      assert i + 1 < |argv| ==> rest[1] == argv[i + 1] && rest[2..] == argv[i + 2..];
      if i + 1 < |argv| {
        var tail := GroupFrom(Group(argv[i + 1], [], false), rest[2..]);
        assert done + ([open, op] + tail) == done + [open] + [op] + tail;
      } else {
        assert done + [open, op] == done + [open] + [op];
      }
    }
  }

  // The commands and their number; no commands when there are no tokens.
  method ParseCmds(argv: seq<string>) returns (cmds: array?<Cmd?>, len: nat)
    ensures argv == [] ==> cmds == null && len == 0
    ensures argv != [] ==> cmds != null && len == |Groups(argv)| <= cmds.Length && Stored(cmds[..len], Groups(argv))
  {
    hide Pending, Groups, GroupFrom, Holding, Stored;
    if |argv| < 1 { return null, 0; }
    var cs: array<Cmd?> := new Cmd?[1](_ => null);
    var size, index := 1, 0;
    var temp := new Cmd(argv[0]);
    // The entries stored so far, and whether the last token was a connective.
    ghost var done: seq<Group>, closed := [], false;
    var i := 1;
    PendingStart(argv);
    NothingHeld(cs, temp);
    while i < |argv|
      invariant fresh(cs) && fresh(temp) && cs.Length == size
      invariant Holding(cs, index, temp, done) && index < size && i <= |argv|
      invariant !closed ==> Pending(argv, i, temp.Value(), done)
      invariant closed ==> i == |argv| && done + [temp.Value()] == Groups(argv)
    {
      PendingStep(argv, i, temp.Value(), done);
      if Redirection(argv[i]) {
        size := size + 1;
        ghost var was := temp.Value();
        cs, temp := NextOperator(cs, size, index, temp, argv[i], done);
        done, index := done + [was], index + 1;
      } else if Connective(argv[i]) {
        size := size + 2;
        ghost var was := temp.Value();
        cs, temp := NextConnective(cs, size, index, temp, argv[i], done);
        done, index := done + [was], index + 1;
        if i + 1 < |argv| {
          was := temp.Value();
          temp := NextCommand(cs, index, temp, argv[i + 1], done);
          done, index := done + [was], index + 1;
          i := i + 1;
        } else {
          closed := true;
        }
      } else {
        AddArgument(cs, index, temp, argv[i], done);
      }
      i := i + 1;
    }
    if !closed { PendingEnd(argv, temp.Value(), done); }
    StoreLast(cs, index, temp, done);
    cmds, len := cs, index + 1;
  }
}
