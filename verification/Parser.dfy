/**
 The shell tokenizer parse_line of 2/solution/parser.c. A line is a C string, so it contains no NUL; a
 token is the buffer the source allocates for it, its terminating NUL included. The result is the list
 of tokens; its length takes the place of the returned argc.
 */
module Parser {
  import opened CharStack

  const NUL := '\0'

  predicate Blank(c: char) { c == ' ' || c == '\t' }

  // Characters that are a token of their own, single or doubled, at the start of a token.
  predicate OpChar(c: char) { c == '|' || c == '>' || c == '&' }

  // ---- Specification: what is left of a line, by the quoting mode

  // Word and Quoted(w) hold what the current token has so far. In Escaped a backslash is pending.
  datatype Mode = Plain | Single(word: string) | Double(word: string) | Escaped(word: string)

  function Scan(rest: string, mode: Mode): seq<string>
    decreases |rest|
  {
    if rest == [] then []
    else
      var c, tail := rest[0], rest[1..];
      if mode != Plain then
        var (tokens, mode') := QuoteStep(mode, c);
        tokens + Scan(tail, mode')
      else if Blank(c) then Scan(tail, Plain)
      else if c == '#' then []
      else if OpChar(c) then
        if tail != [] && tail[0] == c then [[c, c, NUL]] + Scan(tail[1..], Plain)
        else [[c, NUL]] + Scan(tail, Plain)
      else if c == '\'' then Scan(tail, Single([]))
      else if c == '"' then Scan(tail, Double([]))
      else
        var (w, left) := Word(rest, []);
        [w + [NUL]] + (if left == [] then [] else Scan(left[1..], Plain))
  }

  // One character inside quotes: the token it ends, if any, and the mode after it.
  function QuoteStep(mode: Mode, c: char): (seq<string>, Mode)
    requires mode != Plain
  {
    match mode
    case Single(w) => if c == '\'' then ([w + [NUL]], Plain) else ([], Single(w + [c]))
    case Double(w) =>
      if c == '"' then ([w + [NUL]], Plain)
      else if c == '\\' then ([], Escaped(w))
      else ([], Double(w + [c]))
    case Escaped(w) => ([], Double(w + Unescaped(c)))
  }

  // What a backslash and c stand for between double quotes.
  function Unescaped(c: char): string {
    if c == '\n' then []
    else if c == '\\' || c == '"' then [c]
    else if c == 'n' then ['\n']
    else if c == 't' then ['\t']
    else if c == 'r' then ['\r']
    else ['\\', c]
  }

  // An unquoted word: its characters, and the line from the character it stops at.
  function Word(rest: string, w: string): (r: (string, string))
    ensures |r.1| <= |rest|
    decreases |rest|
  {
    if rest == [] || Blank(rest[0]) then (w, rest)
    else if rest[0] == '"' || rest[0] == '\'' then Word(rest[1..], w)
    else if rest[0] != '\\' then Word(rest[1..], w + [rest[0]])
    else if |rest| == 1 then (w, [])
    else if OpChar(rest[1]) then
      if w != [] then (w, rest) else (OperatorWord(rest), rest[2..])
    else if rest[1] == '\n' then Word(rest[2..], w)
    else Word(rest[2..], w + [rest[1]])
  }

  // The word that starts with a backslash and an operator: the operator only if it is doubled, otherwise
  // the character after it.
  function OperatorWord(rest: string): string
    requires |rest| >= 2
  {
    if |rest| == 2 then [NUL] else if rest[2] == rest[1] then [rest[1], rest[1]] else [rest[2]]
  }

  // ---- parse_line

  // The end of a token: terminate it, take it off the stack and clear the stack.
  method SaveToken(wstack: Stack) returns (token: string)
    requires wstack.Valid()
    modifies wstack
    ensures wstack.Valid() && wstack.Contents() == []
    ensures token == Reversed(old(wstack.Contents())) + [NUL]
  {
    wstack.Push(NUL);
    var reversed := wstack.Reverse();
    var buffer := reversed.Splice();
    token := buffer[..];
    wstack.Clear();
    reversed.Clear();
  }

  // The mode the flags and the two stacks stand for.
  function ModeOf(single: bool, double: bool, escapes: seq<char>, word: seq<char>): Mode {
    if single then Single(Reversed(word))
    else if !double then Plain
    else if escapes == [] then Double(Reversed(word))
    else Escaped(Reversed(word))
  }

  method ParseLine(rs: string) returns (args: seq<string>)
    ensures args == Scan(rs, Plain)
  {
    var stack := new Stack();
    var wstack := new Stack();
    var len := |rs|;
    args := [];
    var single, double := false, false;
    var idx := 0;
    while idx < len
      invariant idx <= len + 1
      invariant fresh(stack) && fresh(wstack) && stack != wstack && stack.Valid() && wstack.Valid()
      invariant !(single && double)
      invariant !single && !double ==> wstack.Contents() == []
      invariant stack.Contents() == [] || (double && stack.Contents() == ['\\'])
      invariant args + Scan(rs[if idx <= len then idx else len..],
                            ModeOf(single, double, stack.Contents(), wstack.Contents())) == Scan(rs, Plain)
    {
      var tokens: seq<string> := [];
      ghost var start, mode := idx, ModeOf(single, double, stack.Contents(), wstack.Contents());
      if single || double {
        single, double, tokens := Quoted(rs[idx], single, double, stack, wstack);
        idx := idx + 1;
      } else if rs[idx] == '#' {
        break;
      } else {
        single, double, tokens, idx := Unquoted(rs, idx, wstack);
      }
      ghost var mode' := ModeOf(single, double, stack.Contents(), wstack.Contents());
      ghost var left := rs[if idx <= len then idx else len..];
      assert Scan(rs[start..], mode) == tokens + Scan(left, mode') by {
        assert rs[start..][0] == rs[start] && rs[start..][1..] == rs[start + 1..];
      }
      Assoc(args, tokens, Scan(left, mode'));
      args := args + tokens;
    }
    stack.Clear();
    wstack.Clear();
  }

  lemma Assoc(a: seq<string>, b: seq<string>, c: seq<string>)
    ensures a + (b + c) == (a + b) + c
  {
  }

  // The cases of the loop body with a quote open; the tokens are the one just completed, if any.
  method Quoted(c: char, single: bool, double: bool, stack: Stack, wstack: Stack)
    returns (single': bool, double': bool, tokens: seq<string>)
    requires stack != wstack && stack.Valid() && wstack.Valid() && single != double
    requires stack.Contents() == [] || (double && stack.Contents() == ['\\'])
    modifies stack, wstack
    ensures stack.Valid() && wstack.Valid() && !(single' && double')
    ensures !single' && !double' ==> wstack.Contents() == []
    ensures stack.Contents() == [] || (double' && stack.Contents() == ['\\'])
    ensures (tokens, ModeOf(single', double', stack.Contents(), wstack.Contents()))
         == QuoteStep(ModeOf(single, double, old(stack.Contents()), old(wstack.Contents())), c)
  {
    single', double', tokens := single, double, [];
    var noEscape := stack.IsEmpty();
    if single {
      if c != '\'' {
        wstack.Push(c);
      } else {
        single' := false;
        var token := SaveToken(wstack);
        tokens := [token];
      }
    } else if noEscape {
      if c == '"' {
        double' := false;
        var token := SaveToken(wstack);
        tokens := [token];
      } else if c == '\\' {
        stack.Push('\\');
      } else {
        wstack.Push(c);
      }
    } else {
      Escape(c, stack, wstack);
    }
  }

  // A character after a backslash between double quotes.
  method Escape(c: char, stack: Stack, wstack: Stack)
    requires stack != wstack && stack.Valid() && wstack.Valid() && stack.Contents() == ['\\']
    modifies stack, wstack
    ensures stack.Valid() && wstack.Valid() && stack.Contents() == []
    ensures Reversed(wstack.Contents()) == Reversed(old(wstack.Contents())) + Unescaped(c)
  {
    var e := stack.Peek();
    if c == '\n' && e == '\\' {
      stack.Pop();
    } else if c == '\\' && e == '\\' {
      stack.Pop();
      wstack.Push('\\');
    } else if c == '"' && e == '\\' {
      stack.Pop();
      wstack.Push('"');
    } else if c == 'n' && e == '\\' {
      stack.Pop();
      wstack.Push('\n');
    } else if c == 't' && e == '\\' {
      stack.Pop();
      wstack.Push('\t');
    } else if c == 'r' && e == '\\' {
      stack.Pop();
      wstack.Push('\r');
    } else {
      wstack.Push(e);
      stack.Pop();
      wstack.Push(c);
    }
  }

  lemma Reversed1(a: char)
    ensures Reversed([a]) == [a]
  {
  }

  lemma Reversed2(a: char, b: char)
    ensures Reversed([a, b]) == [b, a]
  {
    ReversedConcat([a], [b]);
  }

  // The cases of the loop body with no quote open, the comment aside.
  method Unquoted(rs: string, idx: nat, wstack: Stack)
    returns (single: bool, double: bool, tokens: seq<string>, idx': nat)
    requires idx < |rs| && rs[idx] != '#' && wstack.Valid() && wstack.Contents() == []
    modifies wstack
    ensures wstack.Valid() && wstack.Contents() == [] && !(single && double)
    ensures idx < idx' <= |rs| + 1
    ensures Scan(rs[idx..], Plain)
         == tokens + Scan(rs[if idx' <= |rs| then idx' else |rs|..], ModeOf(single, double, [], []))
  {
    hide Word;
    single, double, tokens, idx' := false, false, [], idx;
    var c := rs[idx];
    assert rs[idx..][0] == c && rs[idx..][1..] == rs[idx + 1..];
    if Blank(c) {
    } else if OpChar(c) {
      if idx + 1 < |rs| && rs[idx + 1] == c {
        assert rs[idx + 1..][1..] == rs[idx + 2..];
        wstack.Push(c);
        idx' := idx + 1;
      }
      wstack.Push(rs[idx']);
      Reversed1(c);
      Reversed2(c, c);
      assert wstack.Contents() == if idx' == idx then [c] else [c, c];
      var token := SaveToken(wstack);
      tokens := [token];
      assert token == if idx' == idx then [c, NUL] else [c, c, NUL];
    } else if c == '\'' {
      single := true;
    } else if c == '"' {
      double := true;
    } else {
      idx' := ScanWord(rs, idx, wstack);
      ghost var w := Reversed(wstack.Contents());
      var token := SaveToken(wstack);
      tokens := [token];
      assert Word(rs[idx..], []) == (w, rs[idx'..]);
      assert idx' < |rs| ==> rs[idx'..][1..] == rs[idx' + 1..];
    }
    idx' := idx' + 1;
  }

  // The inner loop over an unquoted word; the index it stops at.
  method ScanWord(rs: string, start: nat, wstack: Stack) returns (idx: nat)
    requires start < |rs| && wstack.Valid() && wstack.Contents() == []
    modifies wstack
    ensures wstack.Valid() && start <= idx <= |rs|
    ensures Word(rs[start..], []) == (Reversed(wstack.Contents()), rs[idx..])
  {
    var len := |rs|;
    idx := start;
    while idx < len && rs[idx] != ' ' && rs[idx] != '\t'
      invariant start <= idx <= len && wstack.Valid()
      invariant Word(rs[start..], []) == Word(rs[idx..], Reversed(wstack.Contents()))
    {
      assert rs[idx..][1..] == rs[idx + 1..];
      if rs[idx] == '\\' {
        if idx + 1 < len && OpChar(rs[idx + 1]) {
          idx := EscapedOperator(rs, idx, wstack);
          break;
        }
        idx := EscapedOther(rs, idx, wstack);
      } else if rs[idx] == '"' || rs[idx] == '\'' {
        idx := idx + 1;
      } else {
        wstack.Push(rs[idx]);
        idx := idx + 1;
      }
    }
  }

  lemma WordAtOperator(rest: string, w: string)
    requires |rest| >= 2 && rest[0] == '\\' && OpChar(rest[1])
    ensures Word(rest, w) == if w != [] then (w, rest) else (OperatorWord(rest), rest[2..])
  {
  }

  // A backslash before an operator character ends the word, one way or the other.
  method EscapedOperator(rs: string, at: nat, wstack: Stack) returns (idx: nat)
    requires wstack.Valid() && at + 1 < |rs| && rs[at] == '\\' && OpChar(rs[at + 1])
    modifies wstack
    ensures wstack.Valid() && at <= idx <= |rs|
    ensures Word(rs[at..], Reversed(old(wstack.Contents()))) == (Reversed(wstack.Contents()), rs[idx..])
  {
    ghost var rest := rs[at..];
    assert rest[0] == '\\' && rest[1] == rs[at + 1] && rest[2..] == rs[at + 2..];
    assert |rest| > 2 ==> rest[2] == rs[at + 2];
    WordAtOperator(rest, Reversed(wstack.Contents()));
    idx := at + 1;
    var op := rs[idx];
    var empty := wstack.IsEmpty();
    if !empty {
      idx := idx - 1;
      return;
    }
    assert wstack.Contents() == [] && Reversed([]) == [];
    idx := idx + 1;
    if idx < |rs| && rs[idx] == op {
      wstack.Push(rs[idx]);
    }
    // At the end of the line this is the terminating NUL of the line.
    var last := if idx < |rs| then rs[idx] else NUL;
    wstack.Push(last);
    Reversed1(last);
    Reversed2(op, op);
    assert wstack.Contents() == if idx < |rs| && rs[idx] == op then [op, op] else [last];
    assert Reversed(wstack.Contents()) == OperatorWord(rest);
  }

  // A backslash before anything else, or at the end of the line.
  method EscapedOther(rs: string, at: nat, wstack: Stack) returns (idx: nat)
    requires wstack.Valid() && at < |rs| && rs[at] == '\\' && (at + 1 < |rs| ==> !OpChar(rs[at + 1]))
    modifies wstack
    ensures wstack.Valid() && at < idx <= |rs|
    ensures Word(rs[at..], Reversed(old(wstack.Contents()))) == Word(rs[idx..], Reversed(wstack.Contents()))
  {
    idx := at + 1;
    assert idx < |rs| ==> rs[at..][2..] == rs[idx + 1..];
    if idx < |rs| && rs[idx] == '\\' {
      wstack.Push('\\');
      idx := idx + 1;
    } else if idx < |rs| && rs[idx] == '\n' {
      idx := idx + 1;
    } else if idx < |rs| {
      wstack.Push(rs[idx]);
      idx := idx + 1;
    }
  }
}
