/**
 What parse_line does to a line that was printed from a list of words and operators: it gives the list
 back, whether a word was printed in double quotes, in single quotes or in none. Between them the lemmas
 say what becomes of every character: of blanks, comments, operators, quotes and backslashes.
 */
module Tokens {
  import opened Parser

  // A piece of an unquoted word: a character, a backslash and a character, a backslash and a line break, a
  // quote in the middle of the word.
  datatype Part = Lit(c: char) | Esc(c: char) | Break | Stray(quote: char)

  datatype Item = InDouble(word: string) | InSingle(word: string) | Bare(parts: seq<Part>) | Op(text: string)

  // An item and the blanks in front of it.
  datatype Piece = Piece(gap: string, item: Item)

  predicate IsOperator(t: string) {
    t in {"|", "||", ">", ">>", "&", "&&"}
  }

  predicate Space(c: char) { c == ' ' || c == '\t' }
  predicate Quote(c: char) { c == '"' || c == '\'' }
  predicate Special(c: char) { c == '|' || c == '>' || c == '&' }

  predicate GoodPart(p: Part) {
    match p
    case Lit(c) => !Space(c) && !Quote(c) && c != '\\'
    case Esc(c) => !Special(c) && c != '\n'
    case Break => true
    case Stray(q) => Quote(q)
  }

  // What an unquoted word may start with.
  predicate GoodStart(p: Part) {
    match p
    case Lit(c) => !Special(c) && c != '#'
    case Stray(_) => false
    case _ => true
  }

  predicate GoodParts(ps: seq<Part>) {
    (ps != [] ==> GoodStart(ps[0])) && forall i :: 0 <= i < |ps| ==> GoodPart(ps[i])
  }

  predicate GoodItem(it: Item) {
    match it
    case InDouble(w) => true
    case InSingle(w) => '\'' !in w
    case Bare(ps) => ps != [] && GoodParts(ps)
    case Op(t) => IsOperator(t)
  }

  // What may follow an item directly: nothing that would continue it.
  predicate Apart(it: Item, rest: string) {
    match it
    case Bare(_) => rest == [] || Space(rest[0])
    case Op(t) => t != [] && (|t| == 2 || rest == [] || rest[0] != t[0])
    case _ => true
  }

  predicate Gap(g: string) {
    forall i :: 0 <= i < |g| ==> Space(g[i])
  }

  // Blanks are needed only after an unquoted word, and after a single operator before the same character.
  predicate GoodPieces(ps: seq<Piece>) {
    && (forall i :: 0 <= i < |ps| ==> GoodItem(ps[i].item) && Gap(ps[i].gap))
    && (forall i :: 0 < i < |ps| && Clash(ps[i - 1].item, ps[i].item) ==> ps[i].gap != [])
  }

  predicate Clash(before: Item, it: Item) {
    before.Bare? || (before.Op? && it.Op? && |before.text| == 1 && before.text <= it.text)
  }

  // Backslashes and double quotes get a backslash in front.
  function EscapeAll(w: string): string {
    if w == [] then []
    else EscapeChar(w[0]) + EscapeAll(w[1..])
  }

  function EscapeChar(c: char): string {
    if c == '\\' || c == '"' then ['\\', c] else [c]
  }

  function Text(it: Item): string {
    match it
    case InDouble(w) => ['"'] + EscapeAll(w) + ['"']
    case InSingle(w) => ['\''] + w + ['\'']
    case Bare(ps) => TextOf(ps)
    case Op(t) => t
  }

  function TextOf(ps: seq<Part>): string {
    if ps == [] then [] else PartText(ps[0]) + TextOf(ps[1..])
  }

  function PartText(p: Part): string {
    match p
    case Lit(c) => [c]
    case Esc(c) => ['\\', c]
    case Break => ['\\', '\n']
    case Stray(q) => [q]
  }

  // The word an item stands for: of an unquoted one, the characters with or without their backslash.
  function Value(it: Item): string {
    match it
    case InDouble(w) => w
    case InSingle(w) => w
    case Bare(ps) => ValueOf(ps)
    case Op(t) => t
  }

  function ValueOf(ps: seq<Part>): string {
    if ps == [] then [] else PartValue(ps[0]) + ValueOf(ps[1..])
  }

  function PartValue(p: Part): string {
    match p
    case Lit(c) => [c]
    case Esc(c) => [c]
    case _ => []
  }

  function Print(ps: seq<Piece>): string {
    if ps == [] then [] else ps[0].gap + Text(ps[0].item) + Print(ps[1..])
  }

  // The buffers parse_line allocates for a list of strings.
  function Buffers(words: seq<string>): seq<string> {
    if words == [] then [] else [words[0] + [NUL]] + Buffers(words[1..])
  }

  function Values(ps: seq<Piece>): seq<string> {
    if ps == [] then [] else [Value(ps[0].item)] + Values(ps[1..])
  }

  // ---- One item at a time

  lemma {:induction false} ScanGap(gap: string, rest: string)
    requires Gap(gap)
    ensures Scan(gap + rest, Plain) == Scan(rest, Plain)
  {
    if gap == [] {
      assert gap + rest == rest;
    } else {
      assert (gap + rest)[1..] == gap[1..] + rest;
      ScanGap(gap[1..], rest);
    }
  }

  lemma {:induction false} ScanSingle(w: string, acc: string, rest: string)
    requires '\'' !in w
    ensures Scan(w + ['\''] + rest, Single(acc)) == [acc + w + [NUL]] + Scan(rest, Plain)
  {
    var line := w + ['\''] + rest;
    if w == [] {
      assert line[1..] == rest && acc + w == acc;
    } else {
      assert line[1..] == w[1..] + ['\''] + rest;
      ScanSingle(w[1..], acc + [w[0]], rest);
      assert acc + [w[0]] + w[1..] == acc + w;
    }
  }

  // The rest of a printed word, from inside the quotes on.
  function Tail(w: string, rest: string): string {
    EscapeAll(w) + ['"'] + rest
  }

  lemma TailStep(w: string, rest: string)
    ensures w == [] ==> Tail(w, rest) == ['"'] + rest
    ensures w != [] ==> Tail(w, rest) == EscapeChar(w[0]) + Tail(w[1..], rest)
  {
  }

  lemma {:induction false} ScanDouble(w: string, acc: string, rest: string)
    ensures Scan(Tail(w, rest), Double(acc)) == [acc + w + [NUL]] + Scan(rest, Plain)
  {
    hide Scan, QuoteStep, EscapeChar, Tail;
    TailStep(w, rest);
    if w == [] {
      ScanClose(acc, rest);
      assert acc + w == acc;
    } else {
      ScanDouble(w[1..], acc + [w[0]], rest);
      ScanEscaped(w[0], acc, Tail(w[1..], rest));
      assert acc + [w[0]] + w[1..] == acc + w;
    }
  }

  // The closing quote ends the word.
  lemma ScanClose(acc: string, rest: string)
    ensures Scan(['"'] + rest, Double(acc)) == [acc + [NUL]] + Scan(rest, Plain)
  {
    ScanQuoted('"', rest, Double(acc));
  }

  // One printed character between double quotes stands for itself.
  lemma ScanEscaped(c: char, acc: string, line: string)
    ensures Scan(EscapeChar(c) + line, Double(acc)) == Scan(line, Double(acc + [c]))
  {
    if c == '\\' || c == '"' {
      assert EscapeChar(c) + line == ['\\'] + ([c] + line);
      ScanQuoted('\\', [c] + line, Double(acc));
      ScanQuoted(c, line, Escaped(acc));
    } else {
      ScanQuoted(c, line, Double(acc));
    }
  }

  lemma ScanQuoted(c: char, tail: string, mode: Mode)
    requires mode != Plain
    ensures Scan([c] + tail, mode) == QuoteStep(mode, c).0 + Scan(tail, QuoteStep(mode, c).1)
  {
    assert ([c] + tail)[1..] == tail;
  }

  lemma ScanOp(t: string, rest: string)
    requires IsOperator(t) && (|t| == 2 || rest == [] || rest[0] != t[0])
    ensures Scan(t + rest, Plain) == [t + [NUL]] + Scan(rest, Plain)
  {
    var line := t + rest;
    assert line[0] == t[0] && OpChar(t[0]);
    if |t| == 1 {
      assert line[1..] == rest;
      assert t == [t[0]] && [t[0], NUL] == t + [NUL];
    } else {
      assert t == [t[0], t[0]];
      assert line[1..] == [t[0]] + rest && line[1..][1..] == rest;
      assert [t[0], t[0], NUL] == t + [NUL];
    }
  }

  // ---- Unquoted words

  lemma PartsTail(ps: seq<Part>)
    requires ps != [] && forall i :: 0 <= i < |ps| ==> GoodPart(ps[i])
    ensures GoodPart(ps[0]) && forall i :: 0 <= i < |ps[1..]| ==> GoodPart(ps[1..][i])
  {
    assert forall i :: 0 <= i < |ps[1..]| ==> ps[1..][i] == ps[i + 1];
  }

  lemma WordPart(p: Part, rest: string, w: string)
    requires GoodPart(p)
    ensures Word(PartText(p) + rest, w) == Word(rest, w + PartValue(p))
  {
    var line := PartText(p) + rest;
    if p.Lit? || p.Stray? { assert line[1..] == rest; } else { assert line[2..] == rest; }
    assert w + [] == w;
  }

  lemma {:induction false} WordParts(ps: seq<Part>, rest: string, w: string)
    requires forall i :: 0 <= i < |ps| ==> GoodPart(ps[i])
    ensures Word(TextOf(ps) + rest, w) == Word(rest, w + ValueOf(ps))
  {
    hide Word, GoodPart, PartText, PartValue;
    if ps == [] {
      assert TextOf(ps) + rest == rest && w + ValueOf(ps) == w;
    } else {
      PartsTail(ps);
      WordPart(ps[0], TextOf(ps[1..]) + rest, w);
      WordParts(ps[1..], rest, w + PartValue(ps[0]));
      assert TextOf(ps) + rest == PartText(ps[0]) + (TextOf(ps[1..]) + rest);
      assert w + PartValue(ps[0]) + ValueOf(ps[1..]) == w + ValueOf(ps);
    }
  }

  // A line on which an unquoted word begins.
  lemma ScanStart(ps: seq<Part>, rest: string)
    requires ps != [] && GoodParts(ps)
    ensures var line := TextOf(ps) + rest;
      line != [] && Scan(line, Plain) == WordThen(Word(line, []))
  {
    hide Word;
    var line := TextOf(ps) + rest;
    assert GoodPart(ps[0]) && GoodStart(ps[0]);
    assert line[0] == PartText(ps[0])[0];
  }

  // A word as a token, and the line after the character it stopped at.
  function WordThen(r: (string, string)): seq<string> {
    [r.0 + [NUL]] + if r.1 == [] then [] else Scan(r.1[1..], Plain)
  }

  lemma ScanBare(ps: seq<Part>, rest: string)
    requires ps != [] && GoodParts(ps) && (rest == [] || Space(rest[0]))
    ensures Scan(TextOf(ps) + rest, Plain) == [ValueOf(ps) + [NUL]] + Scan(rest, Plain)
  {
    hide TextOf, ValueOf, GoodStart;
    ScanStart(ps, rest);
    WordParts(ps, rest, []);
    assert [] + ValueOf(ps) == ValueOf(ps);
    assert Word(rest, ValueOf(ps)) == (ValueOf(ps), rest);
  }

  lemma ScanItem(it: Item, rest: string)
    requires GoodItem(it) && Apart(it, rest)
    ensures Scan(Text(it) + rest, Plain) == [Value(it) + [NUL]] + Scan(rest, Plain)
  {
    hide Scan;
    match it
    case InDouble(w) => OpenDouble(w, rest);
    case InSingle(w) => OpenSingle(w, rest);
    case Bare(ps) => ScanBare(ps, rest);
    case Op(t) => ScanOp(t, rest);
  }

  lemma OpenDouble(w: string, rest: string)
    ensures Scan(['"'] + EscapeAll(w) + ['"'] + rest, Plain) == [w + [NUL]] + Scan(rest, Plain)
  {
    var line := ['"'] + EscapeAll(w) + ['"'] + rest;
    assert line[1..] == Tail(w, rest);
    assert Scan(line, Plain) == Scan(Tail(w, rest), Double([]));
    ScanDouble(w, [], rest);
    assert [] + w == w;
  }

  lemma OpenSingle(w: string, rest: string)
    requires '\'' !in w
    ensures Scan(['\''] + w + ['\''] + rest, Plain) == [w + [NUL]] + Scan(rest, Plain)
  {
    var line := ['\''] + w + ['\''] + rest;
    var tail := w + ['\''] + rest;
    assert line[1..] == tail;
    assert Scan(line, Plain) == Scan(tail, Single([]));
    ScanSingle(w, [], rest);
    assert [] + w == w;
  }

  // ---- Main results

  /** The round trip, followed by anything that does not continue the last item. */
  lemma {:induction false} ScanPrinted(ps: seq<Piece>, rest: string)
    requires GoodPieces(ps)
    requires ps != [] ==> Apart(ps[|ps| - 1].item, rest)
    ensures Scan(Print(ps) + rest, Plain) == Buffers(Values(ps)) + Scan(rest, Plain)
  {
    hide Scan, Text, Value, GoodItem, Gap, Apart;
    if ps == [] {
      assert Print(ps) + rest == rest;
    } else {
      var rest' := Print(ps[1..]) + rest;
      TailPieces(ps);
      AfterItem(ps, rest);
      ScanPiece(ps[0], rest');
      ScanPrinted(ps[1..], rest);
      PrintFirst(ps, rest);
      Assoc([Value(ps[0].item) + [NUL]], Buffers(Values(ps[1..])), Scan(rest, Plain));
      assert Values(ps)[1..] == Values(ps[1..]);
    }
  }

  lemma PrintFirst(ps: seq<Piece>, rest: string)
    requires ps != []
    ensures Print(ps) + rest == ps[0].gap + Text(ps[0].item) + (Print(ps[1..]) + rest)
  {
  }

  lemma TailPieces(ps: seq<Piece>)
    requires GoodPieces(ps) && ps != []
    ensures GoodPieces(ps[1..]) && GoodItem(ps[0].item) && Gap(ps[0].gap)
    ensures |ps| > 1 ==> ps[|ps| - 1] == ps[1..][|ps| - 2]
  {
    assert forall i :: 0 <= i < |ps[1..]| ==> ps[1..][i] == ps[i + 1];
  }

  lemma ScanPiece(p: Piece, rest: string)
    requires GoodItem(p.item) && Gap(p.gap) && Apart(p.item, rest)
    ensures Scan(p.gap + Text(p.item) + rest, Plain) == [Value(p.item) + [NUL]] + Scan(rest, Plain)
  {
    assert p.gap + Text(p.item) + rest == p.gap + (Text(p.item) + rest);
    ScanGap(p.gap, Text(p.item) + rest);
    ScanItem(p.item, rest);
  }

  // The rest of a printed list does not continue its first item.
  lemma AfterItem(ps: seq<Piece>, rest: string)
    requires GoodPieces(ps) && ps != [] && Apart(ps[|ps| - 1].item, rest)
    ensures Apart(ps[0].item, Print(ps[1..]) + rest)
  {
    hide GoodItem, Text, Apart;
    if |ps| > 1 {
      var q := ps[1];
      assert ps[1..][0] == q;
      assert GoodItem(q.item) && Gap(q.gap) && (Clash(ps[0].item, q.item) ==> q.gap != []);
      var r := Print(ps[1..]) + rest;
      assert r == q.gap + (Text(q.item) + Print(ps[1..][1..]) + rest);
      FirstChar(q.item);
      if q.gap != [] {
        assert r[0] == q.gap[0] && Space(r[0]);
        NothingContinued(ps[0].item, r);
      } else {
        assert r[0] == Text(q.item)[0];
        NoClash(ps[0].item, q.item, r);
      }
    } else {
      assert Print(ps[1..]) + rest == rest;
    }
  }

  lemma LastPiece(ps: seq<Piece>, rest: string)
    requires GoodPieces(ps) && rest != [] && !Special(rest[0])
    requires ps != [] && ps[|ps| - 1].item.Bare? ==> Space(rest[0])
    ensures ps != [] ==> Apart(ps[|ps| - 1].item, rest)
  {
    hide GoodItem, Apart;
    if ps != [] { NothingContinued(ps[|ps| - 1].item, rest); }
  }

  lemma NothingContinued(it: Item, rest: string)
    requires GoodItem(it) && rest != [] && !Special(rest[0]) && (it.Bare? ==> Space(rest[0]))
    ensures Apart(it, rest)
  {
  }

  lemma NoClash(before: Item, it: Item, rest: string)
    requires GoodItem(before) && GoodItem(it) && !Clash(before, it)
    requires rest != [] && rest[0] == Text(it)[0]
    ensures Apart(before, rest)
  {
    if before.Op? && it.Op? {
      assert before.text != [] && it.text != [];
    } else if before.Op? {
      FirstChar(it);
    }
  }

  lemma FirstChar(it: Item)
    requires GoodItem(it)
    ensures Text(it) != [] && (!it.Op? ==> !Special(Text(it)[0]))
  {
    if it.Bare? { assert Text(it)[0] == PartText(it.parts[0])[0] && GoodStart(it.parts[0]); }
  }

  /** Tokenizer round trip: parse_line of the printed list is exactly the list. */
  lemma RoundTrip(ps: seq<Piece>)
    requires GoodPieces(ps)
    ensures Scan(Print(ps), Plain) == Buffers(Values(ps))
  {
    ScanPrinted(ps, []);
    assert Print(ps) + [] == Print(ps);
  }

  // What C code sees of a buffer: the characters before the first NUL.
  function CString(b: string): string {
    if b == [] || b[0] == NUL then [] else [b[0]] + CString(b[1..])
  }

  function CStrings(bs: seq<string>): seq<string> {
    if bs == [] then [] else [CString(bs[0])] + CStrings(bs[1..])
  }

  lemma {:induction false} CStringOfBuffer(w: string)
    requires NUL !in w
    ensures CString(w + [NUL]) == w
  {
    if w != [] {
      assert (w + [NUL])[1..] == w[1..] + [NUL];
      CStringOfBuffer(w[1..]);
    }
  }

  /** As C strings the tokens are the words themselves, provided those contain no NUL. */
  lemma {:induction false} TokensAreStrings(words: seq<string>)
    requires forall w :: w in words ==> NUL !in w
    ensures CStrings(Buffers(words)) == words
  {
    if words != [] {
      assert forall w :: w in words[1..] ==> w in words;
      CStringOfBuffer(words[0]);
      TokensAreStrings(words[1..]);
    }
  }

  // ---- A quote that is never closed

  predicate Quoted(it: Item) { it.InDouble? || it.InSingle? }

  // A quoted word without its closing quote.
  function Opened(it: Item): string
    requires Quoted(it)
  {
    match it
    case InDouble(w) => ['"'] + EscapeAll(w)
    case InSingle(w) => ['\''] + w
  }

  lemma {:induction false} UnclosedDouble(w: string, acc: string)
    ensures Scan(EscapeAll(w), Double(acc)) == []
  {
    hide Scan, QuoteStep, EscapeChar;
    if w == [] {
      NothingToScan(Double(acc));
    } else {
      ScanEscaped(w[0], acc, EscapeAll(w[1..]));
      UnclosedDouble(w[1..], acc + [w[0]]);
    }
  }

  lemma {:induction false} UnclosedSingle(w: string, acc: string)
    requires '\'' !in w
    ensures Scan(w, Single(acc)) == []
  {
    if w != [] { UnclosedSingle(w[1..], acc + [w[0]]); }
  }

  lemma NothingToScan(mode: Mode)
    ensures Scan([], mode) == []
  {
  }

  lemma UnclosedItem(it: Item)
    requires Quoted(it) && GoodItem(it)
    ensures Scan(Opened(it), Plain) == []
  {
    match it
    case InDouble(w) =>
      assert Opened(it)[1..] == EscapeAll(w);
      UnclosedDouble(w, []);
    case InSingle(w) =>
      assert Opened(it)[1..] == w;
      UnclosedSingle(w, []);
  }

  lemma {:induction false} BuffersSnoc(words: seq<string>, w: string)
    ensures Buffers(words + [w]) == Buffers(words) + [w + [NUL]]
  {
    if words != [] {
      assert (words + [w])[1..] == words[1..] + [w];
      BuffersSnoc(words[1..], w);
    }
  }

  /** Not always kept: the quoted last word of a line is a token if and only if its quote is closed; without
      the closing quote exactly the tokens before it come out. */
  lemma LastWordNeedsItsQuote(ps: seq<Piece>, gap: string, it: Item, closed: bool)
    requires GoodPieces(ps) && Quoted(it) && GoodItem(it)
    requires Gap(gap) && (ps != [] && ps[|ps| - 1].item.Bare? ==> gap != [])
    ensures var tokens := Scan(Print(ps) + (gap + if closed then Text(it) else Opened(it)), Plain);
      && (tokens == Buffers(Values(ps) + [it.word]) <==> closed)
      && (tokens == Buffers(Values(ps)) <==> !closed)
  {
    hide Scan, GoodPieces;
    var last := if closed then Text(it) else Opened(it);
    BuffersSnoc(Values(ps), it.word);
    LastPiece(ps, gap + last);
    ScanPrinted(ps, gap + last);
    ScanGap(gap, last);
    if closed {
      ScanItem(it, []);
      assert Text(it) + [] == Text(it);
      NothingToScan(Plain);
    } else {
      UnclosedItem(it);
    }
  }

  /** For instance the word a behind an open quote is lost. */
  lemma UnclosedWordIsLost()
    ensures Scan("\"a", Plain) == []
  {
    UnclosedItem(InDouble("a"));
    assert Opened(InDouble("a")) == "\"a";
  }

  // ---- An operator behind a backslash

  // What comes of a line that starts with a backslash and op, before rest.
  lemma LeadingOperator(op: char, rest: string, w: string)
    requires Special(op)
    ensures WordThen(Word(['\\', op] + rest, w)) ==
      if w != [] then [w + [NUL]] + Scan([op] + rest, Plain)
      else if rest == [] then [[NUL, NUL]]
      else [(if rest[0] == op then [op, op] else [rest[0]]) + [NUL]] + Scan(rest[1..], Plain)
  {
    hide Scan;
    var line := ['\\', op] + rest;
    assert line[1..] == [op] + rest && line[2..] == rest;
    WordAtOperator(line, w);
    if w == [] && rest == [] { assert [NUL] + [NUL] == [NUL, NUL]; }
  }

  /** Outside quotes an operator behind a backslash ends a word that has begun and is a token on its own; at
      the start of a word it is taken only if it is doubled, otherwise the token is the character after it, or
      the NUL at the end of the line. */
  lemma EscapedOperatorValue(ps: seq<Part>, op: char, rest: string)
    requires GoodParts(ps) && Special(op)
    ensures Scan(TextOf(ps) + (['\\', op] + rest), Plain) ==
      if ValueOf(ps) != [] then [ValueOf(ps) + [NUL]] + Scan([op] + rest, Plain)
      else if rest == [] then [[NUL, NUL]]
      else if rest[0] == op then [[op, op, NUL]] + Scan(rest[1..], Plain)
      else [[rest[0], NUL]] + Scan(rest[1..], Plain)
  {
    hide Word, TextOf, ValueOf, GoodStart;
    var line := ['\\', op] + rest;
    if ps == [] {
      EmptyParts(line);
      StartsWithBackslash(line);
    } else {
      ScanStart(ps, line);
    }
    WordParts(ps, line, []);
    assert [] + ValueOf(ps) == ValueOf(ps);
    LeadingOperator(op, rest, ValueOf(ps));
    assert [op, op] + [NUL] == [op, op, NUL];
    assert rest != [] ==> [rest[0]] + [NUL] == [rest[0], NUL];
  }

  lemma EmptyParts(line: string)
    ensures TextOf([]) + line == line && ValueOf([]) == []
  {
    assert TextOf([]) + line == line;
  }

  lemma StartsWithBackslash(line: string)
    requires line != [] && line[0] == '\\'
    ensures Scan(line, Plain) == WordThen(Word(line, []))
  {
  }

  /** Not always kept: at the start of a word the operator begins the token if and only if the same character
      follows. */
  lemma EscapedOperatorSurvives(op: char, rest: string)
    requires Special(op)
    ensures var ts := Scan(['\\', op] + rest, Plain);
      && ts != [] && ts[0] != []
      && (ts[0][0] == op <==> rest != [] && rest[0] == op)
  {
    hide Scan;
    EmptyParts(['\\', op] + rest);
    EscapedOperatorValue([], op, rest);
  }

  /** For instance the pipe in "\\|x" is lost, */
  lemma EscapedPipeIsLost()
    ensures Scan("\\|x", Plain) == ["x" + [NUL]]
  {
    EmptyParts("\\|x");
    EscapedOperatorValue([], '|', "x");
    assert "\\|x" == ['\\', '|'] + "x" && "x"[1..] == [];
  }

  /** and "a\\|x" is three tokens. */
  lemma EscapedPipeSplits()
    ensures Scan("a\\|x", Plain) == ["a" + [NUL], "|" + [NUL], "x" + [NUL]]
  {
    hide Scan;
    OneLetter('a');
    OneLetter('x');
    EscapedOperatorValue([Lit('a')], '|', "x");
    assert "a\\|x" == TextOf([Lit('a')]) + (['\\', '|'] + "x");
    ScanOp("|", "x");
    ScanBare([Lit('x')], []);
    assert TextOf([Lit('x')]) + [] == "x";
    NothingToScan(Plain);
  }

  lemma OneLetter(c: char)
    ensures TextOf([Lit(c)]) == [c] && ValueOf([Lit(c)]) == [c]
  {
  }

  /** A backslash at the end of the line is dropped, but it does make a token. */
  lemma LastBackslash(ps: seq<Part>)
    requires GoodParts(ps)
    ensures Scan(TextOf(ps) + ['\\'], Plain) == [ValueOf(ps) + [NUL]]
  {
    hide TextOf, ValueOf, GoodStart;
    if ps == [] {
      EmptyParts(['\\']);
      StartsWithBackslash(['\\']);
    } else {
      ScanStart(ps, ['\\']);
    }
    WordParts(ps, ['\\'], []);
    assert [] + ValueOf(ps) == ValueOf(ps);
  }

  // ---- Escapes between double quotes, and comments

  lemma {:induction false} ScanEscapedAll(w: string, acc: string, line: string)
    ensures Scan(EscapeAll(w) + line, Double(acc)) == Scan(line, Double(acc + w))
  {
    hide Scan, EscapeChar;
    if w == [] {
      assert EscapeAll(w) + line == line && acc + w == acc;
    } else {
      ScanEscaped(w[0], acc, EscapeAll(w[1..]) + line);
      ScanEscapedAll(w[1..], acc + [w[0]], line);
      assert EscapeAll(w) + line == EscapeChar(w[0]) + (EscapeAll(w[1..]) + line);
      assert acc + [w[0]] + w[1..] == acc + w;
    }
  }

  // A line with a backslash and c in a double-quoted word, between v and w.
  function EscapeLine(v: string, c: char, w: string, rest: string): string {
    ['"'] + (EscapeAll(v) + (['\\'] + ([c] + Tail(w, rest))))
  }

  lemma OneEscape(v: string, c: char, w: string, rest: string)
    ensures Scan(EscapeLine(v, c, w, rest), Plain) == [v + Unescaped(c) + w + [NUL]] + Scan(rest, Plain)
  {
    hide Tail, Unescaped, EscapeAll;
    var tail := [c] + Tail(w, rest);
    assert EscapeLine(v, c, w, rest)[1..] == EscapeAll(v) + (['\\'] + tail);
    ScanEscapedAll(v, [], ['\\'] + tail);
    assert [] + v == v;
    ScanQuoted('\\', tail, Double(v));
    ScanQuoted(c, Tail(w, rest), Escaped(v));
    ScanDouble(w, v + Unescaped(c), rest);
  }

  /** Between double quotes a backslash makes a line feed of n, a tab of t and a carriage return of r, joins
      two lines, and keeps itself before everything but a backslash or a double quote. */
  lemma EscapesInDoubleQuotes(v: string, c: char, w: string, rest: string)
    ensures var tokens := Scan(EscapeLine(v, c, w, rest), Plain);
      && (c == 'n' ==> tokens == [v + "\n" + w + [NUL]] + Scan(rest, Plain))
      && (c == 't' ==> tokens == [v + "\t" + w + [NUL]] + Scan(rest, Plain))
      && (c == 'r' ==> tokens == [v + "\r" + w + [NUL]] + Scan(rest, Plain))
      && (c == '\n' ==> tokens == [v + w + [NUL]] + Scan(rest, Plain))
      && (c == '\\' || c == '"' ==> tokens == [v + [c] + w + [NUL]] + Scan(rest, Plain))
      && (c !in {'n', 't', 'r', '\n', '\\', '"'} ==> tokens == [v + ['\\', c] + w + [NUL]] + Scan(rest, Plain))
  {
    hide Scan, EscapeLine;
    OneEscape(v, c, w, rest);
    assert v + [] == v;
  }

  /** A comment takes the rest of the line, wherever a token may begin. */
  lemma CommentIgnored(ps: seq<Piece>, gap: string, rest: string)
    requires GoodPieces(ps)
    requires Gap(gap) && (ps != [] && ps[|ps| - 1].item.Bare? ==> gap != [])
    ensures Scan(Print(ps) + (gap + (['#'] + rest)), Plain) == Buffers(Values(ps))
  {
    hide GoodPieces, Buffers;
    var comment := ['#'] + rest;
    LastPiece(ps, gap + comment);
    ScanPrinted(ps, gap + comment);
    ScanGap(gap, comment);
    assert Scan(comment, Plain) == [];
  }
}
