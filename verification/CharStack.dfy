/**
 The linked stack of characters in 2/solution/stack.c. Node fields are written once, when the node is
 made. free() has no counterpart here.
 */
module CharStack {

  function Reversed(s: seq<char>): (r: seq<char>)
    ensures |r| == |s|
  {
    if s == [] then [] else Reversed(s[1..]) + [s[0]]
  }

  lemma {:induction false} ReversedConcat(s: seq<char>, t: seq<char>)
    ensures Reversed(s + t) == Reversed(t) + Reversed(s)
  {
    if s == [] {
      assert s + t == t;
    } else {
      assert (s + t)[1..] == s[1..] + t;
      ReversedConcat(s[1..], t);
    }
  }

  lemma {:induction false} ReversedTwice(s: seq<char>)
    ensures Reversed(Reversed(s)) == s
  {
    if s != [] {
      ReversedConcat(Reversed(s[1..]), [s[0]]);
      ReversedTwice(s[1..]);
    }
  }

  lemma ReversedMove(s: seq<char>, acc: seq<char>)
    requires s != []
    ensures Reversed(s) + acc == Reversed(s[1..]) + ([s[0]] + acc)
  {
  }

  class CharNode {
    const data: char
    const next: CharNode?
    // What the list from here on holds, the top first.
    ghost const chars: seq<char>

    constructor (data: char, next: CharNode?)
      requires next != null ==> next.Valid()
      ensures Valid() && chars == [data] + From(next)
    {
      this.data := data;
      this.next := next;
      this.chars := [data] + From(next);
    }

    ghost predicate Valid()
      decreases |chars|
    {
      chars == [data] + From(next) && (next != null ==> next.Valid())
    }
  }

  ghost function From(n: CharNode?): seq<char> {
    if n == null then [] else n.chars
  }

  class Stack {
    var top: CharNode?

    ghost predicate Valid()
      reads this
    {
      top != null ==> top.Valid()
    }

    ghost function Contents(): seq<char>
      reads this
    {
      From(top)
    }

    // cs_init
    constructor ()
      ensures Valid() && Contents() == []
    {
      top := null;
    }

    // cs_push
    method Push(data: char)
      requires Valid()
      modifies this
      ensures Valid() && Contents() == [data] + old(Contents())
    {
      var node := new CharNode(data, top);
      top := node;
    }

    // cs_isempty
    method IsEmpty() returns (b: bool)
      requires Valid()
      ensures b <==> Contents() == []
    {
      b := top == null;
    }

    // cs_peek: the caller makes sure the stack is not empty
    method Peek() returns (c: char)
      requires Valid() && Contents() != []
      ensures c == Contents()[0]
    {
      c := top.data;
    }

    // cs_pop: the caller makes sure the stack is not empty
    method Pop()
      requires Valid() && Contents() != []
      modifies this
      ensures Valid() && Contents() == old(Contents())[1..]
    {
      top := top.next;
    }

    // cs_splice
    method Splice() returns (ret: array<char>)
      requires Valid()
      ensures fresh(ret) && ret[..] == Contents()
    {
      var len := 0;
      var pntr := top;
      while pntr != null
        invariant pntr != null ==> pntr.Valid()
        invariant len + |From(pntr)| == |Contents()|
        decreases |From(pntr)|
      {
        len := len + 1;
        pntr := pntr.next;
      }
      pntr := top;
      ret := new char[len](_ => '\0');
      ghost var chars := Contents();
      for i := 0 to len
        invariant pntr != null ==> pntr.Valid()
        invariant From(pntr) == chars[i..]
        invariant forall j :: 0 <= j < i ==> ret[j] == chars[j]
      {
        assert chars[i..][0] == chars[i] && chars[i..][1..] == chars[i + 1..];
        ret[i] := pntr.data;
        pntr := pntr.next;
      }
    }

    // cs_reverse
    method Reverse() returns (temp: Stack)
      requires Valid()
      ensures fresh(temp) && temp.Valid() && temp.Contents() == Reversed(Contents())
    {
      temp := new Stack();
      var pntr := top;
      while pntr != null
        invariant fresh(temp) && temp.Valid()
        invariant pntr != null ==> pntr.Valid()
        invariant Reversed(From(pntr)) + temp.Contents() == Reversed(Contents())
        decreases |From(pntr)|
      {
        ReversedMove(From(pntr), temp.Contents());
        temp.Push(pntr.data);
        assert From(pntr)[1..] == From(pntr.next);
        pntr := pntr.next;
      }
    }

    // cs_free
    method Clear()
      requires Valid()
      modifies this
      ensures Valid() && Contents() == []
    {
      while top != null
        invariant Valid()
        decreases |Contents()|
      {
        Pop();
      }
    }
  }
}
