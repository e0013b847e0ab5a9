/**
 The random generator of lecture_examples/6_threads/8_5_random_generator.h. The circular buffer of
 624 words refines the infinite recurrence of mt19937 (section 26.5.3.2 of ISO C++11); the seeding is
 the file's own.
 */
module MersenneTwister {

  const LEN: nat := 624
  const SHIFT: nat := 397

  // ---- Specification: the infinite sequence

  // The three words that decide a new one: terms i, i + 1 and i + SHIFT decide term i + LEN. The upper
  // bit of one word and the lower bits of the next are joined, halved, and reduced if odd. Each operation
  // on bits is a function of its own; the proofs below are algebra on them.
  function Twist(x: bv32, next: bv32, far: bv32): bv32 {
    var y := Join(x, next);
    Xor(Xor(far, Half(y)), Feed(y))
  }

  function Xor(x: bv32, y: bv32): bv32 { x ^ y }
  function Join(x: bv32, next: bv32): bv32 { (x & 0x8000_0000) | (next & 0x7fff_ffff) }
  function Half(y: bv32): bv32 { y >> 1 }
  function Feed(y: bv32): bv32 { if y & 1 == 1 then 0x9908_b0df else 0 }

  // The generator writes that reduction without a branch, as a product with the lowest bit.
  lemma BranchFree(y: bv32)
    ensures (y & 1) * 0x9908_b0df == if y & 1 == 1 then 0x9908_b0df else 0
  {
    LowBit(y);
    Times(y & 1);
  }

  lemma LowBit(y: bv32)
    ensures y & 1 == 0 || y & 1 == 1
  {
  }

  lemma Times(b: bv32)
    requires b == 0 || b == 1
    ensures b * 0x9908_b0df == if b == 1 then 0x9908_b0df else 0
  {
  }

  // Term n of the sequence whose first LEN terms are all the seed.
  function Term(seed: bv32, n: nat): bv32 {
    if n < LEN then seed
    else Twist(Term(seed, n - LEN), Term(seed, n - LEN + 1), Term(seed, n - LEN + SHIFT))
  }

  // The four stages of tempering, one compound assignment of the generator each.
  function Mix11(x: bv32): bv32 { Xor(x, Down11(x)) }
  function Mix7(x: bv32): bv32 { Xor(x, Up7(x)) }
  function Mix15(x: bv32): bv32 { Xor(x, Up15(x)) }
  function Mix18(x: bv32): bv32 { Xor(x, Down18(x)) }

  function Down11(x: bv32): bv32 { x >> 11 }
  function Up7(x: bv32): bv32 { (x << 7) & 0x9d2c_5680 }
  function Up15(x: bv32): bv32 { (x << 15) & 0xefc6_0000 }
  function Down18(x: bv32): bv32 { x >> 18 }

  function Temper(x: bv32): bv32 {
    Mix18(Mix15(Mix7(Mix11(x))))
  }

  // ---- Tempering and twisting, in numbers

  lemma Swap(x: bv32, y: bv32)
    ensures Xor(x, y) == Xor(y, x)
  {
  }

  lemma Group(x: bv32, y: bv32, z: bv32)
    ensures Xor(Xor(x, y), z) == Xor(x, Xor(y, z))
  {
  }

  lemma Regroup(x: bv32, y: bv32, a: bv32, b: bv32)
    ensures Xor(Xor(x, y), Xor(a, b)) == Xor(Xor(x, a), Xor(y, b))
  {
    hide Xor;
    Group(x, y, Xor(a, b));
    Group(y, a, b);
    Swap(y, a);
    Group(a, y, b);
    Group(x, a, Xor(y, b));
  }

  lemma Down11Linear(x: bv32, y: bv32)
    ensures Down11(Xor(x, y)) == Xor(Down11(x), Down11(y))
  {
  }

  lemma Mix11Linear(x: bv32, y: bv32)
    ensures Mix11(Xor(x, y)) == Xor(Mix11(x), Mix11(y))
  {
    hide Down11, Xor;
    Down11Linear(x, y);
    Regroup(x, y, Down11(x), Down11(y));
  }

  lemma Up7Linear(x: bv32, y: bv32)
    ensures Up7(Xor(x, y)) == Xor(Up7(x), Up7(y))
  {
  }

  lemma Mix7Linear(x: bv32, y: bv32)
    ensures Mix7(Xor(x, y)) == Xor(Mix7(x), Mix7(y))
  {
    hide Up7, Xor;
    Up7Linear(x, y);
    Regroup(x, y, Up7(x), Up7(y));
  }

  lemma Up15Linear(x: bv32, y: bv32)
    ensures Up15(Xor(x, y)) == Xor(Up15(x), Up15(y))
  {
  }

  lemma Mix15Linear(x: bv32, y: bv32)
    ensures Mix15(Xor(x, y)) == Xor(Mix15(x), Mix15(y))
  {
    hide Up15, Xor;
    Up15Linear(x, y);
    Regroup(x, y, Up15(x), Up15(y));
  }

  lemma Down18Linear(x: bv32, y: bv32)
    ensures Down18(Xor(x, y)) == Xor(Down18(x), Down18(y))
  {
  }

  lemma Mix18Linear(x: bv32, y: bv32)
    ensures Mix18(Xor(x, y)) == Xor(Mix18(x), Mix18(y))
  {
    hide Down18, Xor;
    Down18Linear(x, y);
    Regroup(x, y, Down18(x), Down18(y));
  }

  lemma Mixed(x: bv32, y: bv32)
    ensures Temper(Xor(x, y)) == Xor(Temper(x), Temper(y))
  {
    hide Mix11, Mix7, Mix15, Mix18, Xor;
    Mix11Linear(x, y);
    Mix7Linear(Mix11(x), Mix11(y));
    Mix15Linear(Mix7(Mix11(x)), Mix7(Mix11(y)));
    Mix18Linear(Mix15(Mix7(Mix11(x))), Mix15(Mix7(Mix11(y))));
  }

  /** Tempering is linear in the bits of the word, so its values at the 32 words with one bit, below, determine
      it everywhere. */
  lemma TemperLinear(x: bv32, y: bv32)
    ensures Temper(x ^ y) == Temper(x) ^ Temper(y)
  {
    hide Temper;
    Mixed(x, y);
  }

  lemma TemperLowBits()
    ensures Temper(0x0000_0001) == 0x0040_0091 && Temper(0x0000_0002) == 0x0000_0002
    ensures Temper(0x0000_0004) == 0x0102_0244 && Temper(0x0000_0008) == 0x0204_0489
    ensures Temper(0x0000_0010) == 0x0000_0010 && Temper(0x0000_0020) == 0x0800_1220
    ensures Temper(0x0000_0040) == 0x0000_0040 && Temper(0x0000_0080) == 0x2040_4890
    ensures Temper(0x0000_0100) == 0x0080_0120 && Temper(0x0000_0200) == 0x0100_0240
    ensures Temper(0x0000_0400) == 0x0200_0480 && Temper(0x0000_0800) == 0x0444_0990
    ensures Temper(0x0000_1000) == 0x0808_1200 && Temper(0x0000_2000) == 0x0102_2244
    ensures Temper(0x0000_4000) == 0x2224_4c81 && Temper(0x0000_8000) == 0x4000_9010
  {
  }

  lemma TemperHighBits()
    ensures Temper(0x0001_0000) == 0x8801_3220 && Temper(0x0002_0000) == 0x0102_0000
    ensures Temper(0x0004_0000) == 0x2044_4891 && Temper(0x0008_0000) == 0x0488_0022
    ensures Temper(0x0010_0000) == 0x0910_0044 && Temper(0x0020_0000) == 0x1220_0088
    ensures Temper(0x0040_0000) == 0x0444_0911 && Temper(0x0080_0000) == 0x0888_1222
    ensures Temper(0x0100_0000) == 0x8100_0040 && Temper(0x0200_0000) == 0x2220_4888
    ensures Temper(0x0400_0000) == 0x4400_9100 && Temper(0x0800_0000) == 0x8801_2200
    ensures Temper(0x1000_0000) == 0x1102_0440 && Temper(0x2000_0000) == 0x2004_0801
    ensures Temper(0x4000_0000) == 0x4408_1102 && Temper(0x8000_0000) == 0x8810_2204
  {
  }

  lemma JoinLinear(x: bv32, x': bv32, next: bv32, next': bv32)
    ensures Join(Xor(x, x'), Xor(next, next')) == Xor(Join(x, next), Join(x', next'))
  {
  }

  lemma HalfLinear(y: bv32, y': bv32)
    ensures Half(Xor(y, y')) == Xor(Half(y), Half(y'))
  {
  }

  lemma FeedLinear(y: bv32, y': bv32)
    ensures Feed(Xor(y, y')) == Xor(Feed(y), Feed(y'))
  {
  }

  lemma Twisted(x: bv32, x': bv32, next: bv32, next': bv32, far: bv32, far': bv32)
    ensures Twist(Xor(x, x'), Xor(next, next'), Xor(far, far')) == Xor(Twist(x, next, far), Twist(x', next', far'))
  {
    hide Join, Half, Feed, Xor;
    var y, y' := Join(x, next), Join(x', next');
    JoinLinear(x, x', next, next');
    HalfLinear(y, y');
    FeedLinear(y, y');
    Regroup(far, far', Half(y), Half(y'));
    Regroup(Xor(far, Half(y)), Xor(far', Half(y')), Feed(y), Feed(y'));
  }

  /** So is the step of the recurrence, in its three words together. */
  lemma TwistLinear(x: bv32, x': bv32, next: bv32, next': bv32, far: bv32, far': bv32)
    ensures Twist(x ^ x', next ^ next', far ^ far') == Twist(x, next, far) ^ Twist(x', next', far')
  {
    hide Twist;
    Twisted(x, x', next, next', far, far');
  }

  /** Of each word on its own: the far one is kept; the first counts by its upper bit; the next by its lower
      bits, moved down, and its lowest bit stands for the constant. */
  lemma TwistParts(x: bv32, next: bv32, far: bv32)
    ensures Twist(0, 0, far) == far
    ensures Twist(0x8000_0000, 0, 0) == 0x4000_0000 && (x & 0x8000_0000 == 0 ==> Twist(x, 0, 0) == 0)
    ensures Twist(0, 1, 0) == 0x9908_b0df && Twist(0, 0x8000_0000, 0) == 0
    ensures next & 0x8000_0001 == 0 ==> Twist(0, next, 0) == next >> 1
  {
  }

  /** Terms where the lengths 624 and 397 and the constants show. */
  lemma FirstTerms()
    ensures Term(8, 623) == 8 && Term(8, 624) == 12 && Term(1, 624) == 0x9908_b0de
    ensures Term(8, 850) == 12 && Term(8, 851) == 8
    ensures Temper(Term(8, 624)) == 0x0306_06cd
  {
  }

  // ---- Tempering loses nothing

  // Repeating a stage undoes it: twice, four times or eight times, depending on the shift.
  function Undo11(x: bv32): bv32 { Mix11(Mix11(Mix11(x))) }
  function Undo7(x: bv32): bv32 { Mix7(Mix7(Mix7(Mix7(Mix7(Mix7(Mix7(x))))))) }

  function Untemper(z: bv32): bv32 {
    Undo11(Undo7(Mix15(Mix18(z))))
  }

  ghost predicate Inverse(f: bv32 -> bv32, g: bv32 -> bv32) {
    forall x :: g(f(x)) == x
  }

  function Mix(f: bv32 -> bv32, x: bv32): bv32 { Xor(x, f(x)) }

  ghost predicate Linear(f: bv32 -> bv32) {
    forall x, y :: f(Xor(x, y)) == Xor(f(x), f(y))
  }

  lemma Cancel(x: bv32, y: bv32)
    ensures Xor(Xor(x, y), y) == x
  {
  }

  lemma Zero(x: bv32)
    ensures Xor(x, 0) == x
  {
  }

  lemma Telescope(x: bv32, a: bv32, b: bv32)
    ensures Xor(Xor(x, a), Xor(a, b)) == Xor(x, b)
  {
    hide Xor;
    Group(Xor(x, a), a, b);
    Cancel(x, a);
  }

  lemma MixTwice(f: bv32 -> bv32, x: bv32)
    requires Linear(f)
    ensures Mix(f, Mix(f, x)) == Xor(x, f(f(x)))
  {
    hide Xor;
    Telescope(x, f(x), f(f(x)));
  }

  lemma MixFourTimes(f: bv32 -> bv32, x: bv32)
    requires Linear(f)
    ensures Mix(f, Mix(f, Mix(f, Mix(f, x)))) == Xor(x, f(f(f(f(x)))))
  {
    hide Xor, Mix;
    MixTwice(f, x);
    MixTwice(f, Mix(f, Mix(f, x)));
    Telescope(x, f(f(x)), f(f(f(f(x)))));
  }

  lemma MixEightTimes(f: bv32 -> bv32, x: bv32)
    requires Linear(f)
    ensures Mix(f, Mix(f, Mix(f, Mix(f, Mix(f, Mix(f, Mix(f, Mix(f, x)))))))) == Xor(x, f(f(f(f(f(f(f(f(x)))))))))
  {
    hide Xor, Mix;
    MixFourTimes(f, x);
    MixFourTimes(f, Mix(f, Mix(f, Mix(f, Mix(f, x)))));
    Telescope(x, f(f(f(f(x)))), f(f(f(f(f(f(f(f(x)))))))));
  }

  lemma Down11Dies(x: bv32)
    ensures Down11(Down11(Down11(Down11(x)))) == 0
  {
  }

  lemma Up7Dies(x: bv32)
    ensures Up7(Up7(Up7(Up7(Up7(Up7(Up7(Up7(x)))))))) == 0
  {
  }

  lemma Stage11(x: bv32)
    ensures Undo11(Mix11(x)) == x && Mix11(Undo11(x)) == x
  {
    hide Down11, Xor;
    forall x, y ensures Down11(Xor(x, y)) == Xor(Down11(x), Down11(y)) { Down11Linear(x, y); }
    MixFourTimes(Down11, x);
    Down11Dies(x);
    Zero(x);
  }

  lemma Stage7(x: bv32)
    ensures Undo7(Mix7(x)) == x && Mix7(Undo7(x)) == x
  {
    hide Up7, Xor;
    forall x, y ensures Up7(Xor(x, y)) == Xor(Up7(x), Up7(y)) { Up7Linear(x, y); }
    MixEightTimes(Up7, x);
    Up7Dies(x);
    Zero(x);
  }

  lemma Up15Dies(x: bv32)
    ensures Up15(Up15(x)) == 0
  {
  }

  lemma Stage15(x: bv32)
    ensures Mix15(Mix15(x)) == x
  {
    hide Up15, Xor;
    forall x, y ensures Up15(Xor(x, y)) == Xor(Up15(x), Up15(y)) { Up15Linear(x, y); }
    MixTwice(Up15, x);
    Up15Dies(x);
    Zero(x);
  }

  lemma Down18Dies(x: bv32)
    ensures Down18(Down18(x)) == 0
  {
  }

  lemma Stage18(x: bv32)
    ensures Mix18(Mix18(x)) == x
  {
    hide Down18, Xor;
    forall x, y ensures Down18(Xor(x, y)) == Xor(Down18(x), Down18(y)) { Down18Linear(x, y); }
    MixTwice(Down18, x);
    Down18Dies(x);
    Zero(x);
  }

  lemma Stages()
    ensures Inverse(Mix11, Undo11) && Inverse(Undo11, Mix11)
    ensures Inverse(Mix7, Undo7) && Inverse(Undo7, Mix7)
    ensures Inverse(Mix15, Mix15) && Inverse(Mix18, Mix18)
  {
    forall x ensures Undo11(Mix11(x)) == x && Mix11(Undo11(x)) == x { Stage11(x); }
    forall x ensures Undo7(Mix7(x)) == x && Mix7(Undo7(x)) == x { Stage7(x); }
    forall x ensures Mix15(Mix15(x)) == x { Stage15(x); }
    forall x ensures Mix18(Mix18(x)) == x { Stage18(x); }
  }

  lemma Chain(f1: bv32 -> bv32, f2: bv32 -> bv32, f3: bv32 -> bv32, f4: bv32 -> bv32,
              g1: bv32 -> bv32, g2: bv32 -> bv32, g3: bv32 -> bv32, g4: bv32 -> bv32, x: bv32)
    requires Inverse(f1, g1) && Inverse(f2, g2) && Inverse(f3, g3) && Inverse(f4, g4)
    ensures g1(g2(g3(g4(f4(f3(f2(f1(x)))))))) == x
  {
    assert g4(f4(f3(f2(f1(x))))) == f3(f2(f1(x)));
    assert g3(f3(f2(f1(x)))) == f2(f1(x));
    assert g2(f2(f1(x))) == f1(x);
  }

  /** Tempering is a bijection on 32-bit words, with Untemper as its inverse. */
  lemma TemperBijective(x: bv32)
    ensures Untemper(Temper(x)) == x
    ensures Temper(Untemper(x)) == x
  {
    Stages();
    Chain(Mix11, Mix7, Mix15, Mix18, Undo11, Undo7, Mix15, Mix18, x);
    Chain(Mix18, Mix15, Undo7, Undo11, Mix18, Mix15, Mix7, Mix11, x);
  }

  lemma {:induction false} ZeroTerm(n: nat)
    ensures Term(0, n) == 0
  {
    if n >= LEN {
      ZeroTerm(n - LEN);
      ZeroTerm(n - LEN + 1);
      ZeroTerm(n - LEN + SHIFT);
    }
  }

  // If the two words behind it are 0, a twist is 0 only of words that are 0 where it looks at them.
  lemma TwistZero(x: bv32, next: bv32)
    requires Twist(x, next, 0) == 0
    ensures x & 0x8000_0000 == 0 && next & 0x7fff_ffff == 0
  {
  }

  lemma BothParts(x: bv32)
    requires x & 0x8000_0000 == 0 && x & 0x7fff_ffff == 0
    ensures x == 0
  {
  }

  lemma TermStep(seed: bv32, n: nat)
    ensures Term(seed, n + LEN) == Twist(Term(seed, n), Term(seed, n + 1), Term(seed, n + SHIFT))
  {
  }

  ghost predicate ZeroFrom(seed: bv32, n: nat) {
    forall m: nat :: m >= n ==> Term(seed, m) == 0
  }

  // A term is determined by those after it, so zeros go back to the first term but one.
  lemma OneBack(seed: bv32, n: nat)
    requires n >= 2 && ZeroFrom(seed, n)
    ensures ZeroFrom(seed, n - 1)
  {
    hide Twist, Term;
    TermStep(seed, n - 1);
    TwistZero(Term(seed, n - 1), Term(seed, n));
    TermStep(seed, n - 2);
    TwistZero(Term(seed, n - 2), Term(seed, n - 1));
    BothParts(Term(seed, n - 1));
  }

  lemma {:induction false} ZerosGoBack(seed: bv32, n: nat)
    requires n >= 1 && ZeroFrom(seed, n)
    ensures seed == 0
  {
    hide Twist, Term;
    if n > 1 {
      OneBack(seed, n);
      ZerosGoBack(seed, n - 1);
    } else {
      SecondTerm(seed);
    }
  }

  lemma SecondTerm(seed: bv32)
    ensures Term(seed, 1) == seed
  {
  }

  lemma TemperZero(x: bv32)
    ensures Temper(x) == 0 <==> x == 0
  {
    TemperBijective(x);
    TemperBijective(0);
    assert Temper(0) == 0;
  }

  // Word k of the generator's output.
  function Output(seed: bv32, k: nat): bv32 {
    Temper(Term(seed, 101 * LEN + k))
  }

  /** Seed 0 is the one degenerate seed: its output is all zeros, and no other seed's is. */
  lemma ZeroSeed(seed: bv32)
    ensures seed == 0 <==> forall k: nat :: Output(seed, k) == 0
  {
    if seed == 0 {
      forall k: nat ensures Output(seed, k) == 0 { ZeroTerm(101 * LEN + k); }
    } else if forall k: nat :: Output(seed, k) == 0 {
      forall m: nat | m >= 101 * LEN ensures Term(seed, m) == 0 {
        assert Output(seed, m - 101 * LEN) == 0;
        TemperZero(Term(seed, m));
      }
      ZerosGoBack(seed, 101 * LEN);
    }
  }

  // ---- The generator

  // f follows the recurrence at n.
  ghost predicate Follows(f: nat -> bv32, n: nat) {
    f(n + LEN) == Twist(f(n), f(n + 1), f(n + SHIFT))
  }

  ghost predicate Recurrence(f: nat -> bv32) {
    forall n: nat :: Follows(f, n)
  }

  ghost function Terms(seed: bv32): nat -> bv32 {
    (n: nat) => Term(seed, n)
  }

  lemma TermsRecur(seed: bv32)
    ensures Recurrence(Terms(seed))
  {
    forall n: nat ensures Follows(Terms(seed), n) { }
  }

  // Reading the buffer from index on, around the end, gives LEN terms of f from number calls on.
  ghost predicate View(buf: seq<bv32>, index: nat, f: nat -> bv32, calls: nat) {
    && |buf| == LEN && index < LEN
    && forall p :: 0 <= p < LEN ==> buf[p] == f(TermAt(index, calls, p))
  }

  function TermAt(index: nat, calls: nat, p: nat): nat
    requires index < LEN && p < LEN
  {
    if p >= index then calls + p - index else calls + LEN + p - index
  }

  // Indices around the end of the buffer.
  function Wrap(i: nat): nat { if i >= LEN then i - LEN else i }

  // Overwriting the oldest word by its twist moves the view on by one term.
  lemma ViewStep(buf: seq<bv32>, index: nat, f: nat -> bv32, calls: nat)
    requires View(buf, index, f, calls) && Recurrence(f)
    ensures var word := Twist(buf[index], buf[Wrap(index + 1)], buf[Wrap(index + SHIFT)]);
      word == f(calls + LEN) && View(buf[index := word], Wrap(index + 1), f, calls + 1)
  {
    assert buf[index] == f(calls);
    assert buf[Wrap(index + SHIFT)] == f(calls + SHIFT);
    assert buf[Wrap(index + 1)] == f(calls + 1);
    var word := f(calls + LEN);
    assert Follows(f, calls);
    var buf' := buf[index := word];
    forall p: nat | p < LEN ensures buf'[p] == f(TermAt(Wrap(index + 1), calls + 1, p)) {
      assert p != index ==> TermAt(index, calls, p) == TermAt(Wrap(index + 1), calls + 1, p);
      assert p == index ==> TermAt(Wrap(index + 1), calls + 1, p) == calls + LEN;
    }
  }

  class Twister {
    const buffer: array<bv32>
    var index: nat

    // terms and calls are history: the sequence generated and the number of words generated so far.
    ghost const terms: nat -> bv32
    ghost var calls: nat

    ghost predicate Valid()
      reads this, buffer
    {
      View(buffer[..], index, terms, calls) && index == calls % LEN && Recurrence(terms)
    }

    // mersenne_twister_create
    constructor (seed: bv32)
      ensures Valid() && fresh(buffer)
      ensures terms == Terms(seed) && calls == 100 * LEN && index == 0
    {
      buffer := new bv32[LEN](_ => seed);
      index := 0;
      terms := Terms(seed);
      calls := 0;
      new;
      TermsRecur(seed);
      for i := 0 to LEN * 100
        invariant Valid() && terms == Terms(seed) && calls == i
      {
        var _ := Generate();
      }
    }

    // mersenne_twister_generate
    method Generate() returns (r: bv32)
      requires Valid()
      modifies this`index, this`calls, buffer
      ensures Valid() && calls == old(calls) + 1
      ensures r == Temper(terms(old(calls) + LEN))
    {
      r := Advance();
      r := TemperWord(r);
    }

    // Its first half: the new word replaces the oldest one.
    method Advance() returns (r: bv32)
      requires Valid()
      modifies this`index, this`calls, buffer
      ensures Valid() && calls == old(calls) + 1
      ensures r == terms(old(calls) + LEN)
    {
      hide Twist, Recurrence, TermAt;
      var i := index;
      var i2 := index + 1;
      var j := index + SHIFT;
      if i2 >= LEN { i2 := 0; }
      if j >= LEN { j := j - LEN; }
      ViewStep(buffer[..], index, terms, calls);
      NextIndex(calls);

      r := TwistWord(buffer[i], buffer[i2], buffer[j]);
      buffer[index] := r;
      assert buffer[..] == old(buffer[..])[i := r];
      index := i2;
      calls := calls + 1;
    }
  }

  // The new word, with the product in place of the branch of Feed.
  method TwistWord(x: bv32, next: bv32, far: bv32) returns (r: bv32)
    ensures r == Twist(x, next, far)
  {
    hide Xor, Join, Half;
    var s := Join(x, next);
    LowBit(s);
    var m := Reduction(s & 1);
    r := Xor(Xor(far, Half(s)), m);
  }

  // The product, of the lowest bit and the constant.
  method Reduction(b: bv32) returns (m: bv32)
    requires b == 0 || b == 1
    ensures m == if b == 1 then 0x9908_b0df else 0
  {
    Times(b);
    m := b * 0x9908_b0df;
  }

  // Its second half, one compound assignment a line.
  method TemperWord(x: bv32) returns (r: bv32)
    ensures r == Temper(x)
  {
    r := Mix11(x);
    r := Mix7(r);
    r := Mix15(r);
    r := Mix18(r);
  }

  lemma NextIndex(n: nat)
    ensures (n + 1) % LEN == if n % LEN + 1 >= LEN then 0 else n % LEN + 1
  {
  }

  /** The view of the buffer stated with the remainder: slot (index + d) % LEN holds term calls + d. */
  lemma CircularView(t: Twister, d: nat)
    requires t.Valid() && d < LEN
    ensures t.buffer[(t.index + d) % LEN] == t.terms(t.calls + d)
  {
    var p := if t.index + d >= LEN then t.index + d - LEN else t.index + d;
    assert (t.index + d) % LEN == p && t.buffer[..][p] == t.terms(TermAt(t.index, t.calls, p));
  }

  // A client: the words a caller gets are the tempered terms that follow the warm-up.
  method FirstWords(seed: bv32, n: nat) returns (out: seq<bv32>)
    ensures |out| == n
    ensures forall k :: 0 <= k < n ==> out[k] == Output(seed, k)
  {
    var t := new Twister(seed);
    out := [];
    for k := 0 to n
      invariant t.Valid() && t.calls == 100 * LEN + k && fresh(t) && fresh(t.buffer)
      invariant |out| == k
      invariant forall m :: 0 <= m < k ==> out[m] == Temper(t.terms(101 * LEN + m))
    {
      var r := t.Generate();
      out := out + [r];
    }
  }
}
