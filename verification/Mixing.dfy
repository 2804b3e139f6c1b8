/**
 xorshiftMult64 of pkg/partition/consistent/rendezvous.go, on 64-bit words: three xor-shifts and
 an odd multiplier, each of which can be undone.
 */
module Mixing {

  type Word = bv64

  function Mix(x: Word): Word {
    Times(ShiftC(ShiftB(ShiftA(x))))
  }

  function ShiftA(x: Word): Word {
    x ^ (x >> 12)
  }

  function ShiftB(x: Word): Word {
    x ^ (x << 25)
  }

  function ShiftC(x: Word): Word {
    x ^ (x >> 27)
  }

  function Times(x: Word): Word {
    x * 2685821657736338717
  }

  /** The inverse multiplier modulo 2^64, then the three xor-shifts unrolled to the word size. */
  function Unmix(y: Word): Word {
    UnshiftA(UnshiftB(UnshiftC(Untimes(y))))
  }

  function UnshiftA(x: Word): Word {
    x ^ (x >> 12) ^ (x >> 24) ^ (x >> 36) ^ (x >> 48) ^ (x >> 60)
  }

  function UnshiftB(x: Word): Word {
    x ^ (x << 25) ^ (x << 50)
  }

  function UnshiftC(x: Word): Word {
    x ^ (x >> 27) ^ (x >> 54)
  }

  function Untimes(x: Word): Word {
    x * 6415128727920758069
  }

  // ---------------------------------------------------------------- one shift at a time

  lemma XorPair(a: Word, b: Word)
    ensures (a ^ b) ^ b == a
  {
  }

  lemma XorChain3(a: Word, b: Word, c: Word)
    ensures (a ^ b) ^ (b ^ c) ^ c == a
  {
  }

  lemma XorChain6(a: Word, b: Word, c: Word, d: Word, e: Word, f: Word)
    ensures (a ^ b) ^ (b ^ c) ^ (c ^ d) ^ (d ^ e) ^ (e ^ f) ^ f == a
  {
  }

  lemma ShiftABy12(x: Word)
    ensures ShiftA(x) >> 12 == (x >> 12) ^ (x >> 24)
  {
  }

  lemma ShiftABy24(x: Word)
    ensures ShiftA(x) >> 24 == (x >> 24) ^ (x >> 36)
  {
  }

  lemma ShiftABy36(x: Word)
    ensures ShiftA(x) >> 36 == (x >> 36) ^ (x >> 48)
  {
  }

  lemma ShiftABy48(x: Word)
    ensures ShiftA(x) >> 48 == (x >> 48) ^ (x >> 60)
  {
  }

  lemma ShiftABy60(x: Word)
    ensures ShiftA(x) >> 60 == x >> 60
  {
  }

  lemma UnshiftABy12(x: Word)
    ensures UnshiftA(x) >> 12 == (x >> 12) ^ (x >> 24) ^ (x >> 36) ^ (x >> 48) ^ (x >> 60)
  {
  }

  lemma UndoA(x: Word)
    ensures UnshiftA(ShiftA(x)) == x
  {
    ShiftABy12(x);
    ShiftABy24(x);
    ShiftABy36(x);
    ShiftABy48(x);
    ShiftABy60(x);
    XorChain6(x, x >> 12, x >> 24, x >> 36, x >> 48, x >> 60);
  }

  lemma RedoA(x: Word)
    ensures ShiftA(UnshiftA(x)) == x
  {
    UnshiftABy12(x);
    XorPair(x, (x >> 12) ^ (x >> 24) ^ (x >> 36) ^ (x >> 48) ^ (x >> 60));
  }

  lemma ShiftBBy25(x: Word)
    ensures ShiftB(x) << 25 == (x << 25) ^ (x << 50)
  {
  }

  lemma ShiftBBy50(x: Word)
    ensures ShiftB(x) << 50 == x << 50
  {
  }

  lemma UnshiftBBy25(x: Word)
    ensures UnshiftB(x) << 25 == (x << 25) ^ (x << 50)
  {
  }

  lemma UndoB(x: Word)
    ensures UnshiftB(ShiftB(x)) == x
  {
    ShiftBBy25(x);
    ShiftBBy50(x);
    XorChain3(x, x << 25, x << 50);
  }

  lemma RedoB(x: Word)
    ensures ShiftB(UnshiftB(x)) == x
  {
    UnshiftBBy25(x);
    XorPair(x, (x << 25) ^ (x << 50));
  }

  lemma ShiftCBy27(x: Word)
    ensures ShiftC(x) >> 27 == (x >> 27) ^ (x >> 54)
  {
  }

  lemma ShiftCBy54(x: Word)
    ensures ShiftC(x) >> 54 == x >> 54
  {
  }

  lemma UnshiftCBy27(x: Word)
    ensures UnshiftC(x) >> 27 == (x >> 27) ^ (x >> 54)
  {
  }

  lemma UndoC(x: Word)
    ensures UnshiftC(ShiftC(x)) == x
  {
    ShiftCBy27(x);
    ShiftCBy54(x);
    XorChain3(x, x >> 27, x >> 54);
  }

  lemma RedoC(x: Word)
    ensures ShiftC(UnshiftC(x)) == x
  {
    UnshiftCBy27(x);
    XorPair(x, (x >> 27) ^ (x >> 54));
  }

  /** The two multipliers are inverse modulo 2^64. */
  lemma UntimesProduct(x: Word)
    ensures Untimes(x * 2685821657736338717) == x
  {
  }

  lemma TimesProduct(x: Word)
    ensures Times(x * 6415128727920758069) == x
  {
  }

  lemma UndoTimes(x: Word)
    ensures Untimes(Times(x)) == x
  {
    hide Untimes;
    UntimesProduct(x);
  }

  lemma RedoTimes(x: Word)
    ensures Times(Untimes(x)) == x
  {
    hide Times;
    TimesProduct(x);
  }

  // ---------------------------------------------------------------- the whole

  /** Unmix undoes Mix on every word, and the other way round. */
  lemma MixIsBijective(x: Word)
    ensures Unmix(Mix(x)) == x
    ensures Mix(Unmix(x)) == x
  {
    hide ShiftA, ShiftB, ShiftC, UnshiftA, UnshiftB, UnshiftC, Times, Untimes;
    UndoTimes(ShiftC(ShiftB(ShiftA(x))));
    UndoC(ShiftB(ShiftA(x)));
    UndoB(ShiftA(x));
    UndoA(x);
    RedoTimes(x);
    RedoC(Untimes(x));
    RedoB(UnshiftC(Untimes(x)));
    RedoA(UnshiftB(UnshiftC(Untimes(x))));
  }

  // ---------------------------------------------------------------- bit by bit

  /** Positions of bits, 0 to 63. */
  type Index = bv7

  /** Bit i of a word, the lowest being bit 0. */
  predicate Bit(w: Word, i: Index)
    requires i < 64
  {
    w & (1 << i) != 0
  }

  /** Exclusive or of two bits; beyond either end of the word there are only zeros. */
  predicate Xor(a: bool, b: bool) {
    a != b
  }

  predicate Down12Bit(x: Word, i: Index)
    requires i < 64
  {
    Bit(x >> 12, i)
  }

  predicate Down12XorBit(x: Word, i: Index)
    requires i < 64
  {
    Bit(x ^ (x >> 12), i)
  }

  lemma Down12Moves(x: Word, i: Index)
    requires i < 64
    ensures Down12Bit(x, i) == (i < 52 && Bit(x, i + 12))
  {
  }

  lemma Down12Xors(x: Word, i: Index)
    requires i < 64
    ensures Down12XorBit(x, i) == Xor(Bit(x, i), Down12Bit(x, i))
  {
  }

  lemma ShiftAIsXor(x: Word, i: Index)
    requires i < 64
    ensures Bit(ShiftA(x), i) == Down12XorBit(x, i)
  {
    hide Bit;
  }

  lemma ShiftABit(x: Word, i: Index)
    requires i < 64
    ensures Bit(ShiftA(x), i) == Xor(Bit(x, i), i < 52 && Bit(x, i + 12))
  {
    hide Bit, ShiftA, Down12Bit, Down12XorBit;
    ShiftAIsXor(x, i);
    Down12Xors(x, i);
    Down12Moves(x, i);
  }

  predicate Up25Bit(x: Word, i: Index)
    requires i < 64
  {
    Bit(x << 25, i)
  }

  predicate Up25XorBit(x: Word, i: Index)
    requires i < 64
  {
    Bit(x ^ (x << 25), i)
  }

  lemma Up25Moves(x: Word, i: Index)
    requires i < 64
    ensures Up25Bit(x, i) == (i >= 25 && Bit(x, i - 25))
  {
  }

  lemma Up25Xors(x: Word, i: Index)
    requires i < 64
    ensures Up25XorBit(x, i) == Xor(Bit(x, i), Up25Bit(x, i))
  {
  }

  lemma ShiftBIsXor(x: Word, i: Index)
    requires i < 64
    ensures Bit(ShiftB(x), i) == Up25XorBit(x, i)
  {
    hide Bit;
  }

  lemma ShiftBBit(x: Word, i: Index)
    requires i < 64
    ensures Bit(ShiftB(x), i) == Xor(Bit(x, i), i >= 25 && Bit(x, i - 25))
  {
    hide Bit, ShiftB, Up25Bit, Up25XorBit;
    ShiftBIsXor(x, i);
    Up25Xors(x, i);
    Up25Moves(x, i);
  }

  predicate Down27Bit(x: Word, i: Index)
    requires i < 64
  {
    Bit(x >> 27, i)
  }

  predicate Down27XorBit(x: Word, i: Index)
    requires i < 64
  {
    Bit(x ^ (x >> 27), i)
  }

  lemma Down27Moves(x: Word, i: Index)
    requires i < 64
    ensures Down27Bit(x, i) == (i < 37 && Bit(x, i + 27))
  {
  }

  lemma Down27Xors(x: Word, i: Index)
    requires i < 64
    ensures Down27XorBit(x, i) == Xor(Bit(x, i), Down27Bit(x, i))
  {
  }

  lemma ShiftCIsXor(x: Word, i: Index)
    requires i < 64
    ensures Bit(ShiftC(x), i) == Down27XorBit(x, i)
  {
    hide Bit;
  }

  lemma ShiftCBit(x: Word, i: Index)
    requires i < 64
    ensures Bit(ShiftC(x), i) == Xor(Bit(x, i), i < 37 && Bit(x, i + 27))
  {
    hide Bit, ShiftC, Down27Bit, Down27XorBit;
    ShiftCIsXor(x, i);
    Down27Xors(x, i);
    Down27Moves(x, i);
  }

  /** A bit after the first shift. */
  predicate FirstBit(x: Word, i: Index)
    requires i < 64
  {
    Xor(Bit(x, i), i < 52 && Bit(x, i + 12))
  }

  /** A bit after the first two. */
  predicate SecondBit(x: Word, i: Index)
    requires i < 64
  {
    Xor(FirstBit(x, i), i >= 25 && FirstBit(x, i - 25))
  }

  /** Before the multiplication bit i is that of the word, xor bits 12 above, 25 below, 27 above and their sums. */
  lemma MixBits(x: Word, i: Index)
    requires i < 64
    ensures Bit(Untimes(Mix(x)), i) == Xor(SecondBit(x, i), i < 37 && SecondBit(x, i + 27))
  {
    hide ShiftA, ShiftB, ShiftC, Times, Untimes, Bit;
    UndoTimes(ShiftC(ShiftB(ShiftA(x))));
    ShiftCBit(ShiftB(ShiftA(x)), i);
    SecondBitIs(x, i);
    if i < 37 {
      SecondBitIs(x, i + 27);
    }
  }

  lemma SecondBitIs(x: Word, i: Index)
    requires i < 64
    ensures Bit(ShiftB(ShiftA(x)), i) == SecondBit(x, i)
  {
    hide ShiftA, ShiftB, Bit;
    ShiftBBit(ShiftA(x), i);
    ShiftABit(x, i);
    if i >= 25 {
      ShiftABit(x, i - 25);
    }
  }

  /** A known answer, which fixes the multiplier. */
  lemma MixOfOne()
    ensures Mix(1) == 5180492295206395165
  {
  }

  // ---------------------------------------------------------------- scores as numbers

  /** A word as the number it stands for; unsigned comparison of words is comparison of these. */
  function Number(w: Word): (n: nat)
    ensures n < 0x1_0000_0000_0000_0000
  {
    w as nat
  }

  function FromNumber(n: nat): Word
    requires n < 0x1_0000_0000_0000_0000
  {
    n as Word
  }

  lemma FromNumberUndoes(w: Word)
    ensures FromNumber(Number(w)) == w
  {
  }

  lemma XorTwice(key: Word, a: Word)
    ensures key ^ (key ^ a) == a
  {
  }

  /** The score of a node hash for a key hash. */
  function Blend(key: Word, node: Word): nat {
    Number(Mix(key ^ node))
  }

  lemma MixIsInjective(x: Word, y: Word)
    requires Mix(x) == Mix(y)
    ensures x == y
  {
    hide Mix, Unmix;
    MixIsBijective(x);
    MixIsBijective(y);
  }

  /** Scores agree exactly where the combined hashes do. */
  lemma BlendIsExact(key: Word, a: Word, key': Word, a': Word)
    ensures Blend(key, a) == Blend(key', a') <==> key ^ a == key' ^ a'
  {
    hide Mix, Number, FromNumber;
    FromNumberUndoes(Mix(key ^ a));
    FromNumberUndoes(Mix(key' ^ a'));
    if Blend(key, a) == Blend(key', a') {
      MixIsInjective(key ^ a, key' ^ a');
    }
  }

  /** Nodes with different name hashes never tie for a key. */
  lemma NoTies(key: Word, a: Word, b: Word)
    requires Blend(key, a) == Blend(key, b)
    ensures a == b
  {
    hide Blend;
    BlendIsExact(key, a, key, b);
    XorTwice(key, a);
    XorTwice(key, b);
  }

  const LARGEST: Word := 0xffff_ffff_ffff_ffff

  lemma LargestNumber()
    ensures Number(LARGEST) == 0xffff_ffff_ffff_ffff
  {
  }

  /** The key hash for which a node hash has the largest score of all. */
  function KeyFor(node: Word): Word {
    Unmix(LARGEST) ^ node
  }

  lemma XorCancels(a: Word, b: Word)
    ensures (a ^ b) ^ b == a
  {
  }

  /** For that key every other hash scores less. */
  lemma KeyForWins(node: Word, other: Word)
    requires other != node
    ensures Blend(KeyFor(node), other) < Blend(KeyFor(node), node)
  {
    hide Mix, Unmix, Number;
    MixIsBijective(LARGEST);
    XorCancels(Unmix(LARGEST), node);
    LargestNumber();
    assert Blend(KeyFor(node), node) == 0xffff_ffff_ffff_ffff;
    if Blend(KeyFor(node), other) == Blend(KeyFor(node), node) {
      NoTies(KeyFor(node), other, node);
    }
  }
}
