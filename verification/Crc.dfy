/** The CRC-32 of usr/bin/ar.c and usr/bin/herd.c (section 8 of RFC 1952): the
    table method against a shift register fed one bit at a time. */
module Crc {

  /** A 32-bit register. */
  datatype Word = Word(v: bv32)

  const POLY := Word(0xEDB88320)
  const ONES := Word(0xFFFFFFFF)
  const ZERO := Word(0)

  function Xor(a: Word, b: Word): Word { Word(a.v ^ b.v) }

  function Shr(a: Word): Word { Word(a.v >> 1) }

  predicate Low(a: Word) { a.v & 1 == 1 }

  function Shr8(a: Word): Word { Word(a.v >> 8) }

  function LowByte(a: Word): Word { Word(a.v & 0xFF) }

  function HighBytes(a: Word): Word { Xor(a, LowByte(a)) }

  lemma XorAssoc(a: Word, b: Word, c: Word)
    ensures Xor(Xor(a, b), c) == Xor(a, Xor(b, c))
  {
  }

  lemma XorComm(a: Word, b: Word)
    ensures Xor(a, b) == Xor(b, a)
  {
  }

  lemma XorSame(a: Word)
    ensures Xor(a, a) == ZERO
  {
    assert a.v ^ a.v == 0;
  }

  lemma XorZero(a: Word)
    ensures Xor(a, ZERO) == a
  {
    assert a.v ^ 0 == a.v;
  }

  lemma ShrXor(a: Word, b: Word)
    ensures Shr(Xor(a, b)) == Xor(Shr(a), Shr(b))
    ensures Low(Xor(a, b)) == (Low(a) != Low(b))
  {
  }

  lemma Halves(c: Word)
    ensures c == Xor(LowByte(c), HighBytes(c))
  {
    hide Xor, LowByte;
    XorComm(c, LowByte(c));
    XorAssoc(LowByte(c), LowByte(c), c);
    XorSame(LowByte(c));
    XorComm(ZERO, c);
    XorZero(c);
  }

  function Step(c: Word): (r: Word) { if Low(c) then Xor(POLY, Shr(c)) else Shr(c) }

  function Steps(c: Word, n: nat): (r: Word)
    decreases n
  {
    if n == 0 then c else Steps(Step(c), n - 1)
  }

  function Shrs(c: Word, n: nat): (r: Word)
    decreases n
  {
    if n == 0 then c else Shrs(Shr(c), n - 1)
  }

  /** The `n` low bits are 0. */
  predicate Clear(c: Word, n: nat)
    decreases n
  {
    n == 0 || (!Low(c) && Clear(Shr(c), n - 1))
  }

  // Eight shifts of one are a shift of eight, put together from halves.

  function Shr2(a: Word): Word { Word(a.v >> 2) }
  function Shr4(a: Word): Word { Word(a.v >> 4) }
  predicate Clear2(a: Word) { a.v & 0x3 == 0 }
  predicate Clear4(a: Word) { a.v & 0xF == 0 }
  predicate Clear8(a: Word) { a.v & 0xFF == 0 }

  lemma Two(a: Word)
    ensures Shr(Shr(a)) == Shr2(a)
    ensures Clear2(a) ==> !Low(a) && !Low(Shr(a))
  {
  }

  lemma Four(a: Word)
    ensures Shr2(Shr2(a)) == Shr4(a)
    ensures Clear4(a) ==> Clear2(a) && Clear2(Shr2(a))
  {
  }

  lemma Eight(a: Word)
    ensures Shr4(Shr4(a)) == Shr8(a)
    ensures Clear8(a) ==> Clear4(a) && Clear4(Shr4(a))
  {
  }

  lemma HighBytesEnd(a: Word)
    ensures Clear8(HighBytes(a))
  {
  }

  lemma HighBytesTop(a: Word)
    ensures Shr8(HighBytes(a)) == Shr8(a)
  {
    hide Xor, LowByte, Shr8;
    Shr8Xor(a, LowByte(a));
    LowByteTop(a);
    XorZero(Shr8(a));
  }

  lemma Shr8Xor(a: Word, b: Word)
    ensures Shr8(Xor(a, b)) == Xor(Shr8(a), Shr8(b))
  {
  }

  lemma LowByteTop(a: Word)
    ensures Shr8(LowByte(a)) == ZERO
  {
    assert (a.v & 0xFF) >> 8 == 0;
  }

  lemma {:induction false} Joined(c: Word, m: nat, n: nat)
    ensures Shrs(c, m + n) == Shrs(Shrs(c, m), n)
    ensures Clear(c, m + n) <==> Clear(c, m) && Clear(Shrs(c, m), n)
    decreases m
  {
    hide Shr, Low;
    if m > 0 { Joined(Shr(c), m - 1, n); }
  }

  lemma ClearTwo(c: Word)
    ensures Shrs(c, 2) == Shr2(c)
    ensures Clear2(c) ==> Clear(c, 2)
  {
    hide Shr, Shr2, Low, Clear2;
    Two(c);
    assert Shrs(Shr(c), 1) == Shrs(Shr(Shr(c)), 0);
    assert Clear(Shr(c), 1) == (!Low(Shr(c)) && Clear(Shr(Shr(c)), 0));
  }

  lemma ClearFour(c: Word)
    ensures Shrs(c, 4) == Shr4(c)
    ensures Clear4(c) ==> Clear(c, 4)
  {
    hide *;
    Four(c);
    ClearTwo(c);
    ClearTwo(Shr2(c));
    Joined(c, 2, 2);
  }

  lemma Clear8Means(h: Word)
    requires Clear8(h)
    ensures Clear(h, 8) && Shrs(h, 8) == Shr8(h)
  {
    hide *;
    Eight(h);
    ClearFour(h);
    ClearFour(Shr4(h));
    Joined(h, 4, 4);
  }

  lemma {:induction false} StepsClear(c: Word, n: nat)
    requires Clear(c, n)
    ensures Steps(c, n) == Shrs(c, n)
    decreases n
  {
    hide Low, Shr, Xor;
    if n > 0 { StepsClear(Shr(c), n - 1); }
  }

  lemma StepXor(a: Word, b: Word)
    ensures Step(Xor(a, b)) == Xor(Step(a), Step(b))
  {
    hide Low, Shr, Xor;
    var x, y := Shr(a), Shr(b);
    ShrXor(a, b);
    XorAssoc(POLY, x, y);
    XorAssoc(x, POLY, y);
    XorComm(x, POLY);
    XorAssoc(Xor(POLY, x), POLY, y);
    XorAssoc(x, POLY, POLY);
    XorSame(POLY);
    XorZero(x);
    XorAssoc(Xor(x, POLY), POLY, y);
  }

  lemma {:induction false} StepsXor(a: Word, b: Word, n: nat)
    ensures Steps(Xor(a, b), n) == Xor(Steps(a, n), Steps(b, n))
    decreases n
  {
    hide Step, Xor;
    if n > 0 {
      StepXor(a, b);
      StepsXor(Step(a), Step(b), n - 1);
    }
  }

  /** The step of the table method. */
  lemma TableStep(c: Word)
    ensures Steps(c, 8) == Xor(Steps(LowByte(c), 8), Shr8(c))
  {
    hide *;
    Halves(c);
    StepsXor(LowByte(c), HighBytes(c), 8);
    HighBytesEnd(c);
    HighBytesTop(c);
    Clear8Means(HighBytes(c));
    StepsClear(HighBytes(c), 8);
  }

  // The message, one bit at a time.

  /** The register takes one bit of the message: the feedback is that bit against the low end. */
  function FeedBit(c: Word, bit: bool): (r: Word) {
    if Low(c) != bit then Xor(POLY, Shr(c)) else Shr(c)
  }

  /** The `n` low bits of `b`, lowest first. */
  function FeedBits(c: Word, b: Word, n: nat): (r: Word)
    decreases n
  {
    if n == 0 then c else FeedBits(FeedBit(c, Low(b)), Shr(b), n - 1)
  }

  function ByteWord(b: bv8): Word { Word(b as bv32) }

  /** The register after every bit of the message. */
  function Feed(c: Word, d: seq<bv8>): (r: Word)
    decreases d
  {
    if d == [] then c else Feed(FeedBits(c, ByteWord(d[0]), 8), d[1..])
  }

  /** The checksum: the register starts as all ones, and is complemented at the end. */
  function Checksum(d: seq<bv8>): (r: Word) { Xor(Feed(ONES, d), ONES) }

  lemma {:induction false} FeedSteps(c: Word, b: Word, n: nat)
    ensures FeedBits(c, b, n) == Xor(Steps(Xor(c, b), n), Shrs(b, n))
    decreases n
  {
    hide Low, Shr, Xor;
    if n == 0 {
      XorAssoc(c, b, b);
      XorSame(b);
      XorZero(c);
    } else {
      var c' := FeedBit(c, Low(b));
      FeedSteps(c', Shr(b), n - 1);
      ShrXor(c, b);
      XorAssoc(POLY, Shr(c), Shr(b));
      assert Xor(c', Shr(b)) == Step(Xor(c, b));
    }
  }

  lemma ByteShifts(b: bv8)
    ensures Shrs(ByteWord(b), 8) == ZERO
  {
    hide Shr, Shr8, Shr4, Clear, Shrs;
    Eight(ByteWord(b));
    ClearFour(ByteWord(b));
    ClearFour(Shr4(ByteWord(b)));
    Joined(ByteWord(b), 4, 4);
    ByteTop(b);
  }

  lemma ByteTop(b: bv8)
    ensures Shr8(ByteWord(b)) == ZERO
  {
    assert (b as bv32) >> 8 == 0;
  }

  /** A byte of the message: the table method's step is eight of the register's. */
  lemma ByteStep(c: Word, b: bv8)
    ensures var x := Xor(c, ByteWord(b));
      FeedBits(c, ByteWord(b), 8) == Steps(x, 8) == Xor(Steps(LowByte(x), 8), Shr8(x))
  {
    hide *;
    var x := Xor(c, ByteWord(b));
    FeedSteps(c, ByteWord(b), 8);
    ByteShifts(b);
    XorZero(Steps(x, 8));
    TableStep(x);
  }
}
