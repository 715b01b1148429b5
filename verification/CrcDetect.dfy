/** What the checksum is for: a change confined to four bytes in a row is always seen. */
module CrcDetect {
  import opened Crc

  lemma StepZero(c: Word)
    requires Step(c) == ZERO
    ensures c == ZERO
  {
    hide Xor;
    ShiftedOut(c);
    if Low(c) {
      XorAssoc(POLY, POLY, Shr(c));
      XorSame(POLY);
      XorComm(ZERO, Shr(c));
      XorZero(Shr(c));
      XorZero(POLY);
    }
  }

  /** A shifted word has an empty top bit, which the polynomial has not. */
  lemma ShiftedOut(c: Word)
    ensures Shr(c) != POLY
    ensures Shr(c) == ZERO && !Low(c) ==> c == ZERO
  {
  }

  lemma XorZeroMeans(a: Word, b: Word)
    ensures Xor(a, b) == ZERO <==> a == b
  {
  }

  lemma {:induction false} StepsOnce(a: Word, b: Word, n: nat)
    requires Steps(a, n) == Steps(b, n)
    ensures a == b
    decreases n
  {
    hide Step, Xor;
    if n > 0 {
      StepsOnce(Step(a), Step(b), n - 1);
      StepXor(a, b);
      XorZeroMeans(Step(a), Step(b));
      StepZero(Xor(a, b));
      XorZeroMeans(a, b);
    }
  }

  lemma FeedByteSteps(c: Word, b: bv8)
    ensures FeedBits(c, ByteWord(b), 8) == Steps(Xor(c, ByteWord(b)), 8)
  {
    hide *;
    ByteStep(c, b);
  }

  lemma XorCancel(a: Word, b: Word, x: Word)
    requires Xor(a, x) == Xor(b, x)
    ensures a == b
  {
  }

  /** What follows keeps a difference a difference. */
  lemma {:induction false} FeedOnce(a: Word, b: Word, d: seq<bv8>)
    requires Feed(a, d) == Feed(b, d)
    ensures a == b
    decreases |d|
  {
    hide FeedBits, Steps, Xor, ByteWord;
    if d != [] {
      FeedByteSteps(a, d[0]);
      FeedByteSteps(b, d[0]);
      FeedOnce(FeedBits(a, ByteWord(d[0]), 8), FeedBits(b, ByteWord(d[0]), 8), d[1..]);
      StepsOnce(Xor(a, ByteWord(d[0])), Xor(b, ByteWord(d[0])), 8);
      XorCancel(a, b, ByteWord(d[0]));
    }
  }

  lemma {:induction false} FeedCat(c: Word, d: seq<bv8>, e: seq<bv8>)
    ensures Feed(c, d + e) == Feed(Feed(c, d), e)
    decreases |d|
  {
    hide FeedBits;
    if d == [] {
      assert d + e == e;
    } else {
      FeedCat(FeedBits(c, ByteWord(d[0]), 8), d[1..], e);
      assert (d + e)[1..] == d[1..] + e;
    }
  }

  // Differences of messages.

  function Diff(u: seq<bv8>, w: seq<bv8>): (r: seq<bv8>)
    requires |u| == |w|
    ensures |r| == |u|
    decreases |u|
  {
    if u == [] then [] else [u[0] ^ w[0]] + Diff(u[1..], w[1..])
  }

  lemma ByteXor(x: bv8, y: bv8)
    ensures ByteWord(x ^ y) == Xor(ByteWord(x), ByteWord(y))
  {
  }

  lemma XorSwap(a: Word, b: Word, x: Word, y: Word)
    ensures Xor(Xor(a, b), Xor(x, y)) == Xor(Xor(a, x), Xor(b, y))
  {
    hide *;
    XorAssoc(a, b, Xor(x, y));
    XorAssoc(b, x, y);
    XorComm(b, x);
    XorAssoc(x, b, y);
    XorAssoc(a, x, Xor(b, y));
  }

  /** The register is linear in what it held and what it is fed. */
  lemma {:induction false} FeedLinear(a: Word, b: Word, u: seq<bv8>, w: seq<bv8>)
    requires |u| == |w|
    ensures Feed(Xor(a, b), Diff(u, w)) == Xor(Feed(a, u), Feed(b, w))
    decreases |u|
  {
    hide FeedBits, Steps, Xor, ByteWord;
    if u != [] {
      var x, y := ByteWord(u[0]), ByteWord(w[0]);
      FeedLinear(FeedBits(a, x, 8), FeedBits(b, y, 8), u[1..], w[1..]);
      FeedByteSteps(a, u[0]);
      FeedByteSteps(b, w[0]);
      FeedByteSteps(Xor(a, b), u[0] ^ w[0]);
      ByteXor(u[0], w[0]);
      XorSwap(a, b, x, y);
      StepsXor(Xor(a, x), Xor(b, y), 8);
      assert Diff(u, w)[1..] == Diff(u[1..], w[1..]);
    }
  }

  // Four bytes in one word.

  function Shl8(a: Word): Word { Word(a.v << 8) }

  lemma ShlClear(a: Word)
    ensures Clear8(Shl8(a))
  {
  }

  /** Only the `n` low bytes may be other than 0. */
  predicate Fits(a: Word, n: nat)
    decreases n
  {
    if n == 0 then a == ZERO else Fits(Shr8(a), n - 1)
  }

  lemma ZeroShifts()
    ensures Shr8(ZERO) == ZERO && Shl8(ZERO) == ZERO
  {
  }

  lemma {:induction false} FitsWider(a: Word, n: nat)
    requires Fits(a, n)
    ensures Fits(a, n + 1)
    decreases n
  {
    ZeroShifts();
    hide Shr8;
    if n > 0 { FitsWider(Shr8(a), n - 1); }
  }

  lemma ThreeBytes(a: Word)
    requires Fits(a, 3)
    ensures Shr8(Shl8(a)) == a
  {
    assert Shr8(Shr8(Shr8(a))) == ZERO by { hide Shr8; assert Fits(Shr8(Shr8(a)), 1) && Fits(Shr8(Shr8(Shr8(a))), 0); }
    TopEmpty(a.v);
  }

  lemma TopEmpty(v: bv32)
    requires ((v >> 8) >> 8) >> 8 == 0
    ensures (v << 8) >> 8 == v
  {
  }

  /** A byte put below up to three bytes, and taken off again. */
  lemma PutByte(a: Word, b: bv8, n: nat)
    requires Fits(a, n) && n <= 3
    ensures Shr8(Shl8(a)) == a && Shr8(Xor(Shl8(a), ByteWord(b))) == a
    ensures Fits(Xor(Shl8(a), ByteWord(b)), n + 1)
  {
    hide Shr8, Shl8, Xor, ByteWord;
    if n < 3 { FitsWider(a, n); }
    if n < 2 { FitsWider(a, n + 1); }
    if n < 1 { FitsWider(a, n + 2); }
    ThreeBytes(a);
    Shr8Xor(Shl8(a), ByteWord(b));
    ByteTop(b);
    XorZero(a);
  }

  function Pack(e: seq<bv8>): (r: Word)
    decreases |e|
  {
    if e == [] then ZERO else Xor(Shl8(Pack(e[1..])), ByteWord(e[0]))
  }

  lemma {:induction false} PackFits(e: seq<bv8>)
    requires |e| <= 4
    ensures Fits(Pack(e), |e|)
    decreases |e|
  {
    hide Shr8, Shl8, Xor, ByteWord;
    if e != [] {
      PackFits(e[1..]);
      PutByte(Pack(e[1..]), e[0], |e| - 1);
    }
  }

  /** Up to four bytes bring the register to 0 only from the word they make up. */
  lemma {:induction false} FeedToZero(c: Word, e: seq<bv8>)
    requires |e| <= 4 && Feed(c, e) == ZERO
    ensures c == Pack(e)
    decreases |e|
  {
    hide Shr8, Shl8, Xor, ByteWord, Steps, FeedBits, Clear, Clear8, Shrs;
    if e != [] {
      var b, p := ByteWord(e[0]), Pack(e[1..]);
      FeedByteSteps(c, e[0]);
      FeedToZero(Steps(Xor(c, b), 8), e[1..]);
      PackFits(e[1..]);
      PutByte(p, e[0], |e| - 1);
      ShlClear(p);
      Clear8Means(Shl8(p));
      StepsClear(Shl8(p), 8);
      StepsOnce(Xor(c, b), Shl8(p), 8);
      XorAssoc(c, b, b);
      XorSame(b);
      XorZero(c);
    }
  }

  lemma {:induction false} PackZero(e: seq<bv8>)
    requires |e| <= 4 && Pack(e) == ZERO
    ensures forall i :: 0 <= i < |e| ==> e[i] == 0
    decreases |e|
  {
    hide Shr8, Shl8, Xor, ByteWord;
    if e != [] {
      var p := Pack(e[1..]);
      PackFits(e[1..]);
      PutByte(p, e[0], |e| - 1);
      ZeroShifts();
      PackZero(e[1..]);
      XorComm(ZERO, ByteWord(e[0]));
      XorZero(ByteWord(e[0]));
      ByteZero(e[0]);
      assert e == [e[0]] + e[1..];
    }
  }

  lemma ByteZero(b: bv8)
    ensures ByteWord(b) == ZERO ==> b == 0
  {
  }

  lemma {:induction false} DiffZero(u: seq<bv8>, w: seq<bv8>)
    requires |u| == |w| && forall i :: 0 <= i < |u| ==> Diff(u, w)[i] == 0
    ensures u == w
    decreases |u|
  {
    if u != [] {
      var d := Diff(u, w);
      assert d[0] == 0 && d[1..] == Diff(u[1..], w[1..]);
      forall i | 0 <= i < |u[1..]| ensures Diff(u[1..], w[1..])[i] == 0 {
        assert d[1..][i] == d[i + 1];
      }
      DiffZero(u[1..], w[1..]);
      SameByte(u[0], w[0]);
      assert u == [u[0]] + u[1..] && w == [w[0]] + w[1..];
    }
  }

  lemma SameByte(x: bv8, y: bv8)
    requires x ^ y == 0
    ensures x == y
  {
  }

  /** Messages that differ only within four bytes in a row have different checksums. */
  lemma BurstSeen(p: seq<bv8>, u: seq<bv8>, w: seq<bv8>, s: seq<bv8>)
    requires |u| == |w| <= 4 && Checksum(p + u + s) == Checksum(p + w + s)
    ensures u == w
  {
    hide Xor, Feed, Pack;
    var c := Feed(ONES, p);
    XorCancel(Feed(ONES, p + u + s), Feed(ONES, p + w + s), ONES);
    FeedCat(ONES, p + u, s);
    FeedCat(ONES, p + w, s);
    FeedCat(ONES, p, u);
    FeedCat(ONES, p, w);
    FeedOnce(Feed(c, u), Feed(c, w), s);
    FeedLinear(c, c, u, w);
    XorSame(c);
    XorSame(Feed(c, u));
    FeedToZero(ZERO, Diff(u, w));
    PackZero(Diff(u, w));
    DiffZero(u, w);
  }
}
