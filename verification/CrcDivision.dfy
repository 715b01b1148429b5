/** The checksum as polynomial division over the field of two elements: it is the complement of the
    remainder, by the generator of ITU-T V.42 that section 8 of RFC 1952 refers to, of the message
    with its first 32 bits inverted and 32 zero bits behind it. */
module CrcDivision {
  import opened Crc

  /** Coefficients, the highest power first. */
  type Bitstring = seq<bool>

  function Zeros(n: nat): (z: Bitstring)
    ensures |z| == n
  {
    seq(n, _ => false)
  }

  function Ones(n: nat): (z: Bitstring)
    ensures |z| == n
  {
    seq(n, _ => true)
  }

  /** The sum of two polynomials. */
  function Plus(a: Bitstring, b: Bitstring): (r: Bitstring)
    requires |a| == |b|
    ensures |r| == |a|
  {
    seq(|a|, i requires 0 <= i < |a| => a[i] != b[i])
  }

  function Not(a: Bitstring): (r: Bitstring)
    ensures |r| == |a|
  {
    seq(|a|, i requires 0 <= i < |a| => !a[i])
  }

  /** x^32 + x^26 + x^23 + x^22 + x^16 + x^12 + x^11 + x^10 + x^8 + x^7 + x^5 + x^4 + x^2 + x + 1. */
  function Generator(): (g: Bitstring)
    ensures |g| == 33 && g[0]
  {
    seq(33, k => 32 - k in {32, 26, 23, 22, 16, 12, 11, 10, 8, 7, 5, 4, 2, 1, 0})
  }

  /** q times the generator. */
  function Times(q: Bitstring): (r: Bitstring)
    ensures |r| == |q| + 32
  {
    if q == [] then Zeros(32)
    else Plus(if q[0] then Generator() + Zeros(|q| - 1) else Zeros(|q| + 32), [false] + Times(q[1..]))
  }

  /** The n low bits of a word, the lowest first. */
  function Bits(w: Word, n: nat): (r: Bitstring)
    ensures |r| == n
    decreases n
  {
    if n == 0 then [] else [Low(w)] + Bits(Shr(w), n - 1)
  }

  /** The bits of a message in the order they are sent: bytes in turn, each from its lowest bit. */
  function Message(d: seq<bv8>): (r: Bitstring)
    ensures |r| == 8 * |d|
  {
    if d == [] then [] else Bits(ByteWord(d[0]), 8) + Message(d[1..])
  }

  /** a is q times the generator plus the remainder r. */
  ghost predicate Divided(a: Bitstring, q: Bitstring, r: Bitstring) {
    |r| == 32 && |a| == |q| + 32 && a == Plus(Times(q), Zeros(|q|) + r)
  }

  // ----- sums -----

  lemma PlusAt(a: Bitstring, b: Bitstring, i: nat)
    requires |a| == |b| && i < |a|
    ensures Plus(a, b)[i] == (a[i] != b[i])
  {
  }

  lemma PlusCat(a: Bitstring, b: Bitstring, c: Bitstring, d: Bitstring)
    requires |a| == |b| && |c| == |d|
    ensures Plus(a + c, b + d) == Plus(a, b) + Plus(c, d)
  {
    var l, r := Plus(a + c, b + d), Plus(a, b) + Plus(c, d);
    forall i | 0 <= i < |l| ensures l[i] == r[i] {
    }
  }

  lemma PlusSame(a: Bitstring, b: Bitstring, c: Bitstring)
    requires |a| == |b| == |c|
    ensures Plus(Plus(a, b), c) == Plus(a, Plus(b, c)) && Plus(a, b) == Plus(b, a)
    ensures Plus(a, Zeros(|a|)) == a && Plus(a, a) == Zeros(|a|)
  {
    assert forall i :: 0 <= i < |a| ==> Plus(Plus(a, b), c)[i] == Plus(a, Plus(b, c))[i];
    assert forall i :: 0 <= i < |a| ==> Plus(a, b)[i] == Plus(b, a)[i];
  }

  lemma ZerosCat(m: nat, n: nat)
    ensures Zeros(m) + Zeros(n) == Zeros(m + n)
  {
  }

  // ----- words -----

  lemma {:induction false} BitsXor(a: Word, b: Word, n: nat)
    ensures Bits(Xor(a, b), n) == Plus(Bits(a, n), Bits(b, n))
    decreases n
  {
    hide Low, Shr, Xor, Plus;
    if n == 0 {
      assert Plus([], []) == [];
    } else {
      ShrXor(a, b);
      BitsXor(Shr(a), Shr(b), n - 1);
      PlusCat([Low(a)], [Low(b)], Bits(Shr(a), n - 1), Bits(Shr(b), n - 1));
      PlusAt([Low(a)], [Low(b)], 0);
      assert Plus([Low(a)], [Low(b)]) == [Low(a) != Low(b)];
    }
  }

  lemma {:induction false} BitsMore(w: Word, n: nat)
    ensures Bits(w, n + 1) == Bits(w, n) + [Low(Shrs(w, n))]
    decreases n
  {
    hide Low, Shr;
    if n > 0 { BitsMore(Shr(w), n - 1); }
  }

  lemma Shifts8(w: Word)
    ensures Shrs(w, 8) == Shr8(w)
  {
    hide *;
    Eight(w);
    ClearFour(w);
    ClearFour(Shr4(w));
    Joined(w, 4, 4);
  }

  lemma ShiftedOut32(v: bv32)
    ensures (((v >> 8) >> 8) >> 8) >> 8 == 0
  {
  }

  lemma Shifts32(w: Word)
    ensures Shrs(w, 32) == ZERO
  {
    ShiftedOut32(w.v);
    assert Shr8(Shr8(Shr8(Shr8(w)))) == ZERO;
    hide *;
    Shifts8(w);
    Shifts8(Shr8(w));
    Shifts8(Shr8(Shr8(w)));
    Shifts8(Shr8(Shr8(Shr8(w))));
    Joined(w, 8, 8);
    Joined(w, 16, 8);
    Joined(w, 24, 8);
  }

  /** A shift moves every coefficient one power up. */
  lemma ShiftBits(w: Word)
    ensures Bits(w, 32) == [Low(w)] + Bits(Shr(w), 31) && Bits(Shr(w), 32) == Bits(Shr(w), 31) + [false]
  {
    hide Low, Shr, Shrs;
    BitsMore(Shr(w), 31);
    Shifts32(w);
    ShrsNext(w);
    ZeroLow();
  }

  lemma ShrsNext(w: Word)
    ensures Shrs(w, 32) == Shrs(Shr(w), 31)
  {
    hide Shr;
  }

  lemma ZeroLow()
    ensures !Low(ZERO)
  {
  }

  lemma OneBit(w: Word, n: nat)
    requires n > 0
    ensures Bits(w, n) == [Low(w)] + Bits(Shr(w), n - 1)
  {
  }

  lemma PolyByte0()
    ensures Bits(Word(0xEDB88320), 32)
         == [false, false, false, false, false, true, false, false] + Bits(Word(0x00EDB883), 24)
  {
    OneBit(Word(0xEDB88320), 32);
    OneBit(Word(0x76DC4190), 31);
    OneBit(Word(0x3B6E20C8), 30);
    OneBit(Word(0x1DB71064), 29);
    OneBit(Word(0x0EDB8832), 28);
    OneBit(Word(0x076DC419), 27);
    OneBit(Word(0x03B6E20C), 26);
    OneBit(Word(0x01DB7106), 25);
  }

  lemma PolyByte1()
    ensures Bits(Word(0x00EDB883), 24)
         == [true, true, false, false, false, false, false, true] + Bits(Word(0x0000EDB8), 16)
  {
    OneBit(Word(0x00EDB883), 24);
    OneBit(Word(0x0076DC41), 23);
    OneBit(Word(0x003B6E20), 22);
    OneBit(Word(0x001DB710), 21);
    OneBit(Word(0x000EDB88), 20);
    OneBit(Word(0x00076DC4), 19);
    OneBit(Word(0x0003B6E2), 18);
    OneBit(Word(0x0001DB71), 17);
  }

  lemma PolyByte2()
    ensures Bits(Word(0x0000EDB8), 16)
         == [false, false, false, true, true, true, false, true] + Bits(Word(0x000000ED), 8)
  {
    OneBit(Word(0x0000EDB8), 16);
    OneBit(Word(0x000076DC), 15);
    OneBit(Word(0x00003B6E), 14);
    OneBit(Word(0x00001DB7), 13);
    OneBit(Word(0x00000EDB), 12);
    OneBit(Word(0x0000076D), 11);
    OneBit(Word(0x000003B6), 10);
    OneBit(Word(0x000001DB), 9);
  }

  lemma PolyByte3()
    ensures Bits(Word(0x000000ED), 8)
         == [true, false, true, true, false, true, true, true] + Bits(Word(0x00000000), 0)
  {
    OneBit(Word(0x000000ED), 8);
    OneBit(Word(0x00000076), 7);
    OneBit(Word(0x0000003B), 6);
    OneBit(Word(0x0000001D), 5);
    OneBit(Word(0x0000000E), 4);
    OneBit(Word(0x00000007), 3);
    OneBit(Word(0x00000003), 2);
    OneBit(Word(0x00000001), 1);
  }

  /** The constant in the program is the generator without its highest power, reflected. */
  lemma PolyBits()
    ensures [true] + Bits(POLY, 32) == Generator()
  {
    hide Bits;
    PolyByte0();
    PolyByte1();
    PolyByte2();
    PolyByte3();
    NoBits();
    var g := [true, false, false, false, false, false, true, false, false, true, true, false, false, false, false, false, true, false, false, false, true, true, true, false, true, true, false, true, true, false, true, true, true];
    assert [true] + Bits(POLY, 32) == g;
    assert forall k :: 0 <= k < 33 ==> g[k] == Generator()[k];
  }

  lemma NoBits()
    ensures Bits(Word(0x00000000), 0) == []
  {
  }

  // ----- one bit of the message is one step of the division -----

  /** What is divided: the message with room for a remainder, and the register over its first 32 bits. */
  function Dividend(c: Word, m: Bitstring): (a: Bitstring)
    ensures |a| == |m| + 32
  {
    Plus(Bits(c, 32) + Zeros(|m|), m + Zeros(32))
  }

  function FeedAll(c: Word, m: Bitstring): (r: Word)
    decreases |m|
  {
    if m == [] then c else FeedAll(FeedBit(c, m[0]), m[1..])
  }

  lemma PlusHead(x: bool, a: Bitstring, y: bool, b: Bitstring)
    requires |a| == |b|
    ensures Plus([x] + a, [y] + b) == [x != y] + Plus(a, b)
  {
    PlusCat([x], [y], a, b);
    assert Plus([x], [y]) == [x != y];
  }

  /** The register behind the bit, before the generator is taken off. */
  function Shifted(c: Word): (r: Bitstring)
    ensures |r| == 32
  {
    Bits(Shr(c), 32)
  }

  lemma FeedBitBits(c: Word, bit: bool)
    ensures Bits(FeedBit(c, bit), 32) == if Low(c) != bit then Plus(Bits(POLY, 32), Shifted(c)) else Shifted(c)
  {
    hide Low, Shr, Xor, Bits;
    BitsXor(POLY, Shr(c), 32);
  }

  /** The dividend without its first bit. */
  function Tail(c: Word, m: Bitstring): (a: Bitstring)
    requires m != []
    ensures |a| == |m| + 31
  {
    Plus(Shifted(c) + Zeros(|m| - 1), m[1..] + Zeros(32))
  }

  lemma DividendHead(c: Word, m: Bitstring)
    requires m != []
    ensures Dividend(c, m) == [Low(c) != m[0]] + Tail(c, m)
  {
    hide Low, Shr, Bits, Plus, Zeros;
    ShiftBits(c);
    var r := Bits(Shr(c), 31);
    ZerosMore(|m|);
    assert [Low(c)] + r + Zeros(|m|) == [Low(c)] + (r + [false] + Zeros(|m| - 1));
    assert m + Zeros(32) == [m[0]] + (m[1..] + Zeros(32));
    PlusHead(Low(c), r + [false] + Zeros(|m| - 1), m[0], m[1..] + Zeros(32));
  }

  lemma ZerosMore(n: nat)
    requires n > 0
    ensures Zeros(n) == [false] + Zeros(n - 1)
  {
  }

  /** Behind the bit: the tail, less the generator when the first bit was 1. */
  lemma DividendNext(c: Word, m: Bitstring)
    requires m != []
    ensures var next := Dividend(FeedBit(c, m[0]), m[1..]);
      Tail(c, m) == if Low(c) != m[0] then Plus(Bits(POLY, 32) + Zeros(|m| - 1), next) else next
  {
    hide Low, Shr, Xor, Bits, Plus, Zeros, Shifted, FeedBit;
    FeedBitBits(c, m[0]);
    var p, z, t := Bits(POLY, 32), Zeros(|m| - 1), m[1..] + Zeros(32);
    if Low(c) != m[0] {
      PlusZeros(|m| - 1);
      PlusCat(p, Shifted(c), z, z);
      PlusCancel(p + z, Shifted(c) + z, t);
    }
  }

  lemma PlusZeros(n: nat)
    ensures Plus(Zeros(n), Zeros(n)) == Zeros(n)
  {
  }

  lemma PlusCancel(a: Bitstring, b: Bitstring, c: Bitstring)
    requires |a| == |b| == |c|
    ensures Plus(b, c) == Plus(a, Plus(Plus(a, b), c))
  {
    assert forall i :: 0 <= i < |a| ==> Plus(b, c)[i] == Plus(a, Plus(Plus(a, b), c))[i];
  }

  lemma TimesHead(x: bool, q: Bitstring, r: Bitstring)
    requires |r| == 32
    ensures Plus(Times([x] + q), Zeros(|q| + 1) + r)
         == [x] + (var low := Plus(Times(q), Zeros(|q|) + r); if x then Plus(Bits(POLY, 32) + Zeros(|q|), low) else low)
  {
    hide Bits, Plus, Zeros, Generator;
    var t, z := Times(q), Zeros(|q|) + r;
    assert ([x] + q)[1..] == q;
    ZerosMore(|q| + 1);
    assert Zeros(|q| + 1) + r == [false] + z;
    PolyBits();
    var p := Bits(POLY, 32) + Zeros(|q|);
    if x {
      assert Generator() + Zeros(|q|) == [true] + p;
      PlusHead(true, p, false, t);
      PlusHead(true, Plus(p, t), false, z);
      PlusSame(p, t, z);
    } else {
      ZerosMore(|q| + 33);
      PlusHead(false, Zeros(|q| + 32), false, t);
      PlusSame(t, Zeros(|q| + 32), z);
      PlusHead(false, t, false, z);
    }
  }

  /** The register is the remainder of what it held and what it was fed. */
  lemma {:induction false} FeedDivides(c: Word, m: Bitstring) returns (q: Bitstring)
    ensures |q| == |m| && Divided(Dividend(c, m), q, Bits(FeedAll(c, m), 32))
    decreases |m|
  {
    hide Low, Shr, Xor, Bits, Plus, Zeros, Tail, FeedBit;
    if m == [] {
      NoMessage(c);
      return [];
    }
    hide Dividend, Times;
    var next := FeedBit(c, m[0]);
    var rest := FeedDivides(next, m[1..]);
    DividendHead(c, m);
    DividendNext(c, m);
    TimesHead(Low(c) != m[0], rest, Bits(FeedAll(c, m), 32));
    q := [Low(c) != m[0]] + rest;
  }

  lemma NoMessage(c: Word)
    ensures Divided(Dividend(c, []), [], Bits(c, 32))
  {
    hide Bits;
    var r := Bits(c, 32);
    assert r + Zeros(0) == r && [] + Zeros(32) == Zeros(32) && Zeros(0) + r == r;
    PlusSame(r, Zeros(32), r);
  }

  // ----- the message in bytes -----

  lemma {:induction false} FeedBitsAll(c: Word, b: Word, n: nat)
    ensures FeedBits(c, b, n) == FeedAll(c, Bits(b, n))
    decreases n
  {
    hide Low, Shr, FeedBit;
    if n > 0 { FeedBitsAll(FeedBit(c, Low(b)), Shr(b), n - 1); }
  }

  lemma {:induction false} FeedAllCat(c: Word, a: Bitstring, b: Bitstring)
    ensures FeedAll(c, a + b) == FeedAll(FeedAll(c, a), b)
    decreases |a|
  {
    hide FeedBit;
    if a == [] {
      assert a + b == b;
    } else {
      FeedAllCat(FeedBit(c, a[0]), a[1..], b);
      assert (a + b)[1..] == a[1..] + b;
    }
  }

  lemma {:induction false} FeedMessage(c: Word, d: seq<bv8>)
    ensures Feed(c, d) == FeedAll(c, Message(d))
    decreases |d|
  {
    hide FeedBits, FeedAll, Bits, ByteWord;
    if d == [] {
      FedNothing(c);
    } else {
      var b := ByteWord(d[0]);
      FeedBitsAll(c, b, 8);
      FeedMessage(FeedBits(c, b, 8), d[1..]);
      FeedAllCat(c, Bits(b, 8), Message(d[1..]));
    }
  }

  lemma FedNothing(c: Word)
    ensures FeedAll(c, []) == c
  {
  }

  lemma OnesByte0()
    ensures Bits(Word(0xFFFFFFFF), 32) == Ones(8) + Bits(Word(0x00FFFFFF), 24)
  {
    OneBit(Word(0xFFFFFFFF), 32);
    OneBit(Word(0x7FFFFFFF), 31);
    OneBit(Word(0x3FFFFFFF), 30);
    OneBit(Word(0x1FFFFFFF), 29);
    OneBit(Word(0x0FFFFFFF), 28);
    OneBit(Word(0x07FFFFFF), 27);
    OneBit(Word(0x03FFFFFF), 26);
    OneBit(Word(0x01FFFFFF), 25);
  }

  lemma OnesByte1()
    ensures Bits(Word(0x00FFFFFF), 24) == Ones(8) + Bits(Word(0x0000FFFF), 16)
  {
    OneBit(Word(0x00FFFFFF), 24);
    OneBit(Word(0x007FFFFF), 23);
    OneBit(Word(0x003FFFFF), 22);
    OneBit(Word(0x001FFFFF), 21);
    OneBit(Word(0x000FFFFF), 20);
    OneBit(Word(0x0007FFFF), 19);
    OneBit(Word(0x0003FFFF), 18);
    OneBit(Word(0x0001FFFF), 17);
  }

  lemma OnesByte2()
    ensures Bits(Word(0x0000FFFF), 16) == Ones(8) + Bits(Word(0x000000FF), 8)
  {
    OneBit(Word(0x0000FFFF), 16);
    OneBit(Word(0x00007FFF), 15);
    OneBit(Word(0x00003FFF), 14);
    OneBit(Word(0x00001FFF), 13);
    OneBit(Word(0x00000FFF), 12);
    OneBit(Word(0x000007FF), 11);
    OneBit(Word(0x000003FF), 10);
    OneBit(Word(0x000001FF), 9);
  }

  lemma OnesByte3()
    ensures Bits(Word(0x000000FF), 8) == Ones(8) + Bits(Word(0x00000000), 0)
  {
    OneBit(Word(0x000000FF), 8);
    OneBit(Word(0x0000007F), 7);
    OneBit(Word(0x0000003F), 6);
    OneBit(Word(0x0000001F), 5);
    OneBit(Word(0x0000000F), 4);
    OneBit(Word(0x00000007), 3);
    OneBit(Word(0x00000003), 2);
    OneBit(Word(0x00000001), 1);
  }

  lemma OnesBits()
    ensures Bits(ONES, 32) == Ones(32)
  {
    hide Bits;
    OnesByte0();
    OnesByte1();
    OnesByte2();
    OnesByte3();
    NoBits();
  }

  /** For every message: inverted in its first 32 bits (or in the zeros behind it, when it is shorter) and with
      32 zeros behind it, it leaves the complement of the checksum as its remainder. */
  lemma ChecksumIsRemainder(d: seq<bv8>) returns (q: Bitstring)
    ensures var m := Message(d);
      |q| == |m| && Divided(Plus(m + Zeros(32), Ones(32) + Zeros(|m|)), q, Not(Bits(Checksum(d), 32)))
  {
    hide Bits, Plus, Zeros, Divided, Xor, Feed;
    var m := Message(d);
    q := FeedDivides(ONES, m);
    FeedMessage(ONES, d);
    OnesBits();
    PlusSame(Ones(32) + Zeros(|m|), m + Zeros(32), m + Zeros(32));
    var r := Feed(ONES, d);
    BitsXor(r, ONES, 32);
    Twice(Bits(r, 32));
  }

  lemma Twice(r: Bitstring)
    ensures Not(Plus(r, Ones(|r|))) == r
  {
  }

  // ----- quotient and remainder are unique -----

  lemma {:induction false} DividedOnce(a: Bitstring, q: Bitstring, r: Bitstring, q': Bitstring, r': Bitstring)
    requires |q| == |q'| && Divided(a, q, r) && Divided(a, q', r')
    ensures q == q' && r == r'
    decreases |q|
  {
    hide Plus, Zeros, Times;
    if q == [] {
      NoQuotient(r);
      NoQuotient(r');
    } else {
      var x, y, t, t' := q[0], q'[0], q[1..], q'[1..];
      assert q == [x] + t && q' == [y] + t';
      TimesHead(x, t, r);
      TimesHead(y, t', r');
      var p := Bits(POLY, 32) + Zeros(|t|);
      var low, low' := Plus(Times(t), Zeros(|t|) + r), Plus(Times(t'), Zeros(|t|) + r');
      SameTail(x, low, y, low', p);
      DividedOnce(low, t, r, t', r');
    }
  }

  lemma NoQuotient(r: Bitstring)
    requires |r| == 32
    ensures Plus(Times([]), Zeros(0) + r) == r
  {
    assert Zeros(0) + r == r;
    PlusSame(r, Zeros(32), r);
  }

  lemma SameTail(x: bool, a: Bitstring, y: bool, b: Bitstring, p: Bitstring)
    requires |a| == |b| == |p| && [x] + (if x then Plus(p, a) else a) == [y] + (if y then Plus(p, b) else b)
    ensures x == y && a == b
  {
    var l, r := if x then Plus(p, a) else a, if y then Plus(p, b) else b;
    assert ([x] + l)[0] == x && ([y] + r)[0] == y;
    assert ([x] + l)[1..] == l && ([y] + r)[1..] == r;
    if x {
      PlusBack(p, a);
      PlusBack(p, b);
    }
  }

  lemma PlusBack(p: Bitstring, a: Bitstring)
    requires |p| == |a|
    ensures Plus(p, Plus(p, a)) == a
  {
  }
}
