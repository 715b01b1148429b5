/** The arithmetic of csh expressions against its usual laws: C division, bits, and the range of a long. */
module CshLongs {
  import opened CshArith

  predicate IsLong(x: int) { -LIMIT <= x < LIMIT }

  lemma WrapIsLong(x: int)
    ensures IsLong(Wrap(x)) && (IsLong(x) ==> Wrap(x) == x) && (Wrap(x) - x) % (2 * LIMIT) == 0
  {
    var m := 2 * LIMIT;
    var y := x + LIMIT;
    assert y % m - y == -(y / m) * m;
  }

  lemma NatDivision(a: nat, b: nat)
    requires b > 0
    ensures var q := a / b; q <= a && 0 <= a - b * q < b
  {
    assert a == b * (a / b) + a % b;
    DivSmaller(a, b);
  }

  lemma DivSmaller(a: nat, b: nat)
    requires b > 0
    ensures a / b <= a
  {
    var q := a / b;
    assert b * q <= a;
    if q > a {
      MulGrows(b, q);
    }
  }

  lemma MulGrows(b: nat, q: nat)
    requires b > 0
    ensures b * q >= q
  {
  }

  lemma MinusProduct(b: int, q: int)
    ensures b * -q == -(b * q) && -b * q == -(b * q)
  {
  }

  /** The product with the quotient, by signs. */
  lemma TruncProduct(a: int, b: int)
    requires b != 0
    ensures var p := Abs(b) * (Abs(a) / Abs(b));
      b * TruncDiv(a, b) == if a < 0 then -p else p
  {
    MinusProduct(b, Abs(a) / Abs(b));
  }

  lemma TruncSizes(a: int, b: int, bd: int, p: int)
    requires b != 0 && 0 <= Abs(a) - p < Abs(b) && bd == (if a < 0 then -p else p)
    ensures Abs(a - bd) < Abs(b) && (a - bd == 0 || (a - bd < 0) == (a < 0))
  {
  }

  lemma QuotientSize(a: int, b: int)
    requires b != 0
    ensures Abs(TruncDiv(a, b)) == Abs(a) / Abs(b)
  {
  }

  /** C division truncates toward zero: the remainder is smaller than the divisor and has the dividend's sign. */
  lemma TruncatedDivision(a: int, b: int)
    requires b != 0
    ensures a == b * TruncDiv(a, b) + TruncRem(a, b)
    ensures Abs(TruncRem(a, b)) < Abs(b) && Abs(TruncDiv(a, b)) <= Abs(a)
    ensures TruncRem(a, b) == 0 || (TruncRem(a, b) < 0) == (a < 0)
  {
    assert Abs(b) > 0;
    hide TruncDiv, Abs;
    NatDivision(Abs(a), Abs(b));
    TruncProduct(a, b);
    QuotientSize(a, b);
    TruncSizes(a, b, b * TruncDiv(a, b), Abs(b) * (Abs(a) / Abs(b)));
  }

  /** Bit i of a long in two's complement. */
  function Bit(x: int, i: nat): int
    decreases i
  {
    if i == 0 then x % 2 else Bit(x / 2, i - 1)
  }

  predicate Fits(x: int, bits: nat) { -(Pow2(bits) as int) <= x < Pow2(bits) as int }

  /** Every bit of the result is the operator on the operands' bits, the sign bit included. */
  lemma {:induction false} BitwiseBits(op: BinOp, a: int, b: int, bits: nat, i: nat)
    requires Fits(a, bits) && Fits(b, bits) && i <= bits
    ensures Bit(Bitwise(op, a, b, bits), i) == BitOp(op, Bit(a, i), Bit(b, i))
    decreases bits
  {
    if bits > 0 {
      var rest, low := Bitwise(op, a / 2, b / 2, bits - 1), BitOp(op, a % 2, b % 2);
      assert (2 * rest + low) % 2 == low && (2 * rest + low) / 2 == rest;
      if i > 0 {
        BitwiseBits(op, a / 2, b / 2, bits - 1, i - 1);
      }
    }
  }

  lemma {:induction false} BitwiseFits(op: BinOp, a: int, b: int, bits: nat)
    ensures Fits(Bitwise(op, a, b, bits), bits)
    decreases bits
  {
    if bits > 0 {
      BitwiseFits(op, a / 2, b / 2, bits - 1);
    }
  }

  lemma Pow8(n: nat)
    ensures Pow2(n + 8) == 256 * Pow2(n)
  {
    assert Pow2(n + 2) == 4 * Pow2(n);
    assert Pow2(n + 4) == 4 * Pow2(n + 2);
    assert Pow2(n + 6) == 4 * Pow2(n + 4);
    assert Pow2(n + 8) == 4 * Pow2(n + 6);
  }

  lemma Pow63()
    ensures Pow2(63) == LIMIT
  {
    hide Pow2;
    Pow7();
    Pow8(7);
    Pow8(15);
    Pow8(23);
    Pow8(31);
    Pow8(39);
    Pow8(47);
    Pow8(55);
  }

  lemma Pow7()
    ensures Pow2(7) == 128
  {
  }

  lemma ShiftFits(a: int, p: nat)
    requires p > 0 && IsLong(a)
    ensures IsLong(a / p)
  {
    if a >= 0 {
      DivSmaller(a, p);
    } else {
      var q := a / p;
      assert a == p * q + a % p;
      if q < a {
        MulLess(p, q);
      }
    }
  }

  lemma MulLess(p: nat, q: int)
    requires p > 0 && q < 0
    ensures p * q <= q
  {
    MulGrows(p, -q);
    assert p * q == -(p * -q);
  }

  lemma ApplyIsLong(op: BinOp, a: int, b: int)
    requires IsLong(a) && IsLong(b)
    ensures IsLong(Apply(op, a, b))
  {
    hide Bitwise, Pow2, TruncDiv, TruncRem, Wrap;
    match op
    case Mul => WrapIsLong(a * b);
    case Div => if b != 0 { WrapIsLong(TruncDiv(a, b)); }
    case Rem => if b != 0 { TruncatedDivision(a, b); }
    case Add => WrapIsLong(a + b);
    case Sub => WrapIsLong(a - b);
    case Shl => WrapIsLong(a * Pow2(b % 64));
    case Shr => ShiftFits(a, Pow2(b % 64));
    case _ => BitwiseFits(op, a, b, 63); Pow63();
  }

  /** The value of every expression with long literals is a long. */
  lemma {:induction false} ValueIsLong(e: Expr)
    requires Small(e)
    ensures IsLong(Value(e))
  {
    hide Apply, Wrap;
    match e
    case Lit(_) =>
    case Hex(_) =>
    case Un(op, x) =>
      ValueIsLong(x);
      WrapIsLong(-Value(x));
    case Bin(op, l, r) =>
      ValueIsLong(l);
      ValueIsLong(r);
      ApplyIsLong(op, Value(l), Value(r));
  }
}
