/** What csh's operators give, by relations between operands and result: congruence modulo 2^64,
    truncated division, bits. Each relation has exactly one long, and it is the one computed. */
module CshLaws {
  import opened CshArith
  import opened CshLongs

  const WORD: int := 0x1_0000_0000_0000_0000

  ghost predicate Congruent(x: int, y: int) { (x - y) % WORD == 0 }

  /** q and r are quotient and remainder of a by b, truncated toward zero. */
  ghost predicate Truncated(a: int, b: int, q: int, r: int) {
    && a == b * q + r
    && (if r < 0 then -r else r) < (if b < 0 then -b else b)
    && (r == 0 || (r < 0 <==> a < 0))
  }

  ghost predicate Quotient(a: int, b: int, v: int) {
    if b == 0 then v == 0 else exists q, r :: Truncated(a, b, q, r) && Congruent(v, q)
  }

  ghost predicate Remainder(a: int, b: int, v: int) {
    if b == 0 then v == 0 else exists q :: Truncated(a, b, q, v)
  }

  function Sign(x: int): int { if x < 0 then 1 else 0 }

  /** Bits of a shift by k places. */
  ghost predicate ShiftedLeft(a: int, k: nat, v: int) {
    forall i :: 0 <= i < 64 ==> Bit(v, i) == if i < k then 0 else Bit(a, i - k)
  }

  ghost predicate ShiftedRight(a: int, k: nat, v: int) {
    forall i :: 0 <= i < 64 ==> Bit(v, i) == if i + k < 64 then Bit(a, i + k) else Sign(a)
  }

  /** The long v is what `op` makes of the longs a and b. */
  ghost predicate Lawful(op: BinOp, a: int, b: int, v: int) {
    IsLong(v) &&
    match op
    case Add => Congruent(v, a + b)
    case Sub => Congruent(v + b, a)
    case Mul => Congruent(v, a * b)
    case Div => Quotient(a, b, v)
    case Rem => Remainder(a, b, v)
    case Shl => ShiftedLeft(a, b % 64, v)
    case Shr => ShiftedRight(a, b % 64, v)
    case And => forall i :: 0 <= i < 64 ==> Bit(v, i) == if Bit(a, i) == 1 && Bit(b, i) == 1 then 1 else 0
    case Or => forall i :: 0 <= i < 64 ==> Bit(v, i) == if Bit(a, i) == 1 || Bit(b, i) == 1 then 1 else 0
    case Xor => forall i :: 0 <= i < 64 ==> Bit(v, i) == if Bit(a, i) != Bit(b, i) then 1 else 0
  }

  ghost predicate LawfulUn(op: UnOp, a: int, v: int) {
    IsLong(v) &&
    match op
    case Neg => Congruent(v + a, 0)
    case Plus => v == a
    case Inv => forall i :: 0 <= i < 64 ==> Bit(v, i) == 1 - Bit(a, i)
    case Not => v == if a == 0 then 1 else 0
  }

  /** The value of an expression, by those relations alone. */
  ghost predicate Means(e: Expr, v: int) {
    match e
    case Lit(n) => v == n
    case Hex(n) => v == n
    case Un(op, x) => exists a :: Means(x, a) && LawfulUn(op, a, v)
    case Bin(op, l, r) => exists a, b :: Means(l, a) && Means(r, b) && Lawful(op, a, b, v)
  }

  // ----- bits -----

  lemma Halves(x: int, y: int)
    ensures (x + 2 * y) % 2 == x % 2 && (x + 2 * y) / 2 == x / 2 + y
  {
  }

  /** The low n bits do not see multiples of 2^n. */
  lemma {:induction false} LowBits(x: int, m: int, n: nat, i: nat)
    requires i < n
    ensures Bit(x + m * Pow2(n), i) == Bit(x, i)
    decreases n
  {
    var y := m * Pow2(n - 1);
    assert m * Pow2(n) == 2 * y;
    Halves(x, y);
    if i > 0 { LowBits(x / 2, m, n - 1, i - 1); }
  }

  lemma {:induction false} LeftBits(a: int, k: nat, i: nat)
    ensures Bit(a * Pow2(k), i) == if i < k then 0 else Bit(a, i - k)
    decreases k
  {
    if k > 0 {
      var y := a * Pow2(k - 1);
      assert a * Pow2(k) == 2 * y;
      Halves(0, y);
      if i > 0 { LeftBits(a, k - 1, i - 1); }
    }
  }

  lemma HalfFirst(x: int, p: nat)
    requires p > 0
    ensures x / (2 * p) == (x / 2) / p
  {
    var h := x / 2;
    var q := h / p;
    var low := 2 * (h % p) + x % 2;
    assert h == p * q + h % p;
    assert 2 * (p * q) == (2 * p) * q;
    assert x == (2 * p) * q + low;
    DivisionOnce(x, 2 * p, q, low);
  }

  lemma DivisionOnce(x: int, d: nat, q: int, r: nat)
    requires d > 0 && x == d * q + r && r < d
    ensures x / d == q
  {
    var q', r' := x / d, x % d;
    assert x == d * q' + r';
    assert d * (q - q') == r' - r by { assert d * (q - q') == d * q - d * q'; }
    SmallMultiple(d, q - q');
  }

  lemma SmallMultiple(d: int, m: int)
    requires d > 0 && -d < d * m < d
    ensures m == 0
  {
    MinusProduct(d, m);
    Multiples(d, m);
    Multiples(d, -m);
  }

  lemma Multiples(d: int, m: int)
    requires d > 0
    ensures m > 0 ==> d * m >= d
  {
  }

  lemma {:induction false} RightBits(a: int, k: nat, i: nat)
    ensures Bit(a / Pow2(k), i) == Bit(a, i + k)
    decreases k
  {
    if k > 0 {
      HalfFirst(a, Pow2(k - 1));
      RightBits(a / 2, k - 1, i);
    }
  }

  lemma {:induction false} SignBits(a: int, n: nat, i: nat)
    requires Fits(a, n) && i >= n
    ensures Bit(a, i) == Sign(a)
    decreases i
  {
    if n > 0 {
      SignBits(a / 2, n - 1, i - 1);
    } else if i > 0 {
      SignBits(a / 2, 0, i - 1);
    }
  }

  lemma {:induction false} FlippedBits(a: int, i: nat)
    ensures Bit(-a - 1, i) == 1 - Bit(a, i)
    decreases i
  {
    assert (-a - 1) / 2 == -(a / 2) - 1;
    if i > 0 { FlippedBits(a / 2, i - 1); }
  }

  /** Bits of a long decide it. */
  lemma {:induction false} BitsOnce(x: int, y: int, n: nat)
    requires Fits(x, n) && Fits(y, n) && forall i :: 0 <= i <= n ==> Bit(x, i) == Bit(y, i)
    ensures x == y
    decreases n
  {
    assert Bit(x, 0) == Bit(y, 0);
    if n > 0 {
      forall i | 0 <= i <= n - 1 ensures Bit(x / 2, i) == Bit(y / 2, i) {
        assert Bit(x, i + 1) == Bit(y, i + 1);
      }
      BitsOnce(x / 2, y / 2, n - 1);
    }
  }

  lemma LongFits(x: int)
    ensures IsLong(x) <==> Fits(x, 63)
  {
    hide Pow2;
    Pow63();
  }

  lemma WordIsPow()
    ensures WORD == 2 * LIMIT == Pow2(64)
  {
    Pow63();
  }

  lemma WrapBits(x: int, i: nat)
    requires i < 64
    ensures Bit(Wrap(x), i) == Bit(x, i)
  {
    hide Pow2, Bit, Wrap;
    WrapIsLong(x);
    WordIsPow();
    var m := (Wrap(x) - x) / WORD;
    assert Wrap(x) - x == WORD * m;
    LowBits(x, m, 64, i);
  }

  // ----- each relation holds of what is computed -----

  lemma WrapCongruent(x: int)
    ensures IsLong(Wrap(x)) && Congruent(Wrap(x), x)
  {
    hide Wrap;
    WrapIsLong(x);
  }

  lemma ApplyQuotient(a: int, b: int)
    requires b != 0
    ensures Truncated(a, b, TruncDiv(a, b), TruncRem(a, b))
    ensures Quotient(a, b, Wrap(TruncDiv(a, b))) && Remainder(a, b, TruncRem(a, b))
  {
    TruncatedDivision(a, b);
    hide TruncDiv, TruncRem, Wrap;
    WrapCongruent(TruncDiv(a, b));
  }

  lemma ApplyShl(a: int, k: nat)
    ensures ShiftedLeft(a, k, Wrap(a * Pow2(k)))
  {
    hide Pow2, Bit, Wrap;
    forall i | 0 <= i < 64 ensures Bit(Wrap(a * Pow2(k)), i) == if i < k then 0 else Bit(a, i - k) {
      WrapBits(a * Pow2(k), i);
      LeftBits(a, k, i);
    }
  }

  lemma ApplyShr(a: int, k: nat)
    requires IsLong(a)
    ensures ShiftedRight(a, k, a / Pow2(k))
  {
    hide Pow2, Bit;
    LongFits(a);
    forall i | 0 <= i < 64 ensures Bit(a / Pow2(k), i) == if i + k < 64 then Bit(a, i + k) else Sign(a) {
      RightBits(a, k, i);
      if i + k >= 64 { SignBits(a, 63, i + k); }
    }
  }

  lemma {:induction false} BitIsBit(x: int, i: nat)
    ensures Bit(x, i) == 0 || Bit(x, i) == 1
    decreases i
  {
    if i > 0 { BitIsBit(x / 2, i - 1); }
  }

  lemma ApplyBitwise(op: BinOp, a: int, b: int)
    requires IsLong(a) && IsLong(b) && (op.And? || op.Or? || op.Xor?)
    ensures Lawful(op, a, b, Apply(op, a, b))
  {
    ApplyIsLong(op, a, b);
    hide Bit, Bitwise, Fits;
    LongFits(a);
    LongFits(b);
    forall i | 0 <= i < 64 ensures Bit(Bitwise(op, a, b, 63), i) == BitOp(op, Bit(a, i), Bit(b, i)) {
      BitwiseBits(op, a, b, 63, i);
    }
  }

  /** Every operator on every pair of longs. */
  lemma ApplyIsLawful(op: BinOp, a: int, b: int)
    requires IsLong(a) && IsLong(b)
    ensures Lawful(op, a, b, Apply(op, a, b))
  {
    ApplyIsLong(op, a, b);
    hide Wrap, TruncDiv, TruncRem, Bitwise, Pow2, Bit, ShiftedLeft, ShiftedRight, Quotient, Remainder;
    match op
    case Add => WrapCongruent(a + b);
    case Sub => WrapCongruent(a - b);
    case Mul => WrapCongruent(a * b);
    case Div => if b != 0 { ApplyQuotient(a, b); } else { ByZero(a); }
    case Rem => if b != 0 { ApplyQuotient(a, b); } else { ByZero(a); }
    case Shl => ApplyShl(a, b % 64);
    case Shr => ApplyShr(a, b % 64);
    case And => ApplyBitwise(op, a, b);
    case Or => ApplyBitwise(op, a, b);
    case Xor => ApplyBitwise(op, a, b);
  }

  lemma ByZero(a: int)
    ensures Quotient(a, 0, 0) && Remainder(a, 0, 0)
  {
  }

  lemma ApplyUnIsLawful(op: UnOp, a: int)
    requires IsLong(a)
    ensures LawfulUn(op, a, ApplyUn(op, a))
  {
    hide Wrap, Bit;
    WrapCongruent(-a);
    forall i | 0 <= i < 64 ensures Bit(-a - 1, i) == 1 - Bit(a, i) {
      FlippedBits(a, i);
    }
  }

  // ----- and of nothing else -----

  lemma CongruentOnce(v: int, w: int, x: int)
    requires IsLong(v) && IsLong(w) && Congruent(v, x) && Congruent(w, x)
    ensures v == w
  {
    var m, n := (v - x) / WORD, (w - x) / WORD;
    assert v - w == WORD * (m - n);
    SmallMultiple(WORD, m - n);
  }

  lemma MulMinus(b: int, q: int, q': int)
    ensures b * (q - q') == b * q - b * q'
  {
  }

  lemma RemaindersNear(a: int, b: int, r: int, r': int)
    requires b != 0 && Abs(r) < Abs(b) && Abs(r') < Abs(b)
    requires (r == 0 || (r < 0 <==> a < 0)) && (r' == 0 || (r' < 0 <==> a < 0))
    ensures Abs(r' - r) < Abs(b)
  {
  }

  lemma TruncatedOnce(a: int, b: int, q: int, r: int, q': int, r': int)
    requires b != 0 && Truncated(a, b, q, r) && Truncated(a, b, q', r')
    ensures q == q' && r == r'
  {
    RemaindersNear(a, b, r, r');
    ProductsNear(a, b, q, r, q', r');
  }

  lemma ProductsNear(a: int, b: int, q: int, r: int, q': int, r': int)
    requires b != 0 && a == b * q + r && a == b * q' + r' && Abs(r' - r) < Abs(b)
    ensures q == q'
  {
    MulMinus(b, q, q');
    var m := q - q';
    MinusProduct(b, m);
    SmallMultiple(Abs(b), if b < 0 then -m else m);
  }

  lemma QuotientOnce(a: int, b: int, v: int, w: int)
    requires IsLong(v) && IsLong(w) && Quotient(a, b, v) && Quotient(a, b, w)
    ensures v == w
  {
    if b != 0 {
      var q, r :| Truncated(a, b, q, r) && Congruent(v, q);
      var q', r' :| Truncated(a, b, q', r') && Congruent(w, q');
      TruncatedOnce(a, b, q, r, q', r');
      CongruentOnce(v, w, q);
    }
  }

  lemma RemainderOnce(a: int, b: int, v: int, w: int)
    requires Remainder(a, b, v) && Remainder(a, b, w)
    ensures v == w
  {
    if b != 0 {
      var q :| Truncated(a, b, q, v);
      var q' :| Truncated(a, b, q', w);
      TruncatedOnce(a, b, q, v, q', w);
    }
  }

  lemma LongBitsOnce(v: int, w: int)
    requires IsLong(v) && IsLong(w) && forall i :: 0 <= i < 64 ==> Bit(v, i) == Bit(w, i)
    ensures v == w
  {
    hide Bit, Fits;
    LongFits(v);
    LongFits(w);
    BitsOnce(v, w, 63);
  }

  /** The relations leave no choice. */
  lemma LawfulOnce(op: BinOp, a: int, b: int, v: int, w: int)
    requires Lawful(op, a, b, v) && Lawful(op, a, b, w)
    ensures v == w
  {
    hide Bit, Quotient, Remainder, Congruent;
    match op
    case Add => CongruentOnce(v, w, a + b);
    case Sub => Moved(v, b, a); Moved(w, b, a); CongruentOnce(v, w, a - b);
    case Mul => CongruentOnce(v, w, a * b);
    case Div => QuotientOnce(a, b, v, w);
    case Rem => RemainderOnce(a, b, v, w);
    case _ => LongBitsOnce(v, w);
  }

  lemma Moved(v: int, b: int, a: int)
    ensures Congruent(v + b, a) <==> Congruent(v, a - b)
  {
  }

  lemma LawfulUnOnce(op: UnOp, a: int, v: int, w: int)
    requires LawfulUn(op, a, v) && LawfulUn(op, a, w)
    ensures v == w
  {
    hide Bit, Congruent;
    match op
    case Neg => Moved(v, a, 0); Moved(w, a, 0); CongruentOnce(v, w, -a);
    case Inv => LongBitsOnce(v, w);
    case _ =>
  }

  // ----- whole expressions -----

  lemma {:induction false} ValueMeans(e: Expr)
    requires Small(e)
    ensures Means(e, Value(e))
  {
    ValueIsLong(e);
    hide Apply, ApplyUn, Lawful, LawfulUn;
    match e
    case Lit(_) =>
    case Hex(_) =>
    case Un(op, x) =>
      ValueIsLong(x);
      ValueMeans(x);
      ApplyUnIsLawful(op, Value(x));
    case Bin(op, l, r) =>
      ValueIsLong(l);
      ValueIsLong(r);
      ValueMeans(l);
      ValueMeans(r);
      ApplyIsLawful(op, Value(l), Value(r));
  }

  /** An expression has one value. */
  lemma {:induction false} MeansOnce(e: Expr, v: int, w: int)
    requires Means(e, v) && Means(e, w)
    ensures v == w
  {
    hide Lawful, LawfulUn;
    match e
    case Lit(_) =>
    case Hex(_) =>
    case Un(op, x) =>
      var a :| Means(x, a) && LawfulUn(op, a, v);
      var a' :| Means(x, a') && LawfulUn(op, a', w);
      MeansOnce(x, a, a');
      LawfulUnOnce(op, a, v, w);
    case Bin(op, l, r) =>
      var a, b :| Means(l, a) && Means(r, b) && Lawful(op, a, b, v);
      var a', b' :| Means(l, a') && Means(r, b') && Lawful(op, a', b', w);
      MeansOnce(l, a, a');
      MeansOnce(r, b, b');
      LawfulOnce(op, a, b, v, w);
  }
}
