/** The texts csh evaluates, spelled out: which symbol is which operator, which binds tighter,
    and that equal ones associate to the left. */
module CshGrammar {
  import opened CshArith
  import opened CshEval
  import opened CshEvalProof
  import opened CshLaws
  import opened CshLongs

  /** The place value of a digit text. */
  ghost function Positional(s: string, base: nat): int {
    if s == [] then 0 else FaceValue(s[0]) * Power(base, |s| - 1) + Positional(s[1..], base)
  }

  ghost function Power(base: nat, n: nat): nat { if n == 0 then 1 else base * Power(base, n - 1) }

  ghost function FaceValue(c: char): int {
    if '0' <= c <= '9' then c as int - 48
    else if 'a' <= c <= 'f' then c as int - 87
    else if 'A' <= c <= 'F' then c as int - 55
    else -1
  }

  lemma {:induction false} PositionalLast(s: string, c: char, base: nat)
    ensures Positional(s + [c], base) == base * Positional(s, base) + FaceValue(c)
  {
    if s == [] {
      assert [c][1..] == [];
      assert s + [c] == [c];
      assert Power(base, 0) == 1;
    } else {
      assert (s + [c])[1..] == s[1..] + [c];
      PositionalLast(s[1..], c, base);
      var f, p := FaceValue(s[0]), Power(base, |s| - 1);
      assert Power(base, |s|) == base * p;
      Regroup(base, f, p, Positional(s[1..], base));
    }
  }

  lemma Regroup(base: int, f: int, p: int, rest: int)
    ensures f * (base * p) + base * rest == base * (f * p + rest)
  {
    assert f * (base * p) == base * (f * p);
  }

  /** A printed number has the place value it should, and no digit too many in front. */
  lemma {:induction false} DigitsMean(n: nat, base: nat)
    requires base == 10 || base == 16
    ensures var s := Digits(n, base);
      && Positional(s, base) == n && (s[0] == '0' ==> n == 0 && |s| == 1)
      && forall i :: 0 <= i < |s| ==> 0 <= FaceValue(s[i]) < base
  {
    if n < base {
      var c := DigitChar(n);
      assert [c][1..] == [];
      assert Positional([c], base) == FaceValue(c) * Power(base, 0) + Positional([], base);
    } else {
      DigitsMean(n / base, base);
      PositionalLast(Digits(n / base, base), DigitChar(n % base), base);
    }
  }

  lemma CongruentTimes(x: int, y: int, k: int, c: int)
    requires Congruent(x, y)
    ensures Congruent(x * k + c, y * k + c)
  {
    var m := (x - y) / WORD;
    assert x - y == WORD * m;
    assert x * k + c - (y * k + c) == (x - y) * k == WORD * (m * k);
    MultipleOf(m * k);
  }

  lemma MultipleOf(m: int)
    ensures (WORD * m) % WORD == 0
  {
  }

  lemma CongruentTrans(x: int, y: int, z: int)
    requires Congruent(x, y) && Congruent(y, z)
    ensures Congruent(x, z)
  {
    var m, n := (x - y) / WORD, (y - z) / WORD;
    assert x - z == WORD * (m + n);
    MultipleOf(m + n);
  }

  ghost predicate DigitsFrom(s: string, p: nat, q: nat, base: nat) {
    && p <= q <= |s| && (forall i :: p <= i < q ==> 0 <= FaceValue(s[i]) < base)
    && (q < |s| ==> !(0 <= FaceValue(s[q]) < base))
  }

  /** v in front of n digits of value rest. */
  ghost function Before(v: int, base: nat, n: nat, rest: int): int { v * Power(base, n) + rest }

  lemma NumberStep(s: string, p: nat, q: nat, base: nat, v: int)
    requires (base == 10 || base == 16) && DigitsFrom(s, p, q, base) && p < q
    ensures var d, rest := FaceValue(s[p]), Positional(s[p + 1..q], base);
      && Number(s, p, base, v) == Number(s, p + 1, base, Wrap(Before(v, base, 1, d)))
      && Positional(s[p..q], base) == Before(d, base, q - p - 1, rest)
  {
    hide Wrap;
    assert Power(base, 1) == base * Power(base, 0) == base;
    hide Power;
    assert DigitOf(s[p], base) == FaceValue(s[p]);
    assert s[p..q][1..] == s[p + 1..q] && s[p..q][0] == s[p];
  }

  lemma NumberSum(v: int, base: nat, d: int, k: int, rest: int)
    ensures (v * base + d) * k + rest == v * (base * k) + (d * k + rest)
  {
    assert (v * base + d) * k == v * base * k + d * k;
    assert v * base * k == v * (base * k);
  }

  lemma BeforeTwo(v: int, base: nat, d: int, n: nat, rest: int)
    ensures Before(Before(v, base, 1, d), base, n, rest) == Before(v, base, n + 1, Before(d, base, n, rest))
  {
    assert Power(base, 1) == base * Power(base, 0) == base;
    assert Power(base, n + 1) == base * Power(base, n);
    NumberSum(v, base, d, Power(base, n), rest);
  }

  lemma NumberJoin(w: int, next: int, v: int, base: nat, d: int, n: nat, rest: int)
    requires Congruent(next, Before(v, base, 1, d)) && Congruent(w, Before(next, base, n, rest))
    ensures Congruent(w, Before(v, base, n + 1, Before(d, base, n, rest)))
  {
    BeforeTwo(v, base, d, n, rest);
    CongruentTimes(next, Before(v, base, 1, d), Power(base, n), rest);
    hide Congruent, Power;
    CongruentTrans(w, Before(next, base, n, rest), Before(Before(v, base, 1, d), base, n, rest));
  }

  /** Digits of either case and any number are read to their end, with their place value modulo 2^64. */
  lemma {:induction false} NumberMeans(s: string, p: nat, q: nat, base: nat, v: int)
    requires (base == 10 || base == 16) && DigitsFrom(s, p, q, base) && IsLong(v)
    ensures var (w, e) := Number(s, p, base, v);
      e == q && IsLong(w) && Congruent(w, Before(v, base, q - p, Positional(s[p..q], base)))
    decreases q - p
  {
    if p == q {
      assert s[p..q] == [];
    } else {
      var d := FaceValue(s[p]);
      var next := Wrap(Before(v, base, 1, d));
      hide *;
      NumberStep(s, p, q, base, v);
      WrapCongruent(Before(v, base, 1, d));
      StillDigits(s, p, q, base);
      NumberMeans(s, p + 1, q, base, next);
      NumberJoin(Number(s, p, base, v).0, next, v, base, d, q - p - 1, Positional(s[p + 1..q], base));
    }
  }

  lemma StillDigits(s: string, p: nat, q: nat, base: nat)
    requires DigitsFrom(s, p, q, base) && p < q
    ensures DigitsFrom(s, p + 1, q, base)
  {
  }

  function Dec(n: nat): string { Digits(n, 10) }

  function V(text: string): int { Level(0, text, 0).0 }

  lemma Infix(op: BinOp, a: nat, b: nat)
    requires a < LIMIT && b < LIMIT
    ensures Lawful(op, a, b, V(Dec(a) + BinText(op) + Dec(b)))
  {
    var e := Bin(op, Lit(a), Lit(b));
    hide Level, Digits, BinText, Apply, Lawful;
    LeafText(a, Prec(op), Tight);
    LeafText(b, Prec(op) + 1, Tight);
    TwoText(e);
    EvalOfText(e, Tight);
    ApplyIsLawful(op, a, b);
  }

  lemma LeafText(a: nat, k: nat, g: Gaps)
    ensures g.Tight? ==> Text(Lit(a), k, g) == Dec(a)
  {
  }

  /** An infix text without parentheses: the looser operator stands outside. */
  lemma TwoText(e: Expr)
    requires e.Bin?
    ensures Text(e, 0, Tight) == Text(e.left, Prec(e.op), Tight) + BinText(e.op) + Text(e.right, Prec(e.op) + 1, Tight)
  {
    var l, r := Text(e.left, Prec(e.op), Tight), Text(e.right, Prec(e.op) + 1, Tight);
    assert l + "" + BinText(e.op) + r == l + BinText(e.op) + r;
  }

  /** Which symbol is which operator, and on which side its operands stand. */
  lemma Symbols(a: nat, b: nat)
    requires a < LIMIT && b < LIMIT
    ensures Lawful(Mul, a, b, V(Dec(a) + "*" + Dec(b))) && Lawful(Div, a, b, V(Dec(a) + "/" + Dec(b)))
    ensures Lawful(Rem, a, b, V(Dec(a) + "%" + Dec(b))) && Lawful(Add, a, b, V(Dec(a) + "+" + Dec(b)))
    ensures Lawful(Sub, a, b, V(Dec(a) + "-" + Dec(b))) && Lawful(Shl, a, b, V(Dec(a) + "<<" + Dec(b)))
    ensures Lawful(Shr, a, b, V(Dec(a) + ">>" + Dec(b))) && Lawful(And, a, b, V(Dec(a) + "&" + Dec(b)))
    ensures Lawful(Xor, a, b, V(Dec(a) + "^" + Dec(b))) && Lawful(Or, a, b, V(Dec(a) + "|" + Dec(b)))
  {
    hide V, Digits, Lawful;
    Infix(Mul, a, b);
    Infix(Div, a, b);
    Infix(Rem, a, b);
    Infix(Add, a, b);
    Infix(Sub, a, b);
    Infix(Shl, a, b);
    Infix(Shr, a, b);
    Infix(And, a, b);
    Infix(Xor, a, b);
    Infix(Or, a, b);
  }

  lemma Prefixes(a: nat)
    requires a < LIMIT
    ensures LawfulUn(Neg, a, V("-" + Dec(a))) && LawfulUn(Plus, a, V("+" + Dec(a)))
    ensures LawfulUn(Inv, a, V("~" + Dec(a))) && LawfulUn(Not, a, V("!" + Dec(a)))
  {
    hide V, Digits, LawfulUn;
    Prefix(Neg, a);
    Prefix(Plus, a);
    Prefix(Inv, a);
    Prefix(Not, a);
  }

  lemma Prefix(op: UnOp, a: nat)
    requires a < LIMIT
    ensures LawfulUn(op, a, V([UnText(op)] + Dec(a)))
  {
    var e := Un(op, Lit(a));
    hide Level, Digits, UnText, ApplyUn, LawfulUn;
    LeafText(a, 6, Tight);
    assert "" + [UnText(op)] + Dec(a) == [UnText(op)] + Dec(a);
    EvalOfText(e, Tight);
    ApplyUnIsLawful(op, a);
  }

  lemma TextMeans(e: Expr, text: string)
    requires Small(e) && text == Text(e, 0, Tight)
    ensures Means(e, V(text))
  {
    hide Level, Text, Value, Means, Small;
    EvalOfText(e, Tight);
    ValueMeans(e);
  }

  predicate SameRow(op: BinOp, op': BinOp) {
    || (op in {Mul, Div, Rem} && op' in {Mul, Div, Rem}) || (op in {Add, Sub} && op' in {Add, Sub})
    || (op in {Shl, Shr} && op' in {Shl, Shr}) || op == op'
  }

  /** Operators of one row associate to the left. */
  lemma LeftFirst(op: BinOp, op': BinOp, a: nat, b: nat, c: nat)
    requires a < LIMIT && b < LIMIT && c < LIMIT && SameRow(op, op')
    ensures Means(Bin(op', Bin(op, Lit(a), Lit(b)), Lit(c)), V(Dec(a) + BinText(op) + Dec(b) + BinText(op') + Dec(c)))
  {
    var inner := Bin(op, Lit(a), Lit(b));
    var e := Bin(op', inner, Lit(c));
    hide V, Digits, BinText, Means;
    InnerText(inner, Prec(op'));
    TwoText(inner);
    TwoText(e);
    LeafText(a, Prec(op), Tight);
    LeafText(b, Prec(op) + 1, Tight);
    LeafText(c, Prec(op') + 1, Tight);
    assert Small(inner);
    TextMeans(e, Dec(a) + BinText(op) + Dec(b) + BinText(op') + Dec(c));
  }

  /** An operator at least as tight as asked for gets no parentheses. */
  lemma InnerText(e: Expr, k: nat)
    requires e.Bin? && k <= Prec(e.op)
    ensures Text(e, k, Tight) == Text(e, 0, Tight)
  {
  }

  /** A tighter operator in the right operand needs no parentheses, */
  lemma TighterRight(op: BinOp, n: nat, e: Expr)
    requires e.Bin? && Prec(op) < Prec(e.op)
    ensures Text(Bin(op, Lit(n), e), 0, Tight) == Dec(n) + (BinText(op) + Text(e, 0, Tight))
  {
    hide Digits, BinText;
    TwoText(Bin(op, Lit(n), e));
    LeafText(n, Prec(op), Tight);
    InnerText(e, Prec(op) + 1);
    hide Text;
    assert Dec(n) + BinText(op) + Text(e, 0, Tight) == Dec(n) + (BinText(op) + Text(e, 0, Tight));
  }

  /** nor in the left one. */
  lemma TighterLeft(op: BinOp, e: Expr, n: nat)
    requires e.Bin? && Prec(op) < Prec(e.op)
    ensures Text(Bin(op, e, Lit(n)), 0, Tight) == Text(e, 0, Tight) + BinText(op) + Dec(n)
  {
    hide Digits, BinText;
    TwoText(Bin(op, e, Lit(n)));
    LeafText(n, Prec(op) + 1, Tight);
    InnerText(e, Prec(op));
  }

  /** The six rows, loosest first: each operator takes what stands right of it. */
  lemma RowsRight(a: nat, b: nat, c: nat, d: nat, e: nat, f: nat, g: nat)
    requires a < LIMIT && b < LIMIT && c < LIMIT && d < LIMIT && e < LIMIT && f < LIMIT && g < LIMIT
    ensures Means(
        Bin(Or, Lit(a), Bin(Xor, Lit(b), Bin(And, Lit(c), Bin(Shl, Lit(d), Bin(Add, Lit(e), Bin(Mul, Lit(f), Lit(g))))))),
        V(Dec(a) + ("|" + (Dec(b) + ("^" + (Dec(c) + ("&" + (Dec(d) + ("<<" + (Dec(e) + ("+" + (Dec(f) + "*" + Dec(g)))))))))))))
  {
    var e5 := Bin(Mul, Lit(f), Lit(g));
    var e4 := Bin(Add, Lit(e), e5);
    var e3 := Bin(Shl, Lit(d), e4);
    var e2 := Bin(And, Lit(c), e3);
    var e1 := Bin(Xor, Lit(b), e2);
    var e0 := Bin(Or, Lit(a), e1);
    hide V, Digits, Means, Text;
    TwoText(e5);
    LeafText(f, 5, Tight);
    LeafText(g, 6, Tight);
    TighterRight(Add, e, e5);
    TighterRight(Shl, d, e4);
    TighterRight(And, c, e3);
    TighterRight(Xor, b, e2);
    TighterRight(Or, a, e1);
    assert Small(e5);
    assert Small(e4);
    assert Small(e3);
    assert Small(e2);
    assert Small(e1);
    TextMeans(e0, Text(e0, 0, Tight));
  }

  /** Tightest first: each operator takes all that stands left of it. */
  lemma RowsLeft(a: nat, b: nat, c: nat, d: nat, e: nat, f: nat, g: nat)
    requires a < LIMIT && b < LIMIT && c < LIMIT && d < LIMIT && e < LIMIT && f < LIMIT && g < LIMIT
    ensures Means(
        Bin(Or, Bin(Xor, Bin(And, Bin(Shl, Bin(Add, Bin(Mul, Lit(a), Lit(b)), Lit(c)), Lit(d)), Lit(e)), Lit(f)), Lit(g)),
        V(Dec(a) + "*" + Dec(b) + "+" + Dec(c) + "<<" + Dec(d) + "&" + Dec(e) + "^" + Dec(f) + "|" + Dec(g)))
  {
    var e5 := Bin(Mul, Lit(a), Lit(b));
    var e4 := Bin(Add, e5, Lit(c));
    var e3 := Bin(Shl, e4, Lit(d));
    var e2 := Bin(And, e3, Lit(e));
    var e1 := Bin(Xor, e2, Lit(f));
    var e0 := Bin(Or, e1, Lit(g));
    hide V, Digits, Means, Text;
    TwoText(e5);
    LeafText(a, 5, Tight);
    LeafText(b, 6, Tight);
    TighterLeft(Add, e5, c);
    TighterLeft(Shl, e4, d);
    TighterLeft(And, e3, e);
    TighterLeft(Xor, e2, f);
    TighterLeft(Or, e1, g);
    assert Small(e5);
    assert Small(e4);
    assert Small(e3);
    assert Small(e2);
    assert Small(e1);
    TextMeans(e0, Text(e0, 0, Tight));
  }
}
