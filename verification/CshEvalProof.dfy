/** Printing an expression and evaluating the text gives its value, and reads all of it. */
module CshEvalProof {
  import opened CshArith
  import opened CshEval

  // ----- blanks -----

  lemma {:induction false} SkipOverBlanks(s: string, p: nat, n: nat)
    requires p + n <= |s| && (forall i :: p <= i < p + n ==> IsBlank(s[i])) && !IsBlank(At(s, p + n))
    ensures SkipBlanks(s, p) == p + n
    decreases n
  {
    if n > 0 {
      SkipOverBlanks(s, p + 1, n - 1);
    }
  }

  lemma SkipTwice(s: string, p: nat)
    requires p <= |s|
    ensures SkipBlanks(s, SkipBlanks(s, p)) == SkipBlanks(s, p)
  {
  }

  lemma LoopSkips(k: nat, s: string, p: nat, v: int)
    requires k < 6 && p <= |s|
    ensures Loop(k, s, SkipBlanks(s, p), v) == Loop(k, s, p, v)
  {
    hide Apply, Operator;
    SkipTwice(s, p);
  }

  // ----- a level's loop, turn by turn -----

  lemma LoopGoes(k: nat, s: string, p: nat, v: int, op: BinOp, r: int, q: nat)
    requires k < 6 && p <= |s| && Operator(k, s, SkipBlanks(s, p)) == OpAt(op)
    requires Level(k + 1, s, SkipBlanks(s, p) + |BinText(op)|) == (r, q)
    ensures Loop(k, s, p, v) == Loop(k, s, q, Apply(op, v, r))
  {
    hide Level, Operator, Apply;
  }

  lemma LoopEnds(k: nat, s: string, p: nat, v: int)
    requires k < 6 && p <= |s| && Operator(k, s, SkipBlanks(s, p)).NoOp?
    ensures Loop(k, s, p, v) == (v, SkipBlanks(s, p))
  {
    hide Level, Operator;
  }

  // ----- numbers -----

  /** What may follow a literal: no digit of either base and no base mark. */
  predicate Ends(c: char) {
    DigitOf(c, 16) < 0 && c != 'x' && c != 'X'
  }

  /** The text t stands in s from p on. */
  predicate Has(s: string, p: nat, t: string) {
    p + |t| <= |s| && forall i :: 0 <= i < |t| ==> s[p + i] == t[i]
  }

  lemma HasParts(s: string, p: nat, t: string, u: string)
    requires Has(s, p, t + u)
    ensures Has(s, p, t) && Has(s, p + |t|, u) && p + |t| + |u| <= |s|
  {
    forall i | 0 <= i < |t| ensures s[p + i] == t[i] {
      assert (t + u)[i] == t[i];
    }
    forall i | 0 <= i < |u| ensures s[p + |t| + i] == u[i] {
      assert (t + u)[|t| + i] == u[i];
    }
  }

  lemma HasAt(s: string, p: nat, t: string, i: nat)
    requires Has(s, p, t) && i < |t|
    ensures At(s, p + i) == t[i] && p + i < |s|
  {
  }

  lemma DigitRound(d: nat, base: nat)
    requires d < base && (base == 10 || base == 16)
    ensures DigitOf(DigitChar(d), base) == d
  {
  }

  lemma WrapSmall(x: int)
    requires -LIMIT <= x < LIMIT
    ensures Wrap(x) == x
  {
  }

  lemma SplitDigit(n: nat, base: nat)
    requires base == 10 || base == 16
    ensures n / base * base + n % base == n
  {
  }

  /** Reading the digits of n from an empty sum arrives behind them with n. */
  lemma {:induction false} NumberReads(s: string, p: nat, n: nat, base: nat)
    requires base == 10 || base == 16
    requires Has(s, p, Digits(n, base)) && n < LIMIT
    ensures Number(s, p, base, 0) == Number(s, p + |Digits(n, base)|, base, n)
    decreases n
  {
    hide Wrap, DigitOf, DigitChar, Has, At;
    if n < base {
      HasAt(s, p, [DigitChar(n)], 0);
      DigitRound(n, base);
      WrapSmall(n);
    } else {
      HasParts(s, p, Digits(n / base, base), [DigitChar(n % base)]);
      NumberReads(s, p, n / base, base);
      var q := p + |Digits(n / base, base)|;
      HasAt(s, q, [DigitChar(n % base)], 0);
      DigitRound(n % base, base);
      SplitDigit(n, base);
      WrapSmall(n);
      assert Number(s, q, base, n / base) == Number(s, q + 1, base, n);
    }
  }

  lemma NumberStops(s: string, p: nat, base: nat, v: int)
    requires p <= |s| && (base == 10 || base == 16) && Ends(At(s, p))
    ensures Number(s, p, base, v) == (v, p)
  {
  }

  lemma {:induction false} DecimalChars(n: nat)
    ensures forall i :: 0 <= i < |Digits(n, 10)| ==> '0' <= Digits(n, 10)[i] <= '9'
  {
    if n >= 10 {
      DecimalChars(n / 10);
    }
  }

  lemma DecimalPrimary(s: string, p: nat, n: nat)
    requires Has(s, p, Digits(n, 10)) && n < LIMIT && Ends(At(s, p + |Digits(n, 10)|))
    ensures Primary(s, p) == (n, p + |Digits(n, 10)|)
  {
    var t := Digits(n, 10);
    DecimalChars(n);
    HasAt(s, p, t, 0);
    if |t| > 1 { HasAt(s, p, t, 1); }
    NumberReads(s, p, n, 10);
    NumberStops(s, p + |t|, 10, n);
  }

  lemma HexPrimary(s: string, p: nat, n: nat)
    requires Has(s, p, "0x" + Digits(n, 16)) && n < LIMIT && Ends(At(s, p + 2 + |Digits(n, 16)|))
    ensures Primary(s, p) == (n, p + 2 + |Digits(n, 16)|)
  {
    HasAt(s, p, "0x" + Digits(n, 16), 0);
    HasAt(s, p, "0x" + Digits(n, 16), 1);
    HasParts(s, p, "0x", Digits(n, 16));
    NumberReads(s, p + 2, n, 16);
    NumberStops(s, p + 2 + |Digits(n, 16)|, 16, n);
  }

  // ----- levels -----

  /** No operator tighter than level k comes next. */
  predicate Quiet(k: nat, s: string, p: nat)
    requires p <= |s|
  {
    forall j :: k < j < 6 ==> Operator(j, s, SkipBlanks(s, p)).NoOp?
  }

  /** What level k makes of a value read up to p: go on with operators of level k. */
  function Onward(k: nat, s: string, p: nat, v: int): (int, nat)
    requires k <= 6 && p <= |s|
  {
    if k == 6 then (v, p) else Loop(k, s, p, v)
  }

  /** A value read at level j is a value at every looser level with nothing tighter behind it. */
  lemma {:induction false} Lift(j: nat, k: nat, s: string, p: nat, q: nat, v: int)
    requires k <= j <= 6 && p <= |s| && q <= |s| && Quiet(k, s, q)
    requires Level(j, s, p) == Onward(j, s, q, v)
    ensures Level(k, s, p) == Onward(k, s, q, v)
    decreases j - k
  {
    hide Operator, Primary;
    if k < j {
      QuietLooser(j - 1, k, s, q);
      if j < 6 {
        LoopSkips(j - 1, s, q, v);
      }
      Lift(j - 1, k, s, p, q, v);
    }
  }

  lemma QuietLooser(j: nat, k: nat, s: string, q: nat)
    requires k <= j < 6 && q <= |s| && Quiet(k, s, q)
    ensures Quiet(j, s, q) && (j + 1 < 6 ==> Operator(j + 1, s, SkipBlanks(s, q)).NoOp?)
  {
    hide Operator;
  }

  // ----- operators -----

  /** A printed operator is read back at its own level and at no other. */
  lemma OperatorReads(op: BinOp, s: string, p: nat, k: nat)
    requires Has(s, p, BinText(op)) && k < 6
    requires At(s, p + |BinText(op)|) != '&' && At(s, p + |BinText(op)|) != '|'
    ensures Operator(k, s, p) == if k == Prec(op) then OpAt(op) else NoOp
  {
    HasAt(s, p, BinText(op), 0);
    if |BinText(op)| > 1 { HasAt(s, p, BinText(op), 1); }
  }

  lemma OperatorChars(op: BinOp)
    ensures !IsBlank(BinText(op)[0]) && Ends(BinText(op)[0])
  {
  }

  /** A printed expression starts with a blank, a digit, a parenthesis or a unary operator. */
  lemma {:induction false} TextStarts(e: Expr, k: nat, g: Gaps)
    requires AllBlank(g)
    ensures Text(e, k, g) != [] && Text(e, k, g)[0] != '&' && Text(e, k, g)[0] != '|'
    decreases e
  {
    GapsBlank(g);
    match e
    case Lit(n) => DecimalChars(n);
    case Hex(n) =>
    case Un(op, x) =>
    case Bin(op, l, r) => TextStarts(l, Prec(op), Left(g));
  }

  // ----- the round trip -----

  lemma TokenAt(s: string, p: nat, sp: string, t: string)
    requires Has(s, p, sp + t) && Blanks(sp) && t != [] && !IsBlank(t[0])
    ensures p + |sp| + |t| <= |s| && SkipBlanks(s, p) == p + |sp| && Has(s, p + |sp|, t) && At(s, p + |sp|) == t[0]
  {
    HasParts(s, p, sp, t);
    HasAt(s, p + |sp|, t, 0);
    forall i | p <= i < p + |sp| ensures IsBlank(s[i]) {
      HasAt(s, p, sp, i - p);
    }
    SkipOverBlanks(s, p, |sp|);
  }

  /** Text of e at p, with nothing behind it that the reader of level k would take for part of it. */
  ghost predicate Stands(e: Expr, k: nat, s: string, p: nat, g: Gaps) {
    && k <= 6 && Small(e) && AllBlank(g) && Has(s, p, Text(e, k, g))
    && Ends(At(s, p + |Text(e, k, g)|)) && Quiet(k, s, p + |Text(e, k, g)|)
  }

  lemma ReadsLiteral(e: Expr, k: nat, s: string, p: nat, g: Gaps)
    requires Stands(e, k, s, p, g) && (e.Lit? || e.Hex?)
    ensures Level(6, s, p) == (Value(e), p + |Text(e, k, g)|)
  {
    hide Primary, Operator;
    GapsBlank(g);
    var sp := Open(g);
    if e.Lit? {
      DecimalChars(e.n);
      TokenAt(s, p, sp, Digits(e.n, 10));
      DecimalPrimary(s, p + |sp|, e.n);
    } else {
      TokenAt(s, p, sp, "0x" + Digits(e.n, 16));
      HexPrimary(s, p + |sp|, e.n);
    }
  }

  lemma UnaryReads(op: UnOp)
    ensures UnaryAt(UnText(op)) == (op, true) && UnText(op) != '(' && !IsBlank(UnText(op))
  {
  }

  lemma {:induction false} ReadsUnary(e: Expr, k: nat, s: string, p: nat, g: Gaps)
    requires Stands(e, k, s, p, g) && e.Un?
    ensures Level(6, s, p) == (Value(e), p + |Text(e, k, g)|)
    decreases e, 0
  {
    hide ApplyUn, UnaryAt, UnText, Operator, Has, Blanks, Open, Left;
    GapsBlank(g);
    var sp, rest := Open(g), Text(e.arg, 6, Left(g));
    assert sp + [UnText(e.uop)] + rest == sp + ([UnText(e.uop)] + rest);
    UnaryReads(e.uop);
    TokenAt(s, p, sp, [UnText(e.uop)] + rest);
    HasParts(s, p + |sp|, [UnText(e.uop)], rest);
    Reads(e.arg, 6, s, p + |sp| + 1, Left(g));
  }

  /** Left operand, operator, right operand, read at the operator's level. */
  lemma {:induction false} ReadsBody(e: Expr, s: string, p: nat, g: Gaps)
    requires e.Bin? && Small(e) && AllBlank(g) && Has(s, p, Body(e, g))
    requires Ends(At(s, p + |Body(e, g)|)) && Quiet(Prec(e.op), s, p + |Body(e, g)|)
    ensures Level(Prec(e.op), s, p) == Loop(Prec(e.op), s, p + |Body(e, g)|, Value(e))
    decreases e, 0
  {
    hide Apply, Operator, Primary, Text, Prec, Quiet, Has, Blanks, AllBlank, Ends, SkipBlanks, Level, Loop, At, BinText, Mid, Left, Right;
    GapsBlank(g);
    var j := Prec(e.op);
    var lt, sp, ot, rt := Text(e.left, j, Left(g)), Mid(g), BinText(e.op), Text(e.right, j + 1, Right(g));
    OperatorChars(e.op);
    TextStarts(e.right, j + 1, Right(g));
    BodyParts(s, p, lt, sp, ot, rt);
    assert |Body(e, g)| == |lt| + |sp| + |ot| + |rt|;
    var m := p + |lt|;
    OperatorNext(e.op, s, m);
    Reads(e.left, j, s, p, Left(g));
    QuietTighter(j, s, p + |Body(e, g)|);
    Reads(e.right, j + 1, s, m + |sp| + |ot|, Right(g));
    LoopTakes(j, e.op, s, m, p + |Body(e, g)|, Value(e.left), Value(e.right));
  }

  /** Where the pieces of an operator expression stand. */
  lemma BodyParts(s: string, p: nat, lt: string, sp: string, ot: string, rt: string)
    requires Has(s, p, lt + sp + ot + rt) && Blanks(sp)
    requires ot != [] && !IsBlank(ot[0]) && Ends(ot[0]) && rt != []
    ensures var m := p + |lt|;
      && Has(s, p, lt) && m <= |s| && Ends(At(s, m)) && SkipBlanks(s, m) == m + |sp|
      && Has(s, m + |sp|, ot) && Has(s, m + |sp| + |ot|, rt) && m + |sp| + |ot| + |rt| <= |s| && At(s, m + |sp| + |ot|) == rt[0]
  {
    hide SkipBlanks, Has, Blanks, Ends, At;
    assert lt + sp + ot + rt == lt + (sp + (ot + rt));
    HasParts(s, p, lt, sp + (ot + rt));
    var m := p + |lt|;
    TokenAt(s, m, sp, ot + rt);
    EndsBefore(s, m, sp, ot + rt);
    HasParts(s, m + |sp|, ot, rt);
    HasAt(s, m + |sp| + |ot|, rt, 0);
  }

  lemma OperatorNext(op: BinOp, s: string, m: nat)
    requires m <= |s| && Has(s, SkipBlanks(s, m), BinText(op))
    requires var c := At(s, SkipBlanks(s, m) + |BinText(op)|); c != '&' && c != '|'
    ensures Quiet(Prec(op), s, m) && Operator(Prec(op), s, SkipBlanks(s, m)) == OpAt(op)
  {
    hide Operator;
    forall k | k < 6 ensures Operator(k, s, SkipBlanks(s, m)) == if k == Prec(op) then OpAt(op) else NoOp {
      OperatorReads(op, s, SkipBlanks(s, m), k);
    }
  }

  lemma EndsBefore(s: string, m: nat, sp: string, t: string)
    requires Has(s, m, sp + t) && Blanks(sp) && t != [] && Ends(t[0])
    ensures Ends(At(s, m))
  {
    HasAt(s, m, sp + t, 0);
  }

  lemma QuietTighter(j: nat, s: string, p: nat)
    requires p <= |s| && j < 6 && Quiet(j, s, p)
    ensures Quiet(j + 1, s, p)
  {
    hide Operator;
  }

  /** One turn of a level's loop, with the right operand read up to `end`. */
  lemma LoopTakes(j: nat, op: BinOp, s: string, m: nat, end: nat, v: int, w: int)
    requires j < 6 && m <= |s| && end <= |s| && Quiet(j, s, end)
    requires Operator(j, s, SkipBlanks(s, m)) == OpAt(op)
    requires Level(j + 1, s, SkipBlanks(s, m) + |BinText(op)|) == Onward(j + 1, s, end, w)
    ensures Loop(j, s, m, v) == Loop(j, s, end, Apply(op, v, w))
  {
    QuietLooser(j, j, s, end);
    hide Apply, Operator, Level, Loop, SkipBlanks, Quiet;
    if j + 1 < 6 {
      LoopEnds(j + 1, s, end, w);
      LoopGoes(j, s, m, v, op, w, SkipBlanks(s, end));
      LoopSkips(j, s, end, Apply(op, v, w));
    } else {
      LoopGoes(j, s, m, v, op, w, end);
    }
  }

  /** The same between parentheses, as a primary. */
  lemma {:induction false} ReadsParens(e: Expr, s: string, p: nat, g: Gaps)
    requires e.Bin? && Small(e) && AllBlank(g) && Has(s, p, Open(g) + "(" + Body(e, g) + Close(g) + ")")
    ensures Level(6, s, p) == (Value(e), p + |Open(g)| + 1 + |Body(e, g)| + |Close(g)| + 1)
    decreases e, 1
  {
    hide Apply, Operator, Body, Prec, Quiet, Value, Has, Blanks, AllBlank, Ends, Loop, At, Open, Close;
    GapsBlank(g);
    var body := Body(e, g);
    ParenParts(s, p, Open(g), body, Close(g));
    var b := p + |Open(g)| + 1;
    CloserQuiet(s, b + |body|);
    QuietUp(0, Prec(e.op), s, b + |body|);
    ReadsBody(e, s, b, g);
    Lift(Prec(e.op), 0, s, b, b + |body|, Value(e));
    ParenPrimary(s, p + |Open(g)|, b + |body|, b + |body| + |Close(g)|, Value(e));
  }

  lemma ParenParts(s: string, p: nat, sp: string, body: string, ep: string)
    requires Has(s, p, sp + "(" + body + ep + ")") && Blanks(sp) && Blanks(ep)
    ensures var b := p + |sp| + 1;
      var end := b + |body|;
      && p <= |s| && SkipBlanks(s, p) == p + |sp| && At(s, p + |sp|) == '(' && Has(s, b, body) && end <= |s|
      && Ends(At(s, end)) && SkipBlanks(s, end) == end + |ep| && At(s, end + |ep|) == ')'
  {
    hide SkipBlanks, Has, Blanks, At;
    assert sp + "(" + body + ep + ")" == sp + ("(" + (body + (ep + ")")));
    TokenAt(s, p, sp, "(" + (body + (ep + ")")));
    var b := p + |sp| + 1;
    HasParts(s, p + |sp|, "(", body + (ep + ")"));
    HasParts(s, b, body, ep + ")");
    TokenAt(s, b + |body|, ep, ")");
    EndsBefore(s, b + |body|, ep, ")");
  }

  lemma ParenPrimary(s: string, p: nat, end: nat, close: nat, v: int)
    requires p < |s| && end <= |s| && At(s, p) == '(' && Level(0, s, p + 1) == Loop(0, s, end, v)
    requires Loop(0, s, end, v) == (v, close) && close <= |s| && At(s, close) == ')'
    ensures Primary(s, p) == (v, close + 1)
  {
    hide Level, Loop;
  }

  lemma CloserQuiet(s: string, end: nat)
    requires end <= |s| && At(s, SkipBlanks(s, end)) == ')'
    ensures Quiet(0, s, end) && forall v :: Loop(0, s, end, v) == (v, SkipBlanks(s, end))
  {
  }

  /** Reading the text of e at level k arrives behind it with the value of e. */
  lemma {:induction false} Reads(e: Expr, k: nat, s: string, p: nat, g: Gaps)
    requires Stands(e, k, s, p, g)
    ensures Level(k, s, p) == Onward(k, s, p + |Text(e, k, g)|, Value(e))
    decreases e, 2
  {
    hide Apply, ApplyUn, Operator, Primary, Value, Level, Open, Close, Left;
    var end := p + |Text(e, k, g)|;
    match e
    case Lit(_) =>
      ReadsLiteral(e, k, s, p, g);
      Lift(6, k, s, p, end, Value(e));
    case Hex(_) =>
      ReadsLiteral(e, k, s, p, g);
      Lift(6, k, s, p, end, Value(e));
    case Un(_, _) =>
      ReadsUnary(e, k, s, p, g);
      Lift(6, k, s, p, end, Value(e));
    case Bin(op, _, _) =>
      if Prec(op) < k {
        ReadsParens(e, s, p, g);
        Lift(6, k, s, p, end, Value(e));
      } else {
        QuietUp(k, Prec(op), s, end);
        ReadsBody(e, s, p, g);
        Lift(Prec(op), k, s, p, end, Value(e));
      }
  }

  lemma QuietUp(k: nat, j: nat, s: string, p: nat)
    requires p <= |s| && k <= j && Quiet(k, s, p)
    ensures Quiet(j, s, p)
  {
    hide Operator;
  }

  /** `csh_eval_int` on the printed text of an expression, whatever blanks stand before its
      tokens, is its value, and all of the text is read. */
  lemma EvalOfText(e: Expr, g: Gaps)
    requires Small(e) && AllBlank(g)
    ensures Level(0, Text(e, 0, g), 0) == (Value(e), |Text(e, 0, g)|)
  {
    hide Apply, ApplyUn, Primary, Value, Level, Text;
    var s := Text(e, 0, g);
    Reads(e, 0, s, 0, g);
  }
}
