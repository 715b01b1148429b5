/** The evaluator's functions as csh has them: a loop per precedence level over a moving cursor. */
module CshEvaluator {
  import opened CshArith
  import opened CshEval
  import opened CshEvalProof
  import opened CshLaws

  /** `eval_skip_ws`. */
  method SkipWs(s: string, p: nat) returns (q: nat)
    requires p <= |s|
    ensures q == SkipBlanks(s, p)
  {
    q := p;
    while At(s, q) == ' ' || At(s, q) == '\t'
      invariant p <= q <= |s| && SkipBlanks(s, q) == SkipBlanks(s, p)
      decreases |s| - q
    {
      q := q + 1;
    }
  }

  /** The number at the end of `eval_primary`: decimal, or hexadecimal after 0x. */
  method EvalNumber(s: string, p: nat) returns (v: int, q: nat)
    requires p <= |s|
    ensures q <= |s| && (v, q) == Literal(s, p)
  {
    hide Wrap;
    var base := 10;
    q := p;
    if At(s, q) == '0' && (At(s, q + 1) == 'x' || At(s, q + 1) == 'X') {
      base := 16;
      q := q + 2;
    }
    v := 0;
    ghost var start := q;
    while q < |s| && DigitOf(At(s, q), base) >= 0
      invariant start <= q <= |s| && Number(s, q, base, v) == Number(s, start, base, 0)
      decreases |s| - q
    {
      v := Wrap(v * base + DigitOf(At(s, q), base));
      q := q + 1;
    }
  }

  /** `eval_primary`. */
  method EvalPrimary(s: string, p: nat) returns (v: int, q: nat)
    requires p <= |s|
    ensures q <= |s| && (v, q) == Level(6, s, p)
    decreases |s| - p, 0
  {
    hide Loop, Wrap, Literal;
    q := SkipWs(s, p);
    var c := At(s, q);
    if c == '(' {
      v, q := EvalBor(s, q + 1);
      q := SkipWs(s, q);
      if At(s, q) == ')' { q := q + 1; }
      return;
    }
    if c == '-' { v, q := EvalPrimary(s, q + 1); return Wrap(-v), q; }
    if c == '+' { v, q := EvalPrimary(s, q + 1); return; }
    if c == '~' { v, q := EvalPrimary(s, q + 1); return -v - 1, q; }
    if c == '!' { v, q := EvalPrimary(s, q + 1); return if v == 0 then 1 else 0, q; }
    v, q := EvalNumber(s, q);
  }

  /** One level is its first operand, then its loop. */
  lemma LevelStarts(k: nat, s: string, p: nat, v: int, q: nat)
    requires k < 6 && p <= |s| && Level(k + 1, s, p) == (v, q)
    ensures Level(k, s, p) == Loop(k, s, q, v)
  {
    hide Loop;
  }

  /** `eval_expr_mul`. */
  method EvalMul(s: string, p: nat) returns (v: int, q: nat)
    requires p <= |s|
    ensures q <= |s| && (v, q) == Level(5, s, p)
    decreases |s| - p, 2
  {
    hide Level, Loop, Wrap, Pow2, Bitwise, SkipBlanks;
    v, q := EvalPrimary(s, p);
    LevelStarts(5, s, p, v, q);
    while true
      invariant p <= q <= |s| && Loop(5, s, q, v) == Level(5, s, p)
      decreases |s| - q
    {
      ghost var before := q;
      q := SkipWs(s, q);
      var c := At(s, q);
      var r;
      if c == '*' {
        r, q := EvalPrimary(s, q + 1);
        LoopGoes(5, s, before, v, Mul, r, q);
        v := Wrap(v * r);
      } else if c == '/' {
        r, q := EvalPrimary(s, q + 1);
        LoopGoes(5, s, before, v, Div, r, q);
        v := if r != 0 then Wrap(TruncDiv(v, r)) else 0;
      } else if c == '%' {
        r, q := EvalPrimary(s, q + 1);
        LoopGoes(5, s, before, v, Rem, r, q);
        v := if r != 0 then TruncRem(v, r) else 0;
      } else {
        LoopEnds(5, s, before, v);
        break;
      }
    }
  }

  /** `eval_expr_add`. */
  method EvalAdd(s: string, p: nat) returns (v: int, q: nat)
    requires p <= |s|
    ensures q <= |s| && (v, q) == Level(4, s, p)
    decreases |s| - p, 3
  {
    hide Level, Loop, Wrap, Pow2, Bitwise, SkipBlanks;
    v, q := EvalMul(s, p);
    LevelStarts(4, s, p, v, q);
    while true
      invariant p <= q <= |s| && Loop(4, s, q, v) == Level(4, s, p)
      decreases |s| - q
    {
      ghost var before := q;
      q := SkipWs(s, q);
      var c := At(s, q);
      var r;
      if c == '+' {
        r, q := EvalMul(s, q + 1);
        LoopGoes(4, s, before, v, Add, r, q);
        v := Wrap(v + r);
      } else if c == '-' {
        r, q := EvalMul(s, q + 1);
        LoopGoes(4, s, before, v, Sub, r, q);
        v := Wrap(v - r);
      } else {
        LoopEnds(4, s, before, v);
        break;
      }
    }
  }

  /** `eval_expr_shift`. */
  method EvalShift(s: string, p: nat) returns (v: int, q: nat)
    requires p <= |s|
    ensures q <= |s| && (v, q) == Level(3, s, p)
    decreases |s| - p, 4
  {
    hide Level, Loop, Wrap, Pow2, Bitwise, SkipBlanks;
    v, q := EvalAdd(s, p);
    LevelStarts(3, s, p, v, q);
    while true
      invariant p <= q <= |s| && Loop(3, s, q, v) == Level(3, s, p)
      decreases |s| - q
    {
      ghost var before := q;
      q := SkipWs(s, q);
      var c := At(s, q);
      var d := At(s, q + 1);
      var r;
      if c == '<' && d == '<' {
        r, q := EvalAdd(s, q + 2);
        LoopGoes(3, s, before, v, Shl, r, q);
        v := Wrap(v * Pow2(r % 64));
      } else if c == '>' && d == '>' {
        r, q := EvalAdd(s, q + 2);
        LoopGoes(3, s, before, v, Shr, r, q);
        v := v / Pow2(r % 64);
      } else {
        LoopEnds(3, s, before, v);
        break;
      }
    }
  }

  /** `eval_expr_band`. */
  method EvalBand(s: string, p: nat) returns (v: int, q: nat)
    requires p <= |s|
    ensures q <= |s| && (v, q) == Level(2, s, p)
    decreases |s| - p, 5
  {
    hide Level, Loop, Wrap, Pow2, Bitwise, SkipBlanks;
    v, q := EvalShift(s, p);
    LevelStarts(2, s, p, v, q);
    while true
      invariant p <= q <= |s| && Loop(2, s, q, v) == Level(2, s, p)
      decreases |s| - q
    {
      ghost var before := q;
      q := SkipWs(s, q);
      var c := At(s, q);
      var d := At(s, q + 1);
      var r;
      if c == '&' && d != '&' {
        r, q := EvalShift(s, q + 1);
        LoopGoes(2, s, before, v, And, r, q);
        v := Bitwise(And, v, r, 63);
      } else {
        LoopEnds(2, s, before, v);
        break;
      }
    }
  }

  /** `eval_expr_bxor`. */
  method EvalBxor(s: string, p: nat) returns (v: int, q: nat)
    requires p <= |s|
    ensures q <= |s| && (v, q) == Level(1, s, p)
    decreases |s| - p, 6
  {
    hide Level, Loop, Wrap, Pow2, Bitwise, SkipBlanks;
    v, q := EvalBand(s, p);
    LevelStarts(1, s, p, v, q);
    while true
      invariant p <= q <= |s| && Loop(1, s, q, v) == Level(1, s, p)
      decreases |s| - q
    {
      ghost var before := q;
      q := SkipWs(s, q);
      var c := At(s, q);
      var r;
      if c == '^' {
        r, q := EvalBand(s, q + 1);
        LoopGoes(1, s, before, v, Xor, r, q);
        v := Bitwise(Xor, v, r, 63);
      } else {
        LoopEnds(1, s, before, v);
        break;
      }
    }
  }

  /** `eval_expr_bor`. */
  method EvalBor(s: string, p: nat) returns (v: int, q: nat)
    requires p <= |s|
    ensures q <= |s| && (v, q) == Level(0, s, p)
    decreases |s| - p, 7
  {
    hide Level, Loop, Wrap, Pow2, Bitwise, SkipBlanks;
    v, q := EvalBxor(s, p);
    LevelStarts(0, s, p, v, q);
    while true
      invariant p <= q <= |s| && Loop(0, s, q, v) == Level(0, s, p)
      decreases |s| - q
    {
      ghost var before := q;
      q := SkipWs(s, q);
      var c := At(s, q);
      var d := At(s, q + 1);
      var r;
      if c == '|' && d != '|' {
        r, q := EvalBxor(s, q + 1);
        LoopGoes(0, s, before, v, Or, r, q);
        v := Bitwise(Or, v, r, 63);
      } else {
        LoopEnds(0, s, before, v);
        break;
      }
    }
  }

  /** `csh_eval_int`: the text of an expression, with any blanks between its tokens, gives its value. */
  method EvalInt(text: string) returns (v: int)
    ensures v == Level(0, text, 0).0
    ensures forall e, g :: Small(e) && AllBlank(g) && text == Text(e, 0, g) ==> v == Value(e) && Means(e, v)
  {
    hide Value, Text, Level, Small, Blanks, Means;
    var q;
    v, q := EvalBor(text, 0);
    forall e, g | Small(e) && AllBlank(g) && text == Text(e, 0, g) ensures v == Value(e) && Means(e, v) {
      EvalOfText(e, g);
      ValueMeans(e);
    }
  }
}
