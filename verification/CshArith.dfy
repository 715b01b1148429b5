/** csh's integer expressions: trees, their value on 64-bit longs, and their text. */
module CshArith {

  datatype UnOp = Neg | Plus | Inv | Not

  datatype BinOp = Mul | Div | Rem | Add | Sub | Shl | Shr | And | Xor | Or

  datatype Expr =
    | Lit(n: nat)
    | Hex(n: nat)
    | Un(uop: UnOp, arg: Expr)
    | Bin(op: BinOp, left: Expr, right: Expr)

  /** Precedence levels, loosest first; 6 is a primary. */
  function Prec(op: BinOp): (k: nat)
    ensures k < 6
  {
    match op
    case Mul => 5 case Div => 5 case Rem => 5
    case Add => 4 case Sub => 4
    case Shl => 3 case Shr => 3
    case And => 2
    case Xor => 1
    case Or => 0
  }

  // ----- longs -----

  const LIMIT: int := 0x8000_0000_0000_0000

  /** Two's complement wrap-around to a 64-bit long. */
  function Wrap(x: int): int {
    (x + LIMIT) % (2 * LIMIT) - LIMIT
  }

  function Abs(x: int): nat { if x < 0 then -x else x }

  /** C's division: truncation toward zero. */
  function TruncDiv(a: int, b: int): int
    requires b != 0
  {
    var q := Abs(a) / Abs(b);
    if (a < 0) == (b < 0) then q else -q
  }

  function TruncRem(a: int, b: int): int
    requires b != 0
  {
    a - b * TruncDiv(a, b)
  }

  function Pow2(n: nat): (p: nat)
    ensures p > 0
  {
    if n == 0 then 1 else 2 * Pow2(n - 1)
  }

  function BitOp(op: BinOp, x: int, y: int): int {
    match op
    case And => if x == 1 && y == 1 then 1 else 0
    case Or => if x == 1 || y == 1 then 1 else 0
    case _ => if x == y then 0 else 1
  }

  /** Bit by bit from the lowest; what is left after 63 bits is the sign. */
  function Bitwise(op: BinOp, a: int, b: int, bits: nat): int
    decreases bits
  {
    if bits == 0 then -BitOp(op, if a < 0 then 1 else 0, if b < 0 then 1 else 0)
    else 2 * Bitwise(op, a / 2, b / 2, bits - 1) + BitOp(op, a % 2, b % 2)
  }

  /** Division and remainder by zero give 0; shift counts count modulo 64. */
  function Apply(op: BinOp, a: int, b: int): int {
    match op
    case Mul => Wrap(a * b)
    case Div => if b == 0 then 0 else Wrap(TruncDiv(a, b))
    case Rem => if b == 0 then 0 else TruncRem(a, b)
    case Add => Wrap(a + b)
    case Sub => Wrap(a - b)
    case Shl => Wrap(a * Pow2(b % 64))
    case Shr => a / Pow2(b % 64)
    case _ => Bitwise(op, a, b, 63)
  }

  function ApplyUn(op: UnOp, a: int): int {
    match op
    case Neg => Wrap(-a)
    case Plus => a
    case Inv => -a - 1
    case Not => if a == 0 then 1 else 0
  }

  function Value(e: Expr): int {
    match e
    case Lit(n) => n
    case Hex(n) => n
    case Un(op, x) => ApplyUn(op, Value(x))
    case Bin(op, l, r) => Apply(op, Value(l), Value(r))
  }

  /** Literals fit a long. */
  predicate Small(e: Expr) {
    match e
    case Lit(n) => n < LIMIT
    case Hex(n) => n < LIMIT
    case Un(_, x) => Small(x)
    case Bin(_, l, r) => Small(l) && Small(r)
  }

  // ----- text -----

  function DigitChar(d: nat): char
    requires d < 16
  {
    if d < 10 then '0' + d as char else 'a' + (d - 10) as char
  }

  function Digits(n: nat, base: nat): (s: string)
    requires base == 10 || base == 16
    ensures s != []
  {
    if n < base then [DigitChar(n)] else Digits(n / base, base) + [DigitChar(n % base)]
  }

  function UnText(op: UnOp): char {
    match op case Neg => '-' case Plus => '+' case Inv => '~' case Not => '!'
  }

  function BinText(op: BinOp): (s: string)
    ensures |s| > 0
  {
    match op
    case Mul => "*" case Div => "/" case Rem => "%"
    case Add => "+" case Sub => "-"
    case Shl => "<<" case Shr => ">>"
    case And => "&"
    case Xor => "^"
    case Or => "|"
  }

  predicate IsBlank(c: char) { c == ' ' || c == '\t' }

  predicate Blanks(sp: string) { forall i :: 0 <= i < |sp| ==> sp[i] == ' ' || sp[i] == '\t' }

  /** The blanks before each token of a text, in a tree of the expression's shape;
      there are none where the tree ends. */
  datatype Gaps = Tight | Gaps(open: string, mid: string, close: string, left: Gaps, right: Gaps)

  function Open(g: Gaps): string { if g.Tight? then "" else g.open }
  function Mid(g: Gaps): string { if g.Tight? then "" else g.mid }
  function Close(g: Gaps): string { if g.Tight? then "" else g.close }
  function Left(g: Gaps): Gaps { if g.Tight? then Tight else g.left }
  function Right(g: Gaps): Gaps { if g.Tight? then Tight else g.right }

  predicate AllBlank(g: Gaps) {
    g.Tight? || (Blanks(g.open) && Blanks(g.mid) && Blanks(g.close) && AllBlank(g.left) && AllBlank(g.right))
  }

  lemma GapsBlank(g: Gaps)
    requires AllBlank(g)
    ensures Blanks(Open(g)) && Blanks(Mid(g)) && Blanks(Close(g)) && AllBlank(Left(g)) && AllBlank(Right(g))
  {
  }

  /** The text of e where an operator of level k or tighter may stand, with the blanks
      of g before its tokens: parentheses appear only around a looser operator. */
  function Text(e: Expr, k: nat, g: Gaps): string
    decreases e, 1
  {
    match e
    case Lit(n) => Open(g) + Digits(n, 10)
    case Hex(n) => Open(g) + ("0x" + Digits(n, 16))
    case Un(op, x) => Open(g) + [UnText(op)] + Text(x, 6, Left(g))
    case Bin(op, _, _) => if Prec(op) < k then Open(g) + "(" + Body(e, g) + Close(g) + ")" else Body(e, g)
  }

  function Body(e: Expr, g: Gaps): string
    requires e.Bin?
    decreases e, 0
  {
    Text(e.left, Prec(e.op), Left(g)) + Mid(g) + BinText(e.op) + Text(e.right, Prec(e.op) + 1, Right(g))
  }
}

/** csh's recursive evaluator over a shared cursor (`eval_primary` to `eval_expr_bor`). */
module CshEval {
  import opened CshArith

  /** The character under the cursor; the terminating zero past the end. */
  function At(s: string, p: nat): char { if p < |s| then s[p] else '\0' }

  function SkipBlanks(s: string, p: nat): (q: nat)
    requires p <= |s|
    ensures p <= q <= |s| && !IsBlank(At(s, q))
    decreases |s| - p
  {
    if p < |s| && IsBlank(s[p]) then SkipBlanks(s, p + 1) else p
  }

  function DigitOf(c: char, base: nat): (d: int)
    ensures -1 <= d < 16
  {
    if '0' <= c <= '9' then c as int - '0' as int
    else if base == 16 && 'a' <= c <= 'f' then c as int - 'a' as int + 10
    else if base == 16 && 'A' <= c <= 'F' then c as int - 'A' as int + 10
    else -1
  }

  function Number(s: string, p: nat, base: nat, v: int): (r: (int, nat))
    requires p <= |s|
    ensures p <= r.1 <= |s|
    decreases |s| - p
  {
    if DigitOf(At(s, p), base) >= 0 && p < |s|
    then Number(s, p + 1, base, Wrap(v * base + DigitOf(At(s, p), base)))
    else (v, p)
  }

  datatype OpAt = NoOp | OpAt(op: BinOp)

  /** The operator of level k at the cursor. */
  function Operator(k: nat, s: string, p: nat): (r: OpAt)
    ensures r.OpAt? ==> Prec(r.op) == k && p + |BinText(r.op)| <= |s|
  {
    var c, d := At(s, p), At(s, p + 1);
    match k
    case 5 => if c == '*' then OpAt(Mul) else if c == '/' then OpAt(Div) else if c == '%' then OpAt(Rem) else NoOp
    case 4 => if c == '+' then OpAt(Add) else if c == '-' then OpAt(Sub) else NoOp
    case 3 => if c == '<' && d == '<' then OpAt(Shl) else if c == '>' && d == '>' then OpAt(Shr) else NoOp
    case 2 => if c == '&' && d != '&' then OpAt(And) else NoOp
    case 1 => if c == '^' then OpAt(Xor) else NoOp
    case 0 => if c == '|' && d != '|' then OpAt(Or) else NoOp
    case _ => NoOp
  }

  function Literal(s: string, p: nat): (r: (int, nat))
    requires p <= |s|
    ensures p <= r.1 <= |s|
  {
    if At(s, p) == '0' && (At(s, p + 1) == 'x' || At(s, p + 1) == 'X') then Number(s, p + 2, 16, 0)
    else Number(s, p, 10, 0)
  }

  function UnaryAt(c: char): (UnOp, bool) {
    match c
    case '-' => (Neg, true)
    case '+' => (Plus, true)
    case '~' => (Inv, true)
    case '!' => (Not, true)
    case _ => (Plus, false)
  }

  /** Level 6 is a primary; level k below it is operands of level k + 1 joined by operators of level k. */
  function Level(k: nat, s: string, p: nat): (r: (int, nat))
    requires k <= 6 && p <= |s|
    ensures p <= r.1 <= |s|
    decreases |s| - p, 13 - 2 * k
  {
    if k < 6 then
      var (v, q) := Level(k + 1, s, p);
      Loop(k, s, q, v)
    else Primary(s, SkipBlanks(s, p))
  }

  function Primary(s: string, p: nat): (r: (int, nat))
    requires p <= |s|
    ensures p <= r.1 <= |s|
    decreases |s| - p, 0
  {
    if At(s, p) == '(' then
      var (v, q) := Level(0, s, p + 1);
      var q' := SkipBlanks(s, q);
      (v, if At(s, q') == ')' then q' + 1 else q')
    else if UnaryAt(At(s, p)).1 then
      var (v, q) := Level(6, s, p + 1);
      (ApplyUn(UnaryAt(At(s, p)).0, v), q)
    else Literal(s, p)
  }

  function Loop(k: nat, s: string, p: nat, v: int): (r: (int, nat))
    requires k < 6 && p <= |s|
    ensures p <= r.1 <= |s|
    decreases |s| - p, 12 - 2 * k
  {
    var q := SkipBlanks(s, p);
    match Operator(k, s, q)
    case NoOp => (v, q)
    case OpAt(op) =>
      var (x, q') := Level(k + 1, s, q + |BinText(op)|);
      Loop(k, s, q', Apply(op, v, x))
  }
}
