/** The csh script machine (usr/bin/csh.c): lines, frames, the abstract
    shell around them, and one transition of `run_script` as a function.

    Expansion, tokenizing, conditions and ordinary commands enter as the
    functions of `Env`; each reads the variable store and nothing else. */
module CshMachine {
  import opened Options

  const LINE_MAX := 4096
  const VARS_MAX := 256
  const VALUE_MAX := 1024
  const NEST_MAX := 32

  /** The shell variables and the last return code. */
  datatype Store = Store(vars: map<string, string>, rc: int)

  /** `var_set`: a full table drops new names, long values are cut. */
  function VarSet(st: Store, name: string, value: string): Store {
    if name !in st.vars && |st.vars| >= VARS_MAX then st
    else st.(vars := st.vars[name := if |value| < VALUE_MAX then value else value[..VALUE_MAX - 1]])
  }

  /** `after` is `before` with `name` holding `value`, cut to 1023 characters; every other
      variable and the return code are as before. A new name finds no place among 256. */
  ghost predicate Assigned(before: Store, name: string, value: string, after: Store) {
    && after.rc == before.rc
    && (forall other :: other != name ==>
          (other in after.vars <==> other in before.vars) && (other in before.vars ==> after.vars[other] == before.vars[other]))
    && (if name in before.vars || |before.vars| < 256
        then name in after.vars && after.vars[name] <= value && |after.vars[name]| == if |value| <= 1023 then |value| else 1023
        else after == before)
  }

  lemma VarSetMeans(st: Store, name: string, value: string)
    ensures Assigned(st, name, value, VarSet(st, name, value))
  {
  }

  /** `rc_set`, with the rendering of the number left to `render`. */
  function RcSet(st: Store, rc: int, render: int -> string): Store {
    VarSet(st.(rc := rc), "status", render(rc))
  }

  /** What the first token of a line asks for. */
  datatype Word = Blank | If | Else | Endif | Foreach | While | End | Break | Continue | Exit | Command

  /** The tokens after `foreach`: fewer than two of them, or a variable and its items. */
  datatype Head = BadForeach | Items(name: string, items: seq<string>)

  datatype Env = Env(
    word: (string, Store) -> Word,
    cond: (string, Store) -> bool,
    head: (string, Store) -> Head,
    exitCode: (string, Store) -> int,
    exec: (string, Store) -> Store,
    render: int -> string)

  datatype Frame =
    | IfTrue(end: int)
    | IfFalse(end: int)
    | IfElseT(end: int)
    | IfElseF(end: int)
    | IfSkip(end: int)
    | ForeachLive(body: int, end: int, cur: int, items: seq<string>, name: string)
    | ForeachSkip(end: int)
    | WhileLive(body: int, end: int, cond: string)
    | WhileSkip(end: int)

  predicate Dead(f: Frame) {
    f.IfFalse? || f.IfElseF? || f.IfSkip? || f.ForeachSkip? || f.WhileSkip?
  }

  predicate LiveLoop(f: Frame) {
    f.ForeachLive? || f.WhileLive?
  }

  predicate IfFrame(f: Frame) {
    f.IfTrue? || f.IfFalse? || f.IfElseT? || f.IfElseF? || f.IfSkip?
  }

  /** A command that was run, with the store it saw. */
  datatype Event = Ran(text: string, before: Store)

  datatype State = State(pc: int, stack: seq<Frame>, store: Store, trace: seq<Event>, exited: Option<int>)

  /** The loaded lines with the `g_end_of` table of the block pass. */
  datatype Script = Script(env: Env, lines: seq<string>, ends: seq<int>)

  predicate Skipping(stack: seq<Frame>) {
    exists i :: 0 <= i < |stack| && Dead(stack[i])
  }

  function Top(stack: seq<Frame>): Frame
    requires stack != []
  {
    stack[|stack| - 1]
  }

  function Pop(stack: seq<Frame>): seq<Frame>
    requires stack != []
  {
    stack[..|stack| - 1]
  }

  /** A full stack swallows the push. */
  function Push(stack: seq<Frame>, f: Frame): seq<Frame> {
    if |stack| < NEST_MAX then stack + [f] else stack
  }

  /** Where `break` leads: the stack it leaves and the line it goes to. */
  function BreakTo(stack: seq<Frame>, pc: int): (seq<Frame>, int) {
    if stack == [] then (stack, pc + 1)
    else if LiveLoop(Top(stack)) then (Pop(stack), Top(stack).end + 1)
    else if IfFrame(Top(stack)) then BreakTo(Pop(stack), pc)
    else (stack, pc + 1)
  }

  /** Where `continue` leads: the innermost live loop stays on top. */
  function ContinueTo(stack: seq<Frame>, whole: seq<Frame>, pc: int): (seq<Frame>, int) {
    if stack == [] then (whole, pc + 1)
    else if LiveLoop(Top(stack)) then (stack, Top(stack).end)
    else ContinueTo(Pop(stack), whole, pc)
  }

  predicate Halted(sc: Script, s: State) {
    s.exited.Some? || s.pc < 0 || s.pc >= |sc.lines|
  }

  function EndOf(sc: Script, i: int): int {
    if 0 <= i < |sc.ends| then sc.ends[i] else -1
  }

  function Goto(s: State, stack: seq<Frame>, pc: int): State {
    s.(stack := stack, pc := pc)
  }

  function NextIf(sc: Script, s: State): State
    requires !Halted(sc, s)
  {
    var e := EndOf(sc, s.pc);
    var f := if Skipping(s.stack) then IfSkip(e)
             else if sc.env.cond(sc.lines[s.pc], s.store) then IfTrue(e) else IfFalse(e);
    Goto(s, Push(s.stack, f), s.pc + 1)
  }

  function NextElse(s: State): State {
    if s.stack == [] then Goto(s, s.stack, s.pc + 1)
    else
      var top := Top(s.stack);
      var top' := if top.IfTrue? then IfElseF(top.end) else if top.IfFalse? then IfElseT(top.end) else top;
      Goto(s, Pop(s.stack) + [top'], s.pc + 1)
  }

  function NextForeach(sc: Script, s: State): State
    requires !Halted(sc, s)
  {
    var e := EndOf(sc, s.pc);
    if Skipping(s.stack) then Goto(s, Push(s.stack, ForeachSkip(e)), s.pc + 1)
    else match sc.env.head(sc.lines[s.pc], s.store)
      case BadForeach => s.(store := RcSet(s.store, 1, sc.env.render), pc := s.pc + 1)
      case Items(name, items) =>
        if items == [] then Goto(s, Push(s.stack, ForeachSkip(e)), s.pc + 1)
        else if |s.stack| >= NEST_MAX then s.(pc := s.pc + 1)
        else Goto(s, s.stack + [ForeachLive(s.pc + 1, e, 0, items, name)], s.pc + 1)
             .(store := VarSet(s.store, name, items[0]))
  }

  function NextWhile(sc: Script, s: State): State
    requires !Halted(sc, s)
  {
    var e := EndOf(sc, s.pc);
    var f := if Skipping(s.stack) || !sc.env.cond(sc.lines[s.pc], s.store) then WhileSkip(e)
             else WhileLive(s.pc + 1, e, sc.lines[s.pc]);
    Goto(s, Push(s.stack, f), s.pc + 1)
  }

  function NextEnd(sc: Script, s: State): State {
    if s.stack == [] then s.(pc := s.pc + 1)
    else
      var top := Top(s.stack);
      if top.ForeachLive? && 0 <= top.cur + 1 < |top.items| then
        Goto(s, Pop(s.stack) + [top.(cur := top.cur + 1)], top.body)
        .(store := VarSet(s.store, top.name, top.items[top.cur + 1]))
      else if top.WhileLive? && sc.env.cond(top.cond, s.store) then Goto(s, s.stack, top.body)
      else Goto(s, Pop(s.stack), s.pc + 1)
  }

  function NextSimple(sc: Script, s: State, w: Word): State
    requires !Halted(sc, s)
  {
    var text := sc.lines[s.pc];
    if w.Blank? || Skipping(s.stack) then s.(pc := s.pc + 1)
    else if w.Break? then var (stack, pc) := BreakTo(s.stack, s.pc); Goto(s, stack, pc)
    else if w.Continue? then var (stack, pc) := ContinueTo(s.stack, s.stack, s.pc); Goto(s, stack, pc)
    else if w.Exit? then s.(exited := Some(sc.env.exitCode(text, s.store)))
    else s.(store := sc.env.exec(text, s.store), trace := s.trace + [Ran(text, s.store)], pc := s.pc + 1)
  }

  /** One turn of the loop in `run_script`. */
  function Next(sc: Script, s: State): State
    requires !Halted(sc, s)
  {
    var w := sc.env.word(sc.lines[s.pc], s.store);
    match w
    case If => NextIf(sc, s)
    case Else => NextElse(s)
    case Endif => Goto(s, if s.stack == [] then [] else Pop(s.stack), s.pc + 1)
    case Foreach => NextForeach(sc, s)
    case While => NextWhile(sc, s)
    case End => NextEnd(sc, s)
    case _ => NextSimple(sc, s, w)
  }

  /** At most n turns, stopping when the script halts. */
  function Steps(sc: Script, n: nat, s: State): State {
    if n == 0 || Halted(sc, s) then s else Steps(sc, n - 1, Next(sc, s))
  }

  lemma {:induction false} StepsAdd(sc: Script, m: nat, n: nat, s: State)
    ensures Steps(sc, m + n, s) == Steps(sc, n, Steps(sc, m, s))
  {
    if m == 0 {
    } else if Halted(sc, s) {
      assert Steps(sc, n, s) == s;
    } else {
      StepsAdd(sc, m - 1, n, Next(sc, s));
    }
  }
}
