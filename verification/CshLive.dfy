/** Live code of a csh script: started on the lines of a statement list with
    a live stack, the machine brings about the meaning of the list. */
module CshLive {
  import opened Options
  import opened CshMachine
  import opened CshStructured
  import opened CshSkip

  predicate HasLoop(stack: seq<Frame>) {
    exists i :: 0 <= i < |stack| && LiveLoop(stack[i])
  }

  /** A stack of live frames; `inLoop`: one of them is a loop. */
  ghost predicate Live(s: State, inLoop: bool, room: nat) {
    && s.pc >= 0 && s.exited.None? && !Skipping(s.stack)
    && inLoop == HasLoop(s.stack)
    && |s.stack| + room <= NEST_MAX
  }

  ghost predicate Ready(sc: Script, b: Prog, p: nat) {
    Located(sc.lines, p, b) && Tabled(sc, p, b) && Sound(sc.env, b)
  }

  ghost predicate ReadyFirst(sc: Script, b: Prog, p: nat)
    requires !b.Skip?
  {
    LocatedFirst(sc.lines, p, b) && TabledFirst(sc, p, b) && SoundFirst(sc.env, b)
  }

  /** What is left of a stack on which a list ended normally: a stray `break` undoes all of it. */
  function Left(stray: bool, stack: seq<Frame>): seq<Frame> { if stray then [] else stack }

  /** Where a finished statement list leaves the machine: at line `after` with what is left
      of the stack it started on, or where `break` and `continue` lead from there. */
  ghost predicate Lands(t: State, r: Result, after: int, stack: seq<Frame>)
    requires r.Done?
  {
    match r.how
    case Normal => t == At(Left(r.stray, stack), after, r.store, r.trace)
    case Broke => t == At(BreakTo(stack, 0).0, BreakTo(stack, 0).1, r.store, r.trace)
    case Continued => t == At(ContinueTo(stack, stack, 0).0, ContinueTo(stack, stack, 0).1, r.store, r.trace)
    case Exited(code) => t.store == r.store && t.trace == r.trace && t.exited == Some(code)
  }

  /** n steps bring about r; without a result the machine is still running after `fuel` steps. */
  ghost predicate Runs(sc: Script, s: State, n: nat, r: Result, after: int, stack: seq<Frame>, fuel: nat) {
    match r
    case Timeout => n >= fuel && !Halted(sc, Steps(sc, n, s))
    case Done(_, _, _, _) => Lands(Steps(sc, n, s), r, after, stack)
  }

  lemma RunsLater(sc: Script, s: State, k: nat, at: State, n: nat, r: Result, after: int, stack: seq<Frame>, fuel: nat)
    requires Steps(sc, k, s) == at && Runs(sc, at, n, r, after, stack, fuel)
    ensures Runs(sc, s, k + n, r, after, stack, fuel)
  {
    hide Next, Steps;
    StepsAdd(sc, k, n, s);
  }

  /** A normal end, and a run from there on what is left of the stack. */
  lemma RunsThen(sc: Script, s: State, k: nat, r1: Result, n: nat, r2: Result, p: int, after: int, stack: seq<Frame>, fuel: nat)
    requires r1.Done? && r1.how.Normal? && Runs(sc, s, k, r1, p, stack, fuel)
    requires Runs(sc, At(Left(r1.stray, stack), p, r1.store, r1.trace), n, r2, after, Left(r1.stray, stack), fuel)
    requires r1.stray && r2.Done? ==> r2.how.Normal? || r2.how.Exited?
    ensures Runs(sc, s, k + n, Then(r1, r2), after, stack, fuel)
  {
    hide Next, Steps;
    StepsAdd(sc, k, n, s);
  }

  /** Without a normal end it does not matter which line comes next. */
  lemma RunsAbrupt(sc: Script, s: State, n: nat, r: Result, p: int, q: int, stack: seq<Frame>, fuel: nat)
    requires Runs(sc, s, n, r, p, stack, fuel) && (r.Done? ==> !r.how.Normal?)
    ensures Runs(sc, s, n, r, q, stack, fuel)
  {
  }

  lemma RunsStart(sc: Script, s: State, r: Result, fuel: nat)
    requires s.exited.None? && r == Done(Normal, s.store, s.trace, false)
    ensures Runs(sc, s, 0, r, s.pc, s.stack, fuel)
  {
    NoStep(sc, s);
  }

  // ----- break and continue -----

  lemma {:induction false} BreakAnywhere(stack: seq<Frame>, p: int, q: int)
    requires HasLoop(stack) && !Skipping(stack)
    ensures BreakTo(stack, p) == BreakTo(stack, q)
  {
    var i :| 0 <= i < |stack| && LiveLoop(stack[i]);
    if !LiveLoop(Top(stack)) {
      assert Pop(stack)[i] == stack[i];
      BreakAnywhere(Pop(stack), p, q);
    }
  }

  lemma {:induction false} ContinueAnywhere(stack: seq<Frame>, w: seq<Frame>, w': seq<Frame>, p: int, q: int)
    requires HasLoop(stack)
    ensures ContinueTo(stack, w, p) == ContinueTo(stack, w', q)
  {
    var i :| 0 <= i < |stack| && LiveLoop(stack[i]);
    if !LiveLoop(Top(stack)) {
      assert Pop(stack)[i] == stack[i];
      ContinueAnywhere(Pop(stack), w, w', p, q);
    }
  }

  lemma {:induction false} ContinueNowhere(stack: seq<Frame>, w: seq<Frame>, p: int)
    requires !HasLoop(stack)
    ensures ContinueTo(stack, w, p) == (w, p + 1)
  {
    if stack != [] {
      assert !LiveLoop(stack[|stack| - 1]);
      ContinueNowhere(Pop(stack), w, p);
    }
  }

  /** Outside every loop `break` undoes all frames and goes on. */
  lemma {:induction false} BreakNowhere(stack: seq<Frame>, p: int)
    requires !HasLoop(stack) && !Skipping(stack)
    ensures BreakTo(stack, p) == ([], p + 1)
  {
    if stack != [] {
      assert !LiveLoop(stack[|stack| - 1]) && !Dead(stack[|stack| - 1]);
      assert !Skipping(Pop(stack)) && !HasLoop(Pop(stack));
      BreakNowhere(Pop(stack), p);
    }
  }

  lemma SimLeaf(sc: Script, b: Prog, s: State, inLoop: bool, fuel: nat)
    requires b.Leaf? && Live(s, inLoop, 0) && ReadyFirst(sc, b, s.pc)
    ensures Runs(sc, s, 1, ExecLeaf(sc.env, b.text, inLoop, s.store, s.trace), s.pc + 1, s.stack, fuel)
  {
    hide BreakTo, ContinueTo, Skipping, HasLoop;
    var w := sc.env.word(b.text, s.store);
    LeafStep(sc, s, w);
    if inLoop {
      BreakAnywhere(s.stack, 0, s.pc);
      ContinueAnywhere(s.stack, s.stack, s.stack, 0, s.pc);
    } else {
      BreakNowhere(s.stack, s.pc);
      ContinueNowhere(s.stack, s.stack, s.pc);
    }
  }

  lemma LeafStep(sc: Script, s: State, w: Word)
    requires !Halted(sc, s) && w == sc.env.word(sc.lines[s.pc], s.store) && Simple(w)
    ensures Steps(sc, 1, s) == NextSimple(sc, s, w)
  {
    hide NextSimple, BreakTo, ContinueTo;
    assert Steps(sc, 0, Next(sc, s)) == Next(sc, s);
  }

  // ----- frames -----

  /** A live frame on top. */
  lemma LiveOpen(s: State, inLoop: bool, room: nat, f: Frame)
    requires Live(s, inLoop, room + 1) && !Dead(f)
    ensures Live(s.(stack := s.stack + [f]), inLoop || LiveLoop(f), room)
  {
    var stack := s.stack + [f];
    assert forall i :: 0 <= i < |s.stack| ==> stack[i] == s.stack[i];
    if HasLoop(s.stack) {
      var i :| 0 <= i < |s.stack| && LiveLoop(s.stack[i]);
      assert LiveLoop(stack[i]);
    }
    assert stack[|s.stack|] == f;
  }

  /** From inside a live `if` frame to the outside: m more steps close it on a normal end. */
  lemma IfBody(sc: Script, at: State, n: nat, r: Result, q: int, stack: seq<Frame>, f: Frame, fuel: nat, m: nat, after: int)
    requires IfFrame(f) && Runs(sc, at, n, r, q, stack + [f], fuel)
    requires r.Done? && (r.how.Broke? || r.how.Continued?) ==> HasLoop(stack)
    requires r.Done? && r.how.Normal? ==>
      Steps(sc, m, At(Left(r.stray, stack + [f]), q, r.store, r.trace)) == At(Left(r.stray, stack), after, r.store, r.trace)
    ensures Runs(sc, at, if r.Done? && r.how.Normal? then n + m else n, r, after, stack, fuel)
  {
    hide Next, Steps, HasLoop;
    assert Pop(stack + [f]) == stack;
    if r.Done? && r.how.Normal? {
      StepsAdd(sc, n, m, at);
    } else if r.Done? && r.how.Continued? {
      ContinueAnywhere(stack, stack, stack + [f], 0, 0);
    }
  }

  // ----- if -----

  lemma IfStep(sc: Script, s: State)
    requires !Halted(sc, s) && !Skipping(s.stack) && |s.stack| < NEST_MAX
    requires sc.env.word(sc.lines[s.pc], s.store).If?
    ensures var e := EndOf(sc, s.pc);
      Steps(sc, 1, s) == s.(pc := s.pc + 1,
        stack := s.stack + [if sc.env.cond(sc.lines[s.pc], s.store) then IfTrue(e) else IfFalse(e)])
  {
  }

  /** `endif` pops the frame of its `if`, unless a stray `break` has done so. */
  lemma EndifStep(sc: Script, stack: seq<Frame>, f: Frame, q: int, st: Store, tr: seq<Event>, stray: bool)
    requires 0 <= q < |sc.lines| && sc.env.word(sc.lines[q], st).Endif?
    ensures Steps(sc, 1, At(Left(stray, stack + [f]), q, st, tr)) == At(Left(stray, stack), q + 1, st, tr)
  {
    assert Pop(stack + [f]) == stack;
  }

  lemma ElseStep(sc: Script, stack: seq<Frame>, f: Frame, m: int, st: Store, tr: seq<Event>)
    requires 0 <= m < |sc.lines| && sc.env.word(sc.lines[m], st).Else? && (f.IfTrue? || f.IfFalse?)
    ensures Steps(sc, 1, At(stack + [f], m, st, tr))
         == At(stack + [if f.IfTrue? then IfElseF(f.end) else IfElseT(f.end)], m + 1, st, tr)
  {
    assert Pop(stack + [f]) == stack;
  }

  /** With no frame left `else` is passed over. */
  lemma ElseEmpty(sc: Script, m: int, st: Store, tr: seq<Event>)
    requires 0 <= m < |sc.lines| && sc.env.word(sc.lines[m], st).Else?
    ensures Steps(sc, 1, At([], m, st, tr)) == At([], m + 1, st, tr)
  {
  }

  /** `if` without `else`. */
  lemma {:induction false} SimIf(sc: Script, head: string, body: Prog, close: string, s: State, inLoop: bool, fuel: nat) returns (n: nat)
    requires Live(s, inLoop, 1 + Nesting(body)) && Bracketed(sc.lines, s.pc, head, body, close)
    requires Always(sc.env, head, If) && Always(sc.env, close, Endif) && Ready(sc, body, s.pc + 1)
    ensures Runs(sc, s, n, if sc.env.cond(head, s.store) then Exec(sc.env, true, body, inLoop, s.store, s.trace, fuel)
                           else Done(Normal, s.store, s.trace, false), s.pc + 2 + Len(body), s.stack, fuel)
    decreases fuel, Len(body), 3
  {
    hide Next, Steps, Exec, Located, Tabled, Sound, Runs, HasLoop;
    var q := s.pc + 1 + Len(body);
    IfStep(sc, s);
    if sc.env.cond(head, s.store) {
      var f := IfTrue(EndOf(sc, s.pc));
      var start := s.(stack := s.stack + [f], pc := s.pc + 1);
      LiveOpen(s, inLoop, Nesting(body), f);
      var n1 := Sim(sc, body, start, inLoop, fuel);
      var r := Exec(sc.env, true, body, inLoop, s.store, s.trace, fuel);
      if r.Done? { EndifStep(sc, s.stack, f, q, r.store, r.trace, r.stray); }
      IfBody(sc, start, n1, r, q, s.stack, f, fuel, 1, q + 1);
      n := if r.Done? && r.how.Normal? then n1 + 1 else n1;
      RunsLater(sc, s, 1, start, n, r, q + 1, s.stack, fuel);
      n := 1 + n;
    } else {
      n := SimEmpty(sc, body, s, IfFalse(EndOf(sc, s.pc)), fuel);
    }
  }

  /** A block whose body does not run: its lines are walked over dead. */
  lemma SimEmpty(sc: Script, body: Prog, s: State, f: Frame, fuel: nat) returns (n: nat)
    requires s.pc >= 0 && s.exited.None? && |s.stack| + 1 + Nesting(body) <= NEST_MAX && Dead(f)
    requires Steps(sc, 1, s) == s.(stack := s.stack + [f], pc := s.pc + 1)
    requires Located(sc.lines, s.pc + 1, body) && Sound(sc.env, body)
    requires s.pc + 1 + Len(body) < |sc.lines| && sc.env.word(sc.lines[s.pc + 1 + Len(body)], s.store) in {Endif, End}
    ensures Runs(sc, s, n, Done(Normal, s.store, s.trace, false), s.pc + 2 + Len(body), s.stack, fuel)
  {
    hide Next, Steps, Located, Sound;
    var q := s.pc + 1 + Len(body);
    var n1 := SkipOver(sc, body, s.(stack := s.stack + [f], pc := s.pc + 1));
    DeadClose(sc, s, f, q);
    BracketSteps(sc, s, f, n1, q);
    n := 1 + n1 + 1;
  }

  /** After a live first branch: `else`, the dead second branch, `endif`. */
  lemma ElseSkipped(sc: Script, s: State, e: int, m: nat, mid: string, els: Prog, close: string) returns (n: nat)
    requires s.exited.None? && |s.stack| + 1 + Nesting(els) <= NEST_MAX && Bracketed(sc.lines, m, mid, els, close)
    requires Always(sc.env, mid, Else) && Always(sc.env, close, Endif) && Sound(sc.env, els)
    ensures Steps(sc, n, s.(stack := s.stack + [IfTrue(e)], pc := m)) == s.(pc := m + 2 + Len(els))
  {
    hide Next, Steps, Located, Sound;
    var q := m + 1 + Len(els);
    ElseStep(sc, s.stack, IfTrue(e), m, s.store, s.trace);
    var dead := s.(stack := s.stack + [IfElseF(e)], pc := m + 1);
    var n1 := SkipOver(sc, els, dead);
    DeadClose(sc, s, IfElseF(e), q);
    StepsAdd(sc, n1, 1, dead);
    StepsAdd(sc, 1, n1 + 1, s.(stack := s.stack + [IfTrue(e)], pc := m));
    n := 1 + (n1 + 1);
  }

  /** After a first branch that met a stray `break`: `else` switches nothing off, so the second branch runs. */
  lemma {:induction false} AfterStray(sc: Script, mid: string, els: Prog, close: string, m: nat, st: Store, tr: seq<Event>, fuel: nat)
    returns (n: nat)
    requires Bracketed(sc.lines, m, mid, els, close) && Nesting(els) <= NEST_MAX
    requires Always(sc.env, mid, Else) && Always(sc.env, close, Endif) && Ready(sc, els, m + 1)
    ensures Runs(sc, At([], m, st, tr), n, Exec(sc.env, true, els, false, st, tr, fuel), m + 2 + Len(els), [], fuel)
    decreases fuel, Len(els), 3
  {
    hide Next, Steps, Exec, Located, Tabled, Sound, Nesting;
    var q := m + 1 + Len(els);
    var start := At([], m + 1, st, tr);
    ElseEmpty(sc, m, st, tr);
    n := Sim(sc, els, start, false, fuel);
    var r := Exec(sc.env, true, els, false, st, tr, fuel);
    if r.Done? && r.how.Normal? {
      EndifStep(sc, [], IfTrue(0), q, r.store, r.trace, true);
      StepsAdd(sc, n, 1, start);
      n := n + 1;
    }
    RunsLater(sc, At([], m, st, tr), 1, start, n, r, q + 1, [], fuel);
    n := 1 + n;
  }

  /** `if` with `else`, condition true: the second branch is walked over dead, or runs after a stray `break`. */
  lemma {:induction false} SimTrue(sc: Script, head: string, thn: Prog, mid: string, els: Prog, close: string, s: State, inLoop: bool, fuel: nat)
    returns (n: nat)
    requires Live(s, inLoop, 1 + Max(Nesting(thn), Nesting(els))) && sc.env.cond(head, s.store)
    requires Bracketed(sc.lines, s.pc, head, thn, mid) && Bracketed(sc.lines, s.pc + 1 + Len(thn), mid, els, close)
    requires Always(sc.env, head, If) && Always(sc.env, mid, Else) && Always(sc.env, close, Endif)
    requires Ready(sc, thn, s.pc + 1) && Ready(sc, els, s.pc + 1 + Len(thn) + 1)
    ensures var r := Exec(sc.env, true, thn, inLoop, s.store, s.trace, fuel);
      Runs(sc, s, n,
           if r.Done? && r.how.Normal? && r.stray then Then(r, Exec(sc.env, true, els, inLoop, r.store, r.trace, fuel)) else r,
           s.pc + 3 + Len(thn) + Len(els), s.stack, fuel)
    decreases fuel, Max(Len(thn), Len(els)), 4
  {
    hide Next, Steps, Exec, Located, Tabled, Sound, Runs, Nesting, HasLoop;
    var m := s.pc + 1 + Len(thn);
    var q := m + 1 + Len(els);
    IfStep(sc, s);
    var f := IfTrue(EndOf(sc, s.pc));
    var start := s.(stack := s.stack + [f], pc := s.pc + 1);
    LiveOpen(s, inLoop, Nesting(thn), f);
    var n1 := Sim(sc, thn, start, inLoop, fuel);
    var r := Exec(sc.env, true, thn, inLoop, s.store, s.trace, fuel);
    if r.Done? && r.how.Normal? && r.stray {
      var r2 := Exec(sc.env, true, els, inLoop, r.store, r.trace, fuel);
      var n2 := AfterStray(sc, mid, els, close, m, r.store, r.trace, fuel);
      StrayEnds(sc, start, n1, r, m, s.stack + [f], s.stack, fuel);
      RunsThen(sc, start, n1, r, n2, r2, m, q + 1, s.stack, fuel);
      RunsLater(sc, s, 1, start, n1 + n2, Then(r, r2), q + 1, s.stack, fuel);
      return 1 + (n1 + n2);
    }
    var k := 0;
    if r.Done? {
      k := ElseSkipped(sc, At(s.stack, m, r.store, r.trace), EndOf(sc, s.pc), m, mid, els, close);
    }
    IfBody(sc, start, n1, r, m, s.stack, f, fuel, k, q + 1);
    n := if r.Done? && r.how.Normal? then n1 + k else n1;
    RunsLater(sc, s, 1, start, n, r, q + 1, s.stack, fuel);
    n := 1 + n;
  }

  /** After a stray `break` it does not matter which frames there were. */
  lemma StrayEnds(sc: Script, s: State, n: nat, r: Result, p: int, stack: seq<Frame>, other: seq<Frame>, fuel: nat)
    requires r.Done? && r.how.Normal? && r.stray && Runs(sc, s, n, r, p, stack, fuel)
    ensures Runs(sc, s, n, r, p, other, fuel)
  {
  }

  /** Up to the second branch when the condition is false: `if`, the dead first branch, `else`. */
  lemma ThenSkipped(sc: Script, head: string, thn: Prog, mid: string, s: State) returns (n: nat)
    requires !Skipping(s.stack) && s.exited.None? && s.pc >= 0 && |s.stack| + 1 + Nesting(thn) <= NEST_MAX
    requires Bracketed(sc.lines, s.pc, head, thn, mid) && !sc.env.cond(head, s.store)
    requires Always(sc.env, head, If) && Always(sc.env, mid, Else) && Sound(sc.env, thn)
    ensures Steps(sc, n, s) == s.(stack := s.stack + [IfElseT(EndOf(sc, s.pc))], pc := s.pc + 2 + Len(thn))
  {
    hide Next, Steps, Located, Sound;
    var e := EndOf(sc, s.pc);
    var m := s.pc + 1 + Len(thn);
    IfStep(sc, s);
    var dead := s.(stack := s.stack + [IfFalse(e)], pc := s.pc + 1);
    var n1 := SkipOver(sc, thn, dead);
    ElseStep(sc, s.stack, IfFalse(e), m, s.store, s.trace);
    StepsAdd(sc, n1, 1, dead);
    StepsAdd(sc, 1, n1 + 1, s);
    n := 1 + (n1 + 1);
  }

  /** `if` with `else`, condition false: the first branch is walked over dead. */
  lemma {:induction false} SimFalse(sc: Script, head: string, thn: Prog, mid: string, els: Prog, close: string, s: State, inLoop: bool, fuel: nat)
    returns (n: nat)
    requires Live(s, inLoop, 1 + Max(Nesting(thn), Nesting(els))) && !sc.env.cond(head, s.store)
    requires Bracketed(sc.lines, s.pc, head, thn, mid) && Bracketed(sc.lines, s.pc + 1 + Len(thn), mid, els, close)
    requires Always(sc.env, head, If) && Always(sc.env, mid, Else) && Always(sc.env, close, Endif)
    requires Ready(sc, els, s.pc + 1 + Len(thn) + 1) && Sound(sc.env, thn)
    ensures Runs(sc, s, n, Exec(sc.env, true, els, inLoop, s.store, s.trace, fuel), s.pc + 3 + Len(thn) + Len(els), s.stack, fuel)
    decreases fuel, Max(Len(thn), Len(els)), 4
  {
    hide Next, Steps, Exec, Located, Tabled, Sound, Runs, Nesting, HasLoop;
    var q := s.pc + 1 + Len(thn) + 1 + Len(els);
    var n1 := ThenSkipped(sc, head, thn, mid, s);
    var f := IfElseT(EndOf(sc, s.pc));
    var start := s.(stack := s.stack + [f], pc := s.pc + 1 + Len(thn) + 1);
    LiveOpen(s, inLoop, Nesting(els), f);
    var n2 := Sim(sc, els, start, inLoop, fuel);
    var r := Exec(sc.env, true, els, inLoop, s.store, s.trace, fuel);
    if r.Done? { EndifStep(sc, s.stack, f, q, r.store, r.trace, r.stray); }
    IfBody(sc, start, n2, r, q, s.stack, f, fuel, 1, q + 1);
    n := if r.Done? && r.how.Normal? then n2 + 1 else n2;
    RunsLater(sc, s, n1, start, n, r, q + 1, s.stack, fuel);
    n := n1 + n;
  }

  // ----- loops -----

  /** A loop body's result seen from its `end` line; `break` leaves past it. */
  lemma LoopBody(sc: Script, at: State, n: nat, r: Result, stack: seq<Frame>, f: Frame, fuel: nat)
    requires LiveLoop(f) && Runs(sc, at, n, r, f.end, stack + [f], fuel)
    ensures r.Done? && !r.stray && (r.how.Normal? || r.how.Continued?) ==>
      Steps(sc, n, at) == At(stack + [f], f.end, r.store, r.trace)
    ensures r.Done? && r.how.Broke? ==> Steps(sc, n, at) == At(stack, f.end + 1, r.store, r.trace)
  {
    hide Next, Steps;
    assert Pop(stack + [f]) == stack;
  }

  lemma WhileStep(sc: Script, s: State)
    requires !Halted(sc, s) && !Skipping(s.stack) && |s.stack| < NEST_MAX
    requires sc.env.word(sc.lines[s.pc], s.store).While?
    ensures var e := EndOf(sc, s.pc);
      var head := sc.lines[s.pc];
      Steps(sc, 1, s) == s.(pc := s.pc + 1,
        stack := s.stack + [if sc.env.cond(head, s.store) then WhileLive(s.pc + 1, e, head) else WhileSkip(e)])
  {
  }

  /** `end` of a `while`: back to the body, or out. */
  lemma WhileEndStep(sc: Script, stack: seq<Frame>, f: Frame, q: int, st: Store, tr: seq<Event>)
    requires 0 <= q < |sc.lines| && sc.env.word(sc.lines[q], st).End? && f.WhileLive?
    ensures Steps(sc, 1, At(stack + [f], q, st, tr))
         == if sc.env.cond(f.cond, st) then At(stack + [f], f.body, st, tr) else At(stack, q + 1, st, tr)
  {
    assert Pop(stack + [f]) == stack;
  }

  /** What a loop needs to know of its lines, whichever kind it is. */
  ghost predicate LoopReady(sc: Script, head: string, body: Prog, close: string, p: nat, k: Kind) {
    && !k.KIf? && Bracketed(sc.lines, p, head, body, close) && EndOf(sc, p) == p + 1 + Len(body)
    && Always(sc.env, head, OpenWord(k)) && Always(sc.env, close, CloseWord(k)) && Ready(sc, body, p + 1)
  }

  /** The turns of a `while` whose condition held, from the first line of its body. */
  lemma {:induction false} SimTurns(sc: Script, head: string, body: Prog, close: string, s: State, inLoop: bool,
                                    st: Store, tr: seq<Event>, fuel: nat)
    returns (n: nat)
    requires Live(s, inLoop, 1 + Nesting(body)) && LoopReady(sc, head, body, close, s.pc, KWhile)
    ensures Runs(sc, At(s.stack + [WhileLive(s.pc + 1, EndOf(sc, s.pc), head)], s.pc + 1, st, tr), n,
                 ExecWhile(sc.env, true, head, body, st, tr, fuel), s.pc + 2 + Len(body), s.stack, fuel)
    decreases fuel, Len(body), 3
  {
    hide Next, Steps, Exec, Located, Tabled, Sound;
    var q := s.pc + 1 + Len(body);
    var f := WhileLive(s.pc + 1, q, head);
    var start := At(s.stack + [f], s.pc + 1, st, tr);
    if fuel == 0 {
      NoStep(sc, start);
      return 0;
    }
    LiveOpen(s, inLoop, Nesting(body), f);
    var n1 := Sim(sc, body, start, true, fuel);
    var r := Exec(sc.env, true, body, true, st, tr, fuel);
    LoopBody(sc, start, n1, r, s.stack, f, fuel);
    if r.Timeout? || r.how.Exited? || r.how.Broke? { return n1; }
    WhileEndStep(sc, s.stack, f, q, r.store, r.trace);
    StepsAdd(sc, n1, 1, start);
    if !sc.env.cond(head, r.store) { return n1 + 1; }
    var again := At(s.stack + [f], s.pc + 1, r.store, r.trace);
    var n2 := SimTurns(sc, head, body, close, s, inLoop, r.store, r.trace, fuel - 1);
    RunsLater(sc, start, n1 + 1, again, n2, ExecWhile(sc.env, true, head, body, r.store, r.trace, fuel - 1), q + 1, s.stack, fuel - 1);
    n := n1 + 1 + n2;
  }

  lemma {:induction false} SimWhile(sc: Script, head: string, body: Prog, close: string, s: State, inLoop: bool, fuel: nat) returns (n: nat)
    requires Live(s, inLoop, 1 + Nesting(body)) && LoopReady(sc, head, body, close, s.pc, KWhile)
    ensures Runs(sc, s, n, if sc.env.cond(head, s.store) then ExecWhile(sc.env, true, head, body, s.store, s.trace, fuel)
                           else Done(Normal, s.store, s.trace, false), s.pc + 2 + Len(body), s.stack, fuel)
    decreases fuel, Len(body), 4
  {
    hide Next, Steps, ExecWhile, Located, Tabled, Sound, Runs;
    var q := s.pc + 1 + Len(body);
    WhileStep(sc, s);
    if sc.env.cond(head, s.store) {
      n := SimTurns(sc, head, body, close, s, inLoop, s.store, s.trace, fuel);
      RunsLater(sc, s, 1, At(s.stack + [WhileLive(s.pc + 1, q, head)], s.pc + 1, s.store, s.trace), n,
                ExecWhile(sc.env, true, head, body, s.store, s.trace, fuel), q + 1, s.stack, fuel);
      n := 1 + n;
    } else {
      n := SimEmpty(sc, body, s, WhileSkip(q), fuel);
    }
  }

  lemma ForeachStep(sc: Script, s: State)
    requires !Halted(sc, s) && !Skipping(s.stack) && |s.stack| < NEST_MAX
    requires sc.env.word(sc.lines[s.pc], s.store).Foreach?
    requires sc.env.head(sc.lines[s.pc], s.store).Items?
    ensures var e := EndOf(sc, s.pc);
      var h := sc.env.head(sc.lines[s.pc], s.store);
      Steps(sc, 1, s) ==
        if h.items == [] then s.(pc := s.pc + 1, stack := s.stack + [ForeachSkip(e)])
        else s.(pc := s.pc + 1, stack := s.stack + [ForeachLive(s.pc + 1, e, 0, h.items, h.name)],
                store := VarSet(s.store, h.name, h.items[0]))
  {
    hide VarSet;
  }

  /** `end` of a `foreach`: the next item, or out. */
  lemma ForeachEndStep(sc: Script, stack: seq<Frame>, f: Frame, q: int, st: Store, tr: seq<Event>)
    requires 0 <= q < |sc.lines| && sc.env.word(sc.lines[q], st).End? && f.ForeachLive? && 0 <= f.cur < |f.items|
    ensures Steps(sc, 1, At(stack + [f], q, st, tr))
         == if f.cur + 1 < |f.items|
            then At(stack + [f.(cur := f.cur + 1)], f.body, VarSet(st, f.name, f.items[f.cur + 1]), tr)
            else At(stack, q + 1, st, tr)
  {
    hide VarSet;
    assert Pop(stack + [f]) == stack;
  }

  /** The items from `cur` on, from the first line of the body. */
  lemma {:induction false} SimItems(sc: Script, head: string, body: Prog, close: string, s: State, inLoop: bool,
                                    name: string, items: seq<string>, cur: nat, st: Store, tr: seq<Event>, fuel: nat)
    returns (n: nat)
    requires Live(s, inLoop, 1 + Nesting(body)) && LoopReady(sc, head, body, close, s.pc, KForeach) && cur < |items|
    ensures Runs(sc, At(s.stack + [ForeachLive(s.pc + 1, EndOf(sc, s.pc), cur, items, name)], s.pc + 1, VarSet(st, name, items[cur]), tr),
                 n, ExecItems(sc.env, true, name, items[cur..], body, st, tr, fuel), s.pc + 2 + Len(body), s.stack, fuel)
    decreases fuel, Len(body), 3, |items| - cur
  {
    hide Next, Steps, Exec, Located, Tabled, Sound, VarSet, Nesting;
    var q := s.pc + 1 + Len(body);
    var f := ForeachLive(s.pc + 1, q, cur, items, name);
    var start := At(s.stack + [f], s.pc + 1, VarSet(st, name, items[cur]), tr);
    LiveOpen(s, inLoop, Nesting(body), f);
    var n1 := Sim(sc, body, start, true, fuel);
    var r := Exec(sc.env, true, body, true, VarSet(st, name, items[cur]), tr, fuel);
    LoopBody(sc, start, n1, r, s.stack, f, fuel);
    assert items[cur..][1..] == items[cur + 1..];
    if r.Timeout? || r.how.Exited? || r.how.Broke? { return n1; }
    ForeachEndStep(sc, s.stack, f, q, r.store, r.trace);
    StepsAdd(sc, n1, 1, start);
    if cur + 1 == |items| { return n1 + 1; }
    var n2 := SimItems(sc, head, body, close, s, inLoop, name, items, cur + 1, r.store, r.trace, fuel);
    RunsLater(sc, start, n1 + 1, Steps(sc, n1 + 1, start), n2,
              ExecItems(sc.env, true, name, items[cur + 1..], body, r.store, r.trace, fuel), q + 1, s.stack, fuel);
    n := n1 + 1 + n2;
  }

  lemma {:induction false} SimForeach(sc: Script, head: string, body: Prog, close: string, s: State, inLoop: bool, fuel: nat) returns (n: nat)
    requires Live(s, inLoop, 1 + Nesting(body)) && LoopReady(sc, head, body, close, s.pc, KForeach)
    requires sc.env.head(head, s.store).Items?
    ensures var h := sc.env.head(head, s.store);
      Runs(sc, s, n, ExecItems(sc.env, true, h.name, h.items, body, s.store, s.trace, fuel), s.pc + 2 + Len(body), s.stack, fuel)
    decreases fuel, Len(body), 4
  {
    hide Next, Steps, Located, Tabled, Sound, Runs, VarSet, Nesting;
    var q := s.pc + 1 + Len(body);
    var h := sc.env.head(head, s.store);
    ForeachStep(sc, s);
    if h.items == [] {
      n := SimEmpty(sc, body, s, ForeachSkip(q), fuel);
    } else {
      assert h.items[0..] == h.items;
      n := SimItems(sc, head, body, close, s, inLoop, h.name, h.items, 0, s.store, s.trace, fuel);
      RunsLater(sc, s, 1, Steps(sc, 1, s), n,
                ExecItems(sc.env, true, h.name, h.items, body, s.store, s.trace, fuel), q + 1, s.stack, fuel);
      n := 1 + n;
    }
  }

  // ----- statement lists -----

  lemma LiveLine(s: State, inLoop: bool, room: nat)
    requires Live(s, inLoop, room)
    ensures s.pc >= 0
  {
  }

  /** What the lines of a block say about its parts. */
  lemma BlockParts(sc: Script, b: Prog, p: nat)
    requires b.Block? && ReadyFirst(sc, b, p)
    ensures Len(b.body) < Len(b) && First(b) == 2 + Len(b.body) && NestingFirst(b) == 1 + Nesting(b.body)
    ensures Bracketed(sc.lines, p, b.head, b.body, b.close) && Ready(sc, b.body, p + 1)
    ensures Always(sc.env, b.head, OpenWord(b.kind)) && Always(sc.env, b.close, CloseWord(b.kind))
    ensures b.kind.KIf? ==> Always(sc.env, b.head, If) && Always(sc.env, b.close, Endif)
    ensures b.kind.KForeach? ==> forall st :: sc.env.head(b.head, st).Items?
    ensures EndOf(sc, p) == p + 1 + Len(b.body)
  {
    hide Nesting, Located, Tabled, Sound;
    assert Len(b) == First(b) + Len(b.next);
  }

  lemma LoopParts(sc: Script, b: Prog, p: nat)
    requires b.Block? && !b.kind.KIf? && ReadyFirst(sc, b, p)
    ensures LoopReady(sc, b.head, b.body, b.close, p, b.kind)
  {
    hide ReadyFirst, Bracketed, Ready, Always, Len;
    BlockParts(sc, b, p);
  }

  lemma {:induction false} SimLoop(sc: Script, b: Prog, s: State, inLoop: bool, fuel: nat) returns (n: nat)
    requires b.Block? && !b.kind.KIf? && Live(s, inLoop, 1 + Nesting(b.body))
    requires LoopReady(sc, b.head, b.body, b.close, s.pc, b.kind)
    requires b.kind.KForeach? ==> sc.env.head(b.head, s.store).Items?
    ensures Runs(sc, s, n, ExecFirst(sc.env, true, b, inLoop, s.store, s.trace, fuel), s.pc + 2 + Len(b.body), s.stack, fuel)
    decreases fuel, Len(b.body), 5
  {
    hide Next, Steps, Runs, Nesting, ExecWhile, ExecItems, LoopReady, Live;
    if b.kind.KWhile? {
      n := SimWhile(sc, b.head, b.body, b.close, s, inLoop, fuel);
    } else {
      n := SimForeach(sc, b.head, b.body, b.close, s, inLoop, fuel);
    }
  }

  lemma IfMeans(env: Env, b: Prog, inLoop: bool, st: Store, tr: seq<Event>, fuel: nat)
    requires b.Block? && b.kind.KIf?
    ensures ExecFirst(env, true, b, inLoop, st, tr, fuel)
         == if env.cond(b.head, st) then Exec(env, true, b.body, inLoop, st, tr, fuel) else Done(Normal, st, tr, false)
  {
    hide Exec;
  }

  lemma IfElseMeans(env: Env, b: Prog, inLoop: bool, st: Store, tr: seq<Event>, fuel: nat)
    requires b.IfElse?
    ensures var r := Exec(env, true, b.thn, inLoop, st, tr, fuel);
      ExecFirst(env, true, b, inLoop, st, tr, fuel)
      == if !env.cond(b.head, st) then Exec(env, true, b.els, inLoop, st, tr, fuel)
         else if r.Done? && r.how.Normal? && r.stray then Then(r, Exec(env, true, b.els, inLoop, r.store, r.trace, fuel))
         else r
  {
    hide Exec;
  }

  lemma {:induction false} SimBlock(sc: Script, b: Prog, s: State, inLoop: bool, fuel: nat) returns (n: nat)
    requires b.Block? && Live(s, inLoop, NestingFirst(b)) && ReadyFirst(sc, b, s.pc)
    ensures Runs(sc, s, n, ExecFirst(sc.env, true, b, inLoop, s.store, s.trace, fuel), s.pc + First(b), s.stack, fuel)
    decreases fuel, Len(b), 0
  {
    hide *;
    LiveLine(s, inLoop, NestingFirst(b));
    BlockParts(sc, b, s.pc);
    if b.kind.KIf? {
      IfMeans(sc.env, b, inLoop, s.store, s.trace, fuel);
      n := SimIf(sc, b.head, b.body, b.close, s, inLoop, fuel);
    } else {
      LoopParts(sc, b, s.pc);
      n := SimLoop(sc, b, s, inLoop, fuel);
    }
  }

  lemma BranchParts(sc: Script, b: Prog, p: nat)
    requires b.IfElse? && ReadyFirst(sc, b, p)
    ensures Max(Len(b.thn), Len(b.els)) < Len(b) && First(b) == 3 + Len(b.thn) + Len(b.els)
    ensures NestingFirst(b) == 1 + Max(Nesting(b.thn), Nesting(b.els))
    ensures Bracketed(sc.lines, p, b.head, b.thn, b.mid) && Bracketed(sc.lines, p + 1 + Len(b.thn), b.mid, b.els, b.close)
    ensures Always(sc.env, b.head, If) && Always(sc.env, b.mid, Else) && Always(sc.env, b.close, Endif)
    ensures Ready(sc, b.thn, p + 1) && Ready(sc, b.els, p + 1 + Len(b.thn) + 1) && Sound(sc.env, b.thn)
  {
    hide Nesting, Located, Tabled, Sound;
    assert Len(b) == First(b) + Len(b.next);
  }

  lemma {:induction false} SimIfElse(sc: Script, b: Prog, s: State, inLoop: bool, fuel: nat) returns (n: nat)
    requires b.IfElse? && Live(s, inLoop, NestingFirst(b)) && ReadyFirst(sc, b, s.pc)
    ensures Runs(sc, s, n, ExecFirst(sc.env, true, b, inLoop, s.store, s.trace, fuel), s.pc + First(b), s.stack, fuel)
    decreases fuel, Len(b), 0
  {
    hide *;
    LiveLine(s, inLoop, NestingFirst(b));
    BranchParts(sc, b, s.pc);
    IfElseMeans(sc.env, b, inLoop, s.store, s.trace, fuel);
    if sc.env.cond(b.head, s.store) {
      n := SimTrue(sc, b.head, b.thn, b.mid, b.els, b.close, s, inLoop, fuel);
    } else {
      n := SimFalse(sc, b.head, b.thn, b.mid, b.els, b.close, s, inLoop, fuel);
    }
  }

  lemma {:induction false} SimFirst(sc: Script, b: Prog, s: State, inLoop: bool, fuel: nat) returns (n: nat)
    requires !b.Skip? && Live(s, inLoop, NestingFirst(b)) && ReadyFirst(sc, b, s.pc)
    ensures Runs(sc, s, n, ExecFirst(sc.env, true, b, inLoop, s.store, s.trace, fuel), s.pc + First(b), s.stack, fuel)
    decreases fuel, Len(b), 1
  {
    hide Next, Steps, Runs, ReadyFirst, Exec, ExecWhile, ExecItems;
    match b
    case Leaf(_, _) => SimLeaf(sc, b, s, inLoop, fuel); n := 1;
    case Block(_, _, _, _, _) => n := SimBlock(sc, b, s, inLoop, fuel);
    case IfElse(_, _, _, _, _, _) => n := SimIfElse(sc, b, s, inLoop, fuel);
  }

  /** The machine, started on the lines of b with a live stack, brings about csh's meaning of b. */
  lemma {:induction false} Sim(sc: Script, b: Prog, s: State, inLoop: bool, fuel: nat) returns (n: nat)
    requires Live(s, inLoop, Nesting(b)) && Ready(sc, b, s.pc)
    ensures Runs(sc, s, n, Exec(sc.env, true, b, inLoop, s.store, s.trace, fuel), s.pc + Len(b), s.stack, fuel)
    decreases fuel, Len(b), 2
  {
    hide Next, Steps, ExecFirst, NestingFirst, First, LocatedFirst, TabledFirst, SoundFirst, Runs;
    if b.Skip? {
      RunsStart(sc, s, Done(Normal, s.store, s.trace, false), fuel);
      return 0;
    }
    var n1 := SimFirst(sc, b, s, inLoop, fuel);
    var r := ExecFirst(sc.env, true, b, inLoop, s.store, s.trace, fuel);
    var p := s.pc + First(b);
    if r.Timeout? || !r.how.Normal? {
      RunsAbrupt(sc, s, n1, r, p, s.pc + Len(b), s.stack, fuel);
      return n1;
    }
    var next := At(Left(r.stray, s.stack), p, r.store, r.trace);
    LiveLeft(s, inLoop, Nesting(b.next), r, p);
    var n2 := Sim(sc, b.next, next, inLoop, fuel);
    RunsThen(sc, s, n1, r, n2, Exec(sc.env, true, b.next, inLoop, r.store, r.trace, fuel), p, s.pc + Len(b), s.stack, fuel);
    n := n1 + n2;
  }

  lemma LiveLeft(s: State, inLoop: bool, room: nat, r: Result, p: nat)
    requires Live(s, inLoop, room) && r.Done? && (inLoop ==> !r.stray)
    ensures Live(At(Left(r.stray, s.stack), p, r.store, r.trace), inLoop, room)
  {
  }
}
