/** Dead code of a csh script: a machine that skips walks over a statement
    list and changes nothing but the line. */
module CshSkip {
  import opened Options
  import opened CshMachine
  import opened CshStructured

  // ----- running pieces one after the other -----

  lemma NoStep(sc: Script, s: State)
    ensures Steps(sc, 0, s) == s
  {
  }

  function At(stack: seq<Frame>, pc: int, st: Store, tr: seq<Event>): State {
    State(pc, stack, st, tr, None)
  }

  /** A block entered in one step with frame f, walked to line q, and left there in one step. */
  lemma BracketSteps(sc: Script, s: State, f: Frame, inner: nat, q: int)
    requires Steps(sc, 1, s) == s.(stack := s.stack + [f], pc := s.pc + 1)
    requires Steps(sc, inner, s.(stack := s.stack + [f], pc := s.pc + 1)) == s.(stack := s.stack + [f], pc := q)
    requires Steps(sc, 1, s.(stack := s.stack + [f], pc := q)) == s.(pc := q + 1)
    ensures Steps(sc, 1 + inner + 1, s) == s.(pc := q + 1)
  {
    hide Next, Steps;
    StepsAdd(sc, 1, inner, s);
    StepsAdd(sc, 1 + inner, 1, s);
  }

  // ----- single dead steps -----

  function SkipFrame(k: Kind, end: int): Frame {
    match k case KIf => IfSkip(end) case KWhile => WhileSkip(end) case KForeach => ForeachSkip(end)
  }

  predicate DeadTop(stack: seq<Frame>) { stack != [] && Dead(Top(stack)) }

  lemma DeadOpen(sc: Script, s: State, k: Kind)
    requires !Halted(sc, s) && DeadTop(s.stack) && |s.stack| < NEST_MAX
    requires sc.env.word(sc.lines[s.pc], s.store) == OpenWord(k)
    ensures Steps(sc, 1, s) == s.(stack := s.stack + [SkipFrame(k, EndOf(sc, s.pc))], pc := s.pc + 1)
  {
    assert Skipping(s.stack);
  }

  /** Closing a dead block pops its frame. */
  lemma DeadClose(sc: Script, s: State, f: Frame, q: int)
    requires Dead(f) && s.exited.None? && 0 <= q < |sc.lines|
    requires sc.env.word(sc.lines[q], s.store) in {Endif, End}
    ensures Steps(sc, 1, s.(stack := s.stack + [f], pc := q)) == s.(pc := q + 1)
  {
    assert Pop(s.stack + [f]) == s.stack;
  }

  lemma DeadSimple(sc: Script, s: State)
    requires !Halted(sc, s) && DeadTop(s.stack)
    requires Simple(sc.env.word(sc.lines[s.pc], s.store))
    ensures Steps(sc, 1, s) == s.(pc := s.pc + 1)
  {
    assert Skipping(s.stack);
  }

  /** `else` leaves a skipped `if` skipped. */
  lemma DeadElse(sc: Script, s: State)
    requires !Halted(sc, s) && s.stack != [] && Top(s.stack).IfSkip?
    requires sc.env.word(sc.lines[s.pc], s.store).Else?
    ensures Steps(sc, 1, s) == s.(pc := s.pc + 1)
  {
    assert Pop(s.stack) + [Top(s.stack)] == s.stack;
  }

  // ----- dead statement lists -----

  ghost predicate Skips(sc: Script, s: State, room: nat) {
    s.pc >= 0 && s.exited.None? && DeadTop(s.stack) && |s.stack| + room <= NEST_MAX
  }

  /** A dead block, from its opening line to the line after its end. */
  lemma {:induction false} SkipBlock(sc: Script, k: Kind, head: string, body: Prog, close: string, s: State)
    returns (n: nat)
    requires Skips(sc, s, 1 + Nesting(body)) && Bracketed(sc.lines, s.pc, head, body, close)
    requires Always(sc.env, head, OpenWord(k)) && Always(sc.env, close, CloseWord(k)) && Sound(sc.env, body)
    ensures Steps(sc, n, s) == s.(pc := s.pc + 2 + Len(body))
    decreases Len(body), 3
  {
    hide Next, Steps, Located, Sound;
    var f := SkipFrame(k, EndOf(sc, s.pc));
    DeadOpen(sc, s, k);
    var n1 := SkipOver(sc, body, s.(stack := s.stack + [f], pc := s.pc + 1));
    DeadClose(sc, s, f, s.pc + 1 + Len(body));
    BracketSteps(sc, s, f, n1, s.pc + 1 + Len(body));
    n := 1 + n1 + 1;
  }

  /** Both branches of a dead `if`, between its opening and its closing line. */
  lemma {:induction false} SkipBranches(sc: Script, s: State, thn: Prog, mid: string, els: Prog) returns (n: nat)
    requires Skips(sc, s, Max(Nesting(thn), Nesting(els))) && Top(s.stack).IfSkip?
    requires Located(sc.lines, s.pc, thn) && LineAt(sc.lines, s.pc + Len(thn), mid)
    requires Located(sc.lines, s.pc + Len(thn) + 1, els)
    requires Always(sc.env, mid, Else) && Sound(sc.env, thn) && Sound(sc.env, els)
    ensures Steps(sc, n, s) == s.(pc := s.pc + Len(thn) + 1 + Len(els))
    decreases Max(Len(thn), Len(els)), 3
  {
    hide Next, Steps, Located, Sound, Nesting;
    var n1 := SkipOver(sc, thn, s);
    var atMid := s.(pc := s.pc + Len(thn));
    DeadElse(sc, atMid);
    StepsAdd(sc, n1, 1, s);
    var n2 := SkipOver(sc, els, s.(pc := s.pc + Len(thn) + 1));
    StepsAdd(sc, n1 + 1, n2, s);
    n := n1 + 1 + n2;
  }

  lemma {:induction false} SkipIfElse(sc: Script, head: string, thn: Prog, mid: string, els: Prog, close: string, s: State)
    returns (n: nat)
    requires Skips(sc, s, 1 + Max(Nesting(thn), Nesting(els)))
    requires Bracketed(sc.lines, s.pc, head, thn, mid) && Bracketed(sc.lines, s.pc + 1 + Len(thn), mid, els, close)
    requires Always(sc.env, head, If) && Always(sc.env, mid, Else) && Always(sc.env, close, Endif)
    requires Sound(sc.env, thn) && Sound(sc.env, els)
    ensures Steps(sc, n, s) == s.(pc := s.pc + 3 + Len(thn) + Len(els))
    decreases Max(Len(thn), Len(els)), 4
  {
    hide Next, Steps, Located, Sound, Nesting;
    var f := IfSkip(EndOf(sc, s.pc));
    DeadOpen(sc, s, KIf);
    var n1 := SkipBranches(sc, s.(stack := s.stack + [f], pc := s.pc + 1), thn, mid, els);
    var q := s.pc + 2 + Len(thn) + Len(els);
    DeadClose(sc, s, f, q);
    BracketSteps(sc, s, f, n1, q);
    n := 1 + n1 + 1;
  }

  lemma {:induction false} SkipFirst(sc: Script, b: Prog, s: State) returns (n: nat)
    requires !b.Skip? && Skips(sc, s, NestingFirst(b)) && LocatedFirst(sc.lines, s.pc, b) && SoundFirst(sc.env, b)
    ensures Steps(sc, n, s) == s.(pc := s.pc + First(b))
    decreases Len(b), 1
  {
    hide Next, Steps, Bracketed, Sound, Nesting;
    assert Len(b) == First(b) + Len(b.next);
    match b
    case Leaf(text, _) =>
      DeadSimple(sc, s);
      n := 1;
    case Block(k, head, body, close, _) => n := SkipBlock(sc, k, head, body, close, s);
    case IfElse(head, thn, mid, els, close, _) => n := SkipIfElse(sc, head, thn, mid, els, close, s);
  }

  /** A skipping machine walks over a statement list and changes nothing but the line. */
  lemma {:induction false} SkipOver(sc: Script, b: Prog, s: State) returns (n: nat)
    requires Skips(sc, s, Nesting(b)) && Located(sc.lines, s.pc, b) && Sound(sc.env, b)
    ensures Steps(sc, n, s) == s.(pc := s.pc + Len(b))
    decreases Len(b), 2
  {
    hide Next, Steps, LocatedFirst, SoundFirst, NestingFirst, First;
    if b.Skip? {
      NoStep(sc, s);
      n := 0;
    } else {
      var n1 := SkipFirst(sc, b, s);
      var n2 := SkipOver(sc, b.next, s.(pc := s.pc + First(b)));
      StepsAdd(sc, n1, n2, s);
      n := n1 + n2;
    }
  }
}
