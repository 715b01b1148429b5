/** What holds in every state a csh script run can reach: the frame stack
    mirrors the open blocks of the current line, and skipping is decided by
    its top frame. */
module CshInvariant {
  import opened CshMachine
  import opened CshStructured
  import opened CshBlocks
  import opened CshSkip
  import opened CshTheorem

  predicate SkipKind(f: Frame) { f.IfSkip? || f.ForeachSkip? || f.WhileSkip? }

  /** Frame f belongs to the block opened at line o. */
  predicate Fits(sc: Script, ws: seq<Word>, f: Frame, o: nat) {
    && o < |ws| && f.end == EndOf(sc, o)
    && IfFrame(f) == ws[o].If?
    && (LiveLoop(f) ==> f.body == o + 1)
  }

  /** Live frames, then at most one dead frame, then only skip frames. */
  predicate Shape(stack: seq<Frame>) {
    forall j, k :: 0 <= j < k < |stack| && Dead(stack[j]) ==> SkipKind(stack[k])
  }

  ghost predicate Mirrors(sc: Script, ws: seq<Word>, stack: seq<Frame>, open: seq<nat>) {
    |stack| == |open| && forall k :: 0 <= k < |stack| ==> Fits(sc, ws, stack[k], open[k])
  }

  /** Every block of this script fits the machine: the block pass accepted it, both
      passes read its lines alike, it is at most NEST_MAX deep, `foreach` lines carry
      a list, and `break` inside an `if` has a loop around it. */
  ghost predicate Fit(sc: Script) {
    var ws := Words(sc.lines);
    && Balanced(ws) && EndTable(ws, sc.ends) && Agree(sc.env, sc.lines)
    && (forall i :: 0 <= i < |ws| && Opens(ws[i]) ==> Depth(ws, i) < 32)
    && (forall i, st :: 0 <= i < |ws| && ws[i].Foreach? ==> sc.env.head(sc.lines[i], st).Items?)
    && (forall i, st :: 0 <= i < |ws| && sc.env.word(sc.lines[i], st).Break? ==> BreakFits(ws, OpenLines(ws, i)))
  }

  predicate BreakFits(ws: seq<Word>, open: seq<nat>) {
    open == [] || exists k :: 0 <= k < |open| && open[k] < |ws| && !ws[open[k]].If?
  }

  ghost predicate Inv(sc: Script, s: State) {
    var ws := Words(sc.lines);
    && 0 <= s.pc <= |ws|
    && Mirrors(sc, ws, s.stack, OpenLines(ws, s.pc))
    && Shape(s.stack)
  }

  // ----- open lines at the places the machine jumps to -----

  /** Below an open line stand the lines that were open before it. */
  lemma {:induction false} OpenBelow(ws: seq<Word>, i: nat, k: nat)
    requires i <= |ws| && Guarded(ws, i) && k < |OpenLines(ws, i)|
    ensures var o := OpenLines(ws, i)[k]; o < i && Opens(ws[o]) && OpenLines(ws, o) == OpenLines(ws, i)[..k]
  {
    var now, before := OpenLines(ws, i), OpenLines(ws, i - 1);
    if k < |before| && now[k] == before[k] && k < |now| && now[..k] == before[..k] {
      OpenBelow(ws, i - 1, k);
    } else {
      assert Opens(ws[i - 1]) && now == before + [i - 1];
    }
  }

  lemma OpenAfter(ws: seq<Word>, i: nat, k: nat)
    requires i <= |ws| && Guarded(ws, i) && k < |OpenLines(ws, i)|
    ensures var o := OpenLines(ws, i)[k]; o < |ws| && OpenLines(ws, o + 1) == OpenLines(ws, i)[..k + 1]
  {
    OpenBelow(ws, i, k);
  }

  /** At the line that closes block o, and after it. */
  lemma OpenAtEnd(ws: seq<Word>, t: seq<int>, o: nat)
    requires Balanced(ws) && EndTable(ws, t) && o < |ws| && Opens(ws[o])
    ensures 0 <= t[o] < |ws|
    ensures OpenLines(ws, t[o]) == OpenLines(ws, o) + [o] && OpenLines(ws, t[o] + 1) == OpenLines(ws, o)
  {
    hide Depth;
    assert Matches(ws, o, t[o]);
    var e := t[o];
    assert Guarded(ws, e + 1) && Guarded(ws, e);
    TopMatches(ws, e);
    var top := OpenLines(ws, e)[|OpenLines(ws, e)| - 1];
    assert Matches(ws, top, t[top]);
    MatchUnique(ws, top, e, t[top]);
    Apart(ws, t, o, top);
    OpenBelow(ws, e, |OpenLines(ws, e)| - 1);
  }

  // ----- frames -----

  lemma KeepPush(sc: Script, ws: seq<Word>, stack: seq<Frame>, open: seq<nat>, f: Frame, o: nat)
    requires Mirrors(sc, ws, stack, open) && Shape(stack) && Fits(sc, ws, f, o)
    requires Skipping(stack) ==> SkipKind(f)
    ensures Mirrors(sc, ws, stack + [f], open + [o]) && Shape(stack + [f])
  {
  }

  lemma KeepPrefix(sc: Script, ws: seq<Word>, stack: seq<Frame>, open: seq<nat>, k: nat)
    requires Mirrors(sc, ws, stack, open) && Shape(stack) && k <= |stack|
    ensures Mirrors(sc, ws, stack[..k], open[..k]) && Shape(stack[..k])
  {
  }

  lemma KeepTop(sc: Script, ws: seq<Word>, stack: seq<Frame>, open: seq<nat>, f: Frame)
    requires Mirrors(sc, ws, stack, open) && Shape(stack) && stack != []
    requires Fits(sc, ws, f, open[|open| - 1]) && (SkipKind(Top(stack)) ==> SkipKind(f))
    ensures Mirrors(sc, ws, Pop(stack) + [f], open) && Shape(Pop(stack) + [f])
  {
  }

  /** Skipping is decided by the top frame alone. */
  lemma SkippingIsTop(stack: seq<Frame>)
    requires Shape(stack)
    ensures Skipping(stack) == DeadTop(stack)
  {
    if Skipping(stack) {
      var j :| 0 <= j < |stack| && Dead(stack[j]);
      assert j < |stack| - 1 ==> SkipKind(stack[|stack| - 1]);
    }
  }

  // ----- the single steps -----

  /** What the line under the machine says, in terms of the block pass. */
  lemma LineWord(sc: Script, s: State)
    requires Fit(sc) && !Halted(sc, s)
    ensures Words(sc.lines)[s.pc] == BlockPart(sc.env.word(sc.lines[s.pc], s.store))
  {
    hide BlockWord, Balanced, EndTable;
    var i, st := s.pc, s.store;
    assert BlockPart(sc.env.word(sc.lines[i], st)) == BlockWord(sc.lines[i]);
  }

  /** The stack is as high as the line is deep, so an opening line has room. */
  lemma Room(sc: Script, s: State)
    requires Fit(sc) && Inv(sc, s)
    ensures |s.stack| == Depth(Words(sc.lines), s.pc)
    ensures s.pc < |sc.lines| && Opens(Words(sc.lines)[s.pc]) ==> |s.stack| < NEST_MAX
  {
    hide BlockWord, EndTable, Agree;
    var ws := Words(sc.lines);
    assert Guarded(ws, s.pc);
    OpenLinesShape(ws, s.pc);
  }

  lemma OpenStep(ws: seq<Word>, i: nat)
    requires i < |ws|
    ensures Opens(ws[i]) ==> OpenLines(ws, i + 1) == OpenLines(ws, i) + [i]
    ensures !Opens(ws[i]) && !Closes(ws[i]) ==> OpenLines(ws, i + 1) == OpenLines(ws, i)
    ensures Closes(ws[i]) && OpenLines(ws, i) != [] ==> OpenLines(ws, i + 1) == OpenLines(ws, i)[..|OpenLines(ws, i)| - 1]
    ensures Closes(ws[i]) && OpenLines(ws, i) == [] ==> OpenLines(ws, i + 1) == []
  {
  }

  /** A line that opens a block pushes a frame that fits it. */
  lemma KeepOpen(sc: Script, s: State, f: Frame)
    requires Fit(sc) && Inv(sc, s) && !Halted(sc, s) && Opens(Words(sc.lines)[s.pc])
    requires f.end == EndOf(sc, s.pc) && IfFrame(f) == Words(sc.lines)[s.pc].If? && (LiveLoop(f) ==> f.body == s.pc + 1)
    requires Skipping(s.stack) ==> SkipKind(f)
    ensures |s.stack| < NEST_MAX && Inv(sc, s.(stack := s.stack + [f], pc := s.pc + 1))
  {
    hide Fit, OpenLines, BlockWord, Shape, Mirrors;
    Room(sc, s);
    OpenStep(Words(sc.lines), s.pc);
    KeepPush(sc, Words(sc.lines), s.stack, OpenLines(Words(sc.lines), s.pc), f, s.pc);
  }

  lemma KeepIf(sc: Script, s: State)
    requires Fit(sc) && Inv(sc, s) && !Halted(sc, s) && Words(sc.lines)[s.pc].If?
    ensures Inv(sc, NextIf(sc, s))
  {
    hide Fit, Inv, Words;
    var e := EndOf(sc, s.pc);
    var f := if Skipping(s.stack) then IfSkip(e)
             else if sc.env.cond(sc.lines[s.pc], s.store) then IfTrue(e) else IfFalse(e);
    KeepOpen(sc, s, f);
  }

  lemma KeepWhile(sc: Script, s: State)
    requires Fit(sc) && Inv(sc, s) && !Halted(sc, s) && Words(sc.lines)[s.pc].While?
    ensures Inv(sc, NextWhile(sc, s))
  {
    hide Fit, Inv, Words;
    var e := EndOf(sc, s.pc);
    var f := if Skipping(s.stack) || !sc.env.cond(sc.lines[s.pc], s.store) then WhileSkip(e)
             else WhileLive(s.pc + 1, e, sc.lines[s.pc]);
    KeepOpen(sc, s, f);
  }

  lemma KeepForeach(sc: Script, s: State)
    requires Fit(sc) && Inv(sc, s) && !Halted(sc, s) && Words(sc.lines)[s.pc].Foreach?
    ensures Inv(sc, NextForeach(sc, s))
  {
    hide Inv, BlockWord, Balanced, EndTable, Agree, VarSet;
    var e := EndOf(sc, s.pc);
    var h := sc.env.head(sc.lines[s.pc], s.store);
    assert h.Items?;
    var f := if Skipping(s.stack) || h.items == [] then ForeachSkip(e) else ForeachLive(s.pc + 1, e, 0, h.items, h.name);
    KeepOpen(sc, s, f);
    InvStack(sc, s.(stack := s.stack + [f], pc := s.pc + 1), NextForeach(sc, s));
  }

  lemma InvStack(sc: Script, s: State, t: State)
    requires Inv(sc, s) && t.stack == s.stack && t.pc == s.pc
    ensures Inv(sc, t)
  {
  }

  /** Popping the top frame at a closing line. */
  lemma KeepClose(sc: Script, s: State)
    requires Inv(sc, s) && !Halted(sc, s) && Closes(Words(sc.lines)[s.pc])
    ensures Inv(sc, s.(stack := if s.stack == [] then [] else Pop(s.stack), pc := s.pc + 1))
  {
    hide OpenLines, BlockWord;
    OpenStep(Words(sc.lines), s.pc);
    if s.stack != [] {
      KeepPrefix(sc, Words(sc.lines), s.stack, OpenLines(Words(sc.lines), s.pc), |s.stack| - 1);
    }
  }

  lemma KeepElse(sc: Script, s: State)
    requires Inv(sc, s) && !Halted(sc, s) && Words(sc.lines)[s.pc].Else?
    ensures Inv(sc, NextElse(s))
  {
    hide OpenLines, BlockWord, EndOf;
    var ws := Words(sc.lines);
    OpenStep(ws, s.pc);
    if s.stack != [] {
      var open := OpenLines(ws, s.pc);
      var top := Top(s.stack);
      assert Fits(sc, ws, s.stack[|s.stack| - 1], open[|s.stack| - 1]);
      var f := if top.IfTrue? then IfElseF(top.end) else if top.IfFalse? then IfElseT(top.end) else top;
      KeepTop(sc, ws, s.stack, open, f);
    }
  }

  /** The body line of a live top frame is the line after its opening line. */
  lemma BodyLine(sc: Script, s: State)
    requires Fit(sc) && Inv(sc, s) && s.stack != [] && LiveLoop(Top(s.stack))
    ensures var ws := Words(sc.lines);
      0 <= Top(s.stack).body <= |ws| && OpenLines(ws, Top(s.stack).body) == OpenLines(ws, s.pc)
  {
    hide BlockWord, EndTable, Agree, Depth;
    var ws := Words(sc.lines);
    var open := OpenLines(ws, s.pc);
    var k := |s.stack| - 1;
    assert Fits(sc, ws, s.stack[k], open[k]);
    assert Guarded(ws, s.pc);
    OpenAfter(ws, s.pc, k);
    assert open[..k + 1] == open;
  }

  /** Back to the body of the live loop on top, whose frame may move to its next item. */
  lemma KeepTurn(sc: Script, s: State, f: Frame)
    requires Fit(sc) && Inv(sc, s) && s.stack != [] && LiveLoop(Top(s.stack))
    requires f == Top(s.stack) || (f.ForeachLive? && Top(s.stack).ForeachLive? && f == Top(s.stack).(cur := f.cur))
    ensures Inv(sc, s.(stack := Pop(s.stack) + [f], pc := f.body))
  {
    hide Fit, OpenLines, BlockWord, EndOf, Shape;
    BodyLine(sc, s);
    var ws := Words(sc.lines);
    var open := OpenLines(ws, s.pc);
    assert Fits(sc, ws, s.stack[|s.stack| - 1], open[|s.stack| - 1]);
    KeepTop(sc, ws, s.stack, open, f);
  }

  lemma KeepEnd(sc: Script, s: State)
    requires Fit(sc) && Inv(sc, s) && !Halted(sc, s) && Words(sc.lines)[s.pc].End?
    ensures Inv(sc, NextEnd(sc, s))
  {
    hide Fit, Inv, Words, VarSet;
    KeepClose(sc, s);
    if s.stack != [] {
      var top := Top(s.stack);
      if top.ForeachLive? && 0 <= top.cur + 1 < |top.items| {
        var f := top.(cur := top.cur + 1);
        KeepTurn(sc, s, f);
        InvStack(sc, s.(stack := Pop(s.stack) + [f], pc := f.body), NextEnd(sc, s));
      } else if top.WhileLive? {
        KeepTurn(sc, s, top);
        assert Pop(s.stack) + [top] == s.stack;
      }
    }
  }

  /** Leaving the block of frame k: to its closing line with the frame, or past it without. */
  lemma JumpOut(sc: Script, s: State, k: nat)
    requires Fit(sc) && Inv(sc, s) && k < |s.stack|
    ensures Inv(sc, s.(stack := s.stack[..k], pc := s.stack[k].end + 1))
    ensures Inv(sc, s.(stack := s.stack[..k + 1], pc := s.stack[k].end))
  {
    hide BlockWord, Agree, Depth, Matches, OpenLines, Shape;
    var ws := Words(sc.lines);
    var open := OpenLines(ws, s.pc);
    var o := open[k];
    assert Fits(sc, ws, s.stack[k], o);
    assert Guarded(ws, s.pc) by { assert Guarded(ws, |ws|); }
    OpenBelow(ws, s.pc, k);
    OpenAtEnd(ws, sc.ends, o);
    assert open[..k + 1] == open[..k] + [o];
    KeepPrefix(sc, ws, s.stack, open, k);
    KeepPrefix(sc, ws, s.stack, open, k + 1);
  }

  /** `break` on a live stack with a loop lands past the innermost loop. */
  lemma {:induction false} BreakLands(stack: seq<Frame>, pc: int) returns (k: nat)
    requires !Skipping(stack) && exists i :: 0 <= i < |stack| && LiveLoop(stack[i])
    ensures k < |stack| && LiveLoop(stack[k]) && BreakTo(stack, pc) == (stack[..k], stack[k].end + 1)
  {
    var i :| 0 <= i < |stack| && LiveLoop(stack[i]);
    if LiveLoop(Top(stack)) {
      k := |stack| - 1;
    } else {
      assert Pop(stack)[i] == stack[i];
      k := BreakLands(Pop(stack), pc);
      assert Pop(stack)[..k] == stack[..k];
    }
  }

  lemma {:induction false} ContinueLands(stack: seq<Frame>, whole: seq<Frame>, pc: int) returns (k: int)
    ensures -1 <= k < |stack|
    ensures if k < 0 then ContinueTo(stack, whole, pc) == (whole, pc + 1)
            else LiveLoop(stack[k]) && ContinueTo(stack, whole, pc) == (stack[..k + 1], stack[k].end)
  {
    if stack == [] {
      k := -1;
    } else if LiveLoop(Top(stack)) {
      k := |stack| - 1;
      assert stack[..k + 1] == stack;
    } else {
      k := ContinueLands(Pop(stack), whole, pc);
      assert k >= 0 ==> Pop(stack)[..k + 1] == stack[..k + 1];
    }
  }

  lemma KeepForward(sc: Script, s: State)
    requires Inv(sc, s) && !Halted(sc, s) && !Opens(Words(sc.lines)[s.pc]) && !Closes(Words(sc.lines)[s.pc])
    ensures Inv(sc, s.(pc := s.pc + 1))
  {
    hide BlockWord;
    OpenStep(Words(sc.lines), s.pc);
  }

  lemma KeepBreak(sc: Script, s: State)
    requires Fit(sc) && Inv(sc, s) && !Halted(sc, s) && !Skipping(s.stack)
    requires sc.env.word(sc.lines[s.pc], s.store).Break?
    ensures Inv(sc, Goto(s, BreakTo(s.stack, s.pc).0, BreakTo(s.stack, s.pc).1))
  {
    hide BlockWord, Balanced, EndTable, Agree, OpenLines, EndOf, Shape, BreakTo;
    var ws := Words(sc.lines);
    var open := OpenLines(ws, s.pc);
    LineWord(sc, s);
    if s.stack == [] {
      KeepForward(sc, s);
      BreakEmpty(s.pc);
    } else {
      assert BreakFits(ws, open);
      var i :| 0 <= i < |open| && open[i] < |ws| && !ws[open[i]].If?;
      assert Fits(sc, ws, s.stack[i], open[i]);
      assert LiveLoop(s.stack[i]);
      var k := BreakLands(s.stack, s.pc);
      JumpOut(sc, s, k);
    }
  }

  lemma BreakEmpty(pc: int)
    ensures BreakTo([], pc) == ([], pc + 1)
  {
  }

  lemma KeepSimple(sc: Script, s: State, w: Word)
    requires Fit(sc) && Inv(sc, s) && !Halted(sc, s) && w == sc.env.word(sc.lines[s.pc], s.store) && Simple(w)
    ensures Inv(sc, NextSimple(sc, s, w))
  {
    hide Fit, BlockWord, Words, OpenLines, BreakTo, ContinueTo, Mirrors, Shape, Skipping;
    LineWord(sc, s);
    KeepForward(sc, s);
    if w.Break? && !Skipping(s.stack) {
      KeepBreak(sc, s);
    } else if w.Continue? && !Skipping(s.stack) {
      var k := ContinueLands(s.stack, s.stack, s.pc);
      if k >= 0 { JumpOut(sc, s, k); }
    }
  }

  lemma KeepNext(sc: Script, s: State)
    requires Fit(sc) && Inv(sc, s) && !Halted(sc, s)
    ensures Inv(sc, Next(sc, s))
  {
    hide Fit, Inv, Words, NextIf, NextElse, NextForeach, NextWhile, NextEnd, NextSimple;
    LineWord(sc, s);
    match sc.env.word(sc.lines[s.pc], s.store)
    case If => KeepIf(sc, s);
    case Else => KeepElse(sc, s);
    case Endif => KeepClose(sc, s);
    case Foreach => KeepForeach(sc, s);
    case While => KeepWhile(sc, s);
    case End => KeepEnd(sc, s);
    case w => KeepSimple(sc, s, w);
  }

  /** In every state that a run reaches, the stack mirrors the open blocks of the line,
      is as high as the line is deep, and skips exactly when its top frame is dead. */
  lemma {:induction false} Reachable(sc: Script, s: State, n: nat)
    requires Fit(sc) && Inv(sc, s)
    ensures var t := Steps(sc, n, s);
      Inv(sc, t) && |t.stack| == Depth(Words(sc.lines), t.pc) && Skipping(t.stack) == DeadTop(t.stack)
    decreases n
  {
    hide Fit, Next, Words;
    if n == 0 || Halted(sc, s) {
      Room(sc, s);
      SkippingIsTop(s.stack);
    } else {
      KeepNext(sc, s);
      Reachable(sc, Next(sc, s), n - 1);
    }
  }

  lemma StartInv(sc: Script, st: Store)
    ensures Inv(sc, Start(st))
  {
  }
}
