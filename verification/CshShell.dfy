/** csh's script runner as the program has it: tables and a frame stack
    changed in place, line by line. */
module CshShell {
  import opened Options
  import opened CshMachine
  import opened CshBlocks
  import opened CshTheorem
  import opened CshTurns

  const LINES_MAX := 4096

  /** The fixed parse stack never overflows. */
  ghost predicate Shallow(ws: seq<Word>, n: nat)
    requires n <= |ws|
  {
    forall i :: 0 <= i < n && Opens(ws[i]) ==> Depth(ws, i) < 4096
  }

  /** The end table's entry for line o after n lines: a closed block has its end, others -1. */
  ghost predicate Entry(ws: seq<Word>, n: nat, o: nat, e: int)
    requires n <= |ws| && o < |ws|
  {
    if o < n && Opens(ws[o]) && o !in OpenLines(ws, n) then Matches(ws, o, e) else e == -1
  }

  ghost predicate PartTable(ws: seq<Word>, n: nat, t: seq<int>)
    requires n <= |ws|
  {
    |t| == |ws| && forall o :: 0 <= o < |ws| ==> Entry(ws, n, o, t[o])
  }

  /** A line that closes nothing. */
  lemma StepOpen(ws: seq<Word>, n: nat, t: seq<int>)
    requires n < |ws| && Guarded(ws, n) && PartTable(ws, n, t) && !Closes(ws[n])
    ensures OpenLines(ws, n + 1) == if Opens(ws[n]) then OpenLines(ws, n) + [n] else OpenLines(ws, n)
    ensures PartTable(ws, n + 1, t)
  {
    hide Matches;
    OpenLinesShape(ws, n);
    forall o | 0 <= o < |ws| ensures Entry(ws, n + 1, o, t[o]) {
      assert Entry(ws, n, o, t[o]);
    }
  }

  /** A line that closes the innermost open block. */
  lemma StepClose(ws: seq<Word>, n: nat, t: seq<int>)
    requires n < |ws| && Guarded(ws, n + 1) && PartTable(ws, n, t) && Closes(ws[n])
    ensures OpenLines(ws, n) != [] && Last(ws, n) < |t|
    ensures OpenLines(ws, n + 1) == OpenLines(ws, n)[..|OpenLines(ws, n)| - 1]
    ensures PartTable(ws, n + 1, t[Last(ws, n) := n])
  {
    hide Matches;
    TopMatches(ws, n);
    LastOnce(ws, n);
    var now, later, top := OpenLines(ws, n), OpenLines(ws, n + 1), Last(ws, n);
    assert now == later + [top];
    var t' := t[top := n];
    forall o | 0 <= o < |ws| ensures Entry(ws, n + 1, o, t'[o]) {
      assert Entry(ws, n, o, t[o]);
    }
  }

  lemma LastOnce(ws: seq<Word>, n: nat)
    requires n <= |ws| && Guarded(ws, n) && OpenLines(ws, n) != []
    ensures Last(ws, n) < n && Opens(ws[Last(ws, n)]) && Last(ws, n) !in OpenLines(ws, n)[..|OpenLines(ws, n)| - 1]
  {
    OpenLinesShape(ws, n);
    var now := OpenLines(ws, n);
    assert OpenAt(ws, now[|now| - 1], |now| - 1, n);
    forall k | 0 <= k < |now| - 1 ensures now[k] != now[|now| - 1] {
      assert OpenAt(ws, now[k], k, n);
    }
  }

  function Last(ws: seq<Word>, n: nat): nat
    requires n <= |ws| && OpenLines(ws, n) != []
  {
    OpenLines(ws, n)[|OpenLines(ws, n)| - 1]
  }

  lemma StrayLine(ws: seq<Word>, n: nat)
    requires n < |ws| && Guarded(ws, n) && (Closes(ws[n]) || ws[n].Else?)
    ensures OpenLines(ws, n) == [] ==> !Balanced(ws)
    ensures OpenLines(ws, n) != [] ==> Guarded(ws, n + 1)
  {
    OpenLinesShape(ws, n);
  }

  lemma AllClosed(ws: seq<Word>, t: seq<int>)
    requires Guarded(ws, |ws|) && PartTable(ws, |ws|, t)
    ensures OpenLines(ws, |ws|) == [] <==> Balanced(ws)
    ensures Balanced(ws) ==> EndTable(ws, t)
  {
    hide Matches;
    OpenLinesShape(ws, |ws|);
    if OpenLines(ws, |ws|) == [] {
      forall o | 0 <= o < |ws| ensures if Opens(ws[o]) then Matches(ws, o, t[o]) else t[o] == -1 {
        assert Entry(ws, |ws|, o, t[o]);
      }
    }
  }

  lemma NoneOpen(ws: seq<Word>, t: seq<int>)
    requires |t| == |ws| && forall o :: 0 <= o < |t| ==> t[o] == -1
    ensures PartTable(ws, 0, t)
  {
  }

  /** `parse_block_structure`: accepts exactly the balanced scripts and fills the end table. */
  method ParseBlocks(lines: seq<string>, endOf: array<int>) returns (rc: int)
    requires endOf.Length == |lines|
    modifies endOf
    ensures rc == 0 || rc == -1
    ensures rc == 0 <==> Balanced(Words(lines)) && Shallow(Words(lines), |lines|)
    ensures rc == 0 ==> EndTable(Words(lines), endOf[..])
  {
    hide Depth, Matches, BlockWord, OpenLines, Balanced, EndTable, Guarded, PartTable;
    ghost var ws := Words(lines);
    var open := new nat[LINES_MAX];
    var sp := 0;
    for i := 0 to |lines|
      invariant forall o :: 0 <= o < i ==> endOf[o] == -1
    {
      endOf[i] := -1;
    }
    NoneOpen(ws, endOf[..]);
    Beginning(ws);
    for i := 0 to |lines|
      invariant Guarded(ws, i) && Shallow(ws, i)
      invariant 0 <= sp <= LINES_MAX && open[..sp] == OpenLines(ws, i)
      invariant PartTable(ws, i, endOf[..])
    {
      var w := BlockWord(lines[i]);
      assert w == ws[i];
      if Opens(w) {
        OpenDepth(ws, i);
        if sp >= LINES_MAX { return -1; }
        StepOpen(ws, i, endOf[..]);
        open[sp] := i;
        sp := sp + 1;
      } else if w.Else? {
        StrayLine(ws, i);
        if sp == 0 { return -1; }
        StepOpen(ws, i, endOf[..]);
      } else if Closes(w) {
        StrayLine(ws, i);
        if sp == 0 { return -1; }
        StepClose(ws, i, endOf[..]);
        sp := sp - 1;
        endOf[open[sp]] := i;
      } else {
        PlainLine(ws, i);
        StepOpen(ws, i, endOf[..]);
      }
    }
    AllClosed(ws, endOf[..]);
    if sp != 0 { return -1; }
    return 0;
  }

  lemma Beginning(ws: seq<Word>)
    ensures Guarded(ws, 0) && OpenLines(ws, 0) == []
  {
  }

  lemma OpenDepth(ws: seq<Word>, n: nat)
    requires n < |ws| && Guarded(ws, n) && Opens(ws[n])
    ensures |OpenLines(ws, n)| == Depth(ws, n) && Guarded(ws, n + 1)
  {
    OpenLinesShape(ws, n);
  }

  lemma PlainLine(ws: seq<Word>, n: nat)
    requires n < |ws| && Guarded(ws, n) && !Closes(ws[n]) && !ws[n].Else?
    ensures Guarded(ws, n + 1)
  {
  }

  // ----- running -----

  class Shell {
    const env: Env
    const lines: seq<string>
    const endOf: array<int>
    var lineIdx: int
    var stack: seq<Frame>
    var store: Store
    var trace: seq<Event>
    var exited: Option<int>

    constructor (env: Env, lines: seq<string>, store: Store)
      ensures this.env == env && this.lines == lines && this.endOf.Length == |lines| && fresh(this.endOf)
      ensures Now() == State(0, [], store, [], None)
    {
      this.env, this.lines, this.store := env, lines, store;
      this.endOf := new int[|lines|];
      this.lineIdx, this.stack, this.trace, this.exited := 0, [], [], None;
    }

    ghost function Now(): State
      reads this
    {
      State(lineIdx, stack, store, trace, exited)
    }

    ghost function Loaded(): Script
      reads this, endOf
    {
      Script(env, lines, endOf[..])
    }

    ghost predicate Running()
      reads this
    {
      0 <= lineIdx < |lines| && exited.None? && endOf.Length == |lines|
    }

    /** The block pass takes the script. */
    ghost predicate Accepted() {
      Balanced(Words(lines)) && Shallow(Words(lines), |lines|)
    }

    /** `is_skipping` looks at every frame. */
    method IsSkipping() returns (skip: bool)
      ensures skip == Skipping(stack)
    {
      for i := 0 to |stack|
        invariant forall j :: 0 <= j < i ==> !Dead(stack[j])
      {
        if Dead(stack[i]) { return true; }
      }
      return false;
    }

    method PushFrame(f: Frame)
      modifies this`stack
      ensures stack == Push(old(stack), f)
    {
      if |stack| < NEST_MAX {
        stack := stack + [f];
      }
    }

    method OnIf()
      requires Running()
      modifies this
      ensures Now() == NextIf(Loaded(), old(Now()))
    {
      var skip := IsSkipping();
      if skip {
        PushFrame(IfSkip(endOf[lineIdx]));
      } else {
        var c := env.cond(lines[lineIdx], store);
        PushFrame(if c then IfTrue(endOf[lineIdx]) else IfFalse(endOf[lineIdx]));
      }
      lineIdx := lineIdx + 1;
    }

    method OnElse()
      requires Running()
      modifies this
      ensures Now() == NextElse(old(Now()))
    {
      if |stack| > 0 {
        var sp := |stack| - 1;
        var top := stack[sp];
        if top.IfTrue? {
          stack := stack[sp := IfElseF(top.end)];
        } else if top.IfFalse? {
          stack := stack[sp := IfElseT(top.end)];
        }
        assert stack == old(stack)[..sp] + [stack[sp]];
      }
      lineIdx := lineIdx + 1;
    }

    method OnForeach()
      requires Running()
      modifies this
      ensures Now() == NextForeach(Loaded(), old(Now()))
      ensures TurnStarts(old(Now()), Now()) ==> TurnRight(old(Now()), Now())
    {
      hide VarSet, TurnStarts, TurnRight;
      ForeachTurn(Loaded(), Now());
      var skip := IsSkipping();
      if skip {
        PushFrame(ForeachSkip(endOf[lineIdx]));
      } else {
        match env.head(lines[lineIdx], store)
        case BadForeach =>
          store := RcSet(store, 1, env.render);
        case Items(name, items) =>
          if |items| == 0 {
            PushFrame(ForeachSkip(endOf[lineIdx]));
          } else if |stack| < NEST_MAX {
            stack := stack + [ForeachLive(lineIdx + 1, endOf[lineIdx], 0, items, name)];
            store := VarSet(store, name, items[0]);
          }
      }
      lineIdx := lineIdx + 1;
    }

    method OnWhile()
      requires Running()
      modifies this
      ensures Now() == NextWhile(Loaded(), old(Now()))
    {
      var skip := IsSkipping();
      if skip {
        PushFrame(WhileSkip(endOf[lineIdx]));
      } else {
        var c := env.cond(lines[lineIdx], store);
        PushFrame(if c then WhileLive(lineIdx + 1, endOf[lineIdx], lines[lineIdx]) else WhileSkip(endOf[lineIdx]));
      }
      lineIdx := lineIdx + 1;
    }

    method OnEnd()
      requires Running()
      modifies this
      ensures Now() == NextEnd(Loaded(), old(Now()))
      ensures TurnStarts(old(Now()), Now()) ==> TurnRight(old(Now()), Now())
    {
      hide VarSet, TurnStarts, TurnRight;
      EndTurn(Loaded(), Now());
      if |stack| == 0 {
        lineIdx := lineIdx + 1;
        return;
      }
      var sp := |stack| - 1;
      var top := stack[sp];
      if top.ForeachLive? {
        top := top.(cur := top.cur + 1);
        if 0 <= top.cur < |top.items| {
          store := VarSet(store, top.name, top.items[top.cur]);
          stack := stack[..sp] + [top];
          lineIdx := top.body;
          return;
        }
      } else if top.WhileLive? {
        var c := env.cond(top.cond, store);
        if c {
          lineIdx := top.body;
          return;
        }
      }
      stack := stack[..sp];
      lineIdx := lineIdx + 1;
    }

    method OnBreak()
      requires Running()
      modifies this
      ensures Now() == old(Now()).(stack := BreakTo(old(stack), old(lineIdx)).0, pc := BreakTo(old(stack), old(lineIdx)).1)
    {
      while |stack| > 0
        invariant BreakTo(stack, lineIdx) == BreakTo(old(stack), old(lineIdx)) && lineIdx == old(lineIdx)
        invariant store == old(store) && trace == old(trace) && exited == old(exited)
        decreases |stack|
      {
        var top := stack[|stack| - 1];
        if LiveLoop(top) {
          stack := stack[..|stack| - 1];
          lineIdx := top.end + 1;
          return;
        }
        if !IfFrame(top) { break; }
        stack := stack[..|stack| - 1];
      }
      lineIdx := lineIdx + 1;
    }

    method OnContinue()
      requires Running()
      modifies this
      ensures Now() == old(Now()).(stack := ContinueTo(old(stack), old(stack), old(lineIdx)).0,
                                   pc := ContinueTo(old(stack), old(stack), old(lineIdx)).1)
    {
      var s := |stack| - 1;
      assert stack[..s + 1] == stack;
      while s >= 0
        invariant -1 <= s < |stack|
        invariant ContinueTo(stack[..s + 1], stack, lineIdx) == ContinueTo(old(stack), old(stack), lineIdx)
        invariant Now() == old(Now())
      {
        if LiveLoop(stack[s]) {
          lineIdx := stack[s].end;
          stack := stack[..s + 1];
          return;
        }
        assert Pop(stack[..s + 1]) == stack[..s];
        s := s - 1;
      }
      lineIdx := lineIdx + 1;
    }

    method OnSimple(w: Word)
      requires Running()
      modifies this
      ensures Now() == NextSimple(Loaded(), old(Now()), w)
    {
      var skip := IsSkipping();
      if w.Blank? || skip {
        lineIdx := lineIdx + 1;
      } else if w.Break? {
        OnBreak();
      } else if w.Continue? {
        OnContinue();
      } else if w.Exit? {
        exited := Some(env.exitCode(lines[lineIdx], store));
      } else {
        trace := trace + [Ran(lines[lineIdx], store)];
        store := env.exec(lines[lineIdx], store);
        lineIdx := lineIdx + 1;
      }
    }

    /** One turn of the loop in `run_script`. */
    method Turn()
      requires Running()
      modifies this
      ensures Now() == Next(Loaded(), old(Now()))
    {
      hide NextIf, NextElse, NextForeach, NextWhile, NextEnd, NextSimple;
      var w := env.word(lines[lineIdx], store);
      match w
      case If => OnIf();
      case Else => OnElse();
      case Endif =>
        if |stack| > 0 { stack := stack[..|stack| - 1]; }
        lineIdx := lineIdx + 1;
      case Foreach => OnForeach();
      case While => OnWhile();
      case End => OnEnd();
      case _ => OnSimple(w);
    }

    /** `run_script`, for at most `turns` turns of its loop: a script that the block
        pass refuses runs nothing and returns 2, any other makes the machine's steps; when a
        well-nested one has halted, its variables, return code and commands are those of the
        block tree. */
    method RunScript(turns: nat) returns (rc: int)
      requires endOf.Length == |lines| && lineIdx == 0 && stack == [] && exited.None?
      modifies this, endOf
      ensures Accepted() ==>
        EndTable(Words(lines), endOf[..]) && Now() == Steps(Loaded(), turns, old(Now())) && rc == store.rc
      ensures !Accepted() ==> rc == 2 && Now() == old(Now())
      ensures forall b :: Accepted() && old(trace) == [] && Runnable(Loaded(), b) && Halted(Loaded(), Now()) ==>
        Shows(Loaded(), Now(), Effect(Loaded(), b, old(store), turns + 1))
    {
      hide Next, Balanced, Shallow, EndTable, Words, Runnable, Shows, Effect;
      var ok := ParseBlocks(lines, endOf);
      if ok < 0 { return 2; }
      var left := turns;
      ghost var sc := Loaded();
      while left > 0 && lineIdx < |lines| && exited.None? && lineIdx >= 0
        invariant 0 <= left <= turns && Loaded() == sc
        invariant Steps(sc, left, Now()) == Steps(sc, turns, old(Now()))
        decreases left
      {
        Turn();
        left := left - 1;
      }
      assert Now() == Steps(sc, turns, old(Now()));
      forall b | old(trace) == [] && Runnable(sc, b) && Halted(sc, Now())
        ensures Shows(sc, Now(), Effect(sc, b, old(store), turns + 1))
      {
        HaltedRunShows(sc, b, old(store), turns);
      }
      return store.rc;
    }
  }
}
