/** What the turns of csh's loops see: in every run of the machine, and in the block tree,
    turn k of a `foreach` starts with item k in its variable, whatever the body did before. */
module CshTurns {
  import opened CshMachine
  import opened CshStructured

  // ----- the machine -----

  /** A step that starts a turn of a `foreach`: its frame is pushed, or counts on. */
  ghost predicate TurnStarts(s: State, t: State) {
    && t.stack != [] && Top(t.stack).ForeachLive?
    && (|t.stack| > |s.stack| || (|t.stack| == |s.stack| && Top(t.stack) != Top(s.stack)))
  }

  /** The turn starts at the body with its item set; the first with item 0, the next ones with the next item. */
  ghost predicate TurnRight(s: State, t: State)
    requires TurnStarts(s, t)
  {
    var f := Top(t.stack);
    && 0 <= f.cur < |f.items| && t.pc == f.body && t.trace == s.trace
    && Assigned(s.store, f.name, f.items[f.cur], t.store)
    && (if |t.stack| > |s.stack| then f.cur == 0 && f.body == s.pc + 1
        else Top(s.stack) == f.(cur := f.cur - 1))
  }

  lemma {:induction false} BreakShortens(stack: seq<Frame>, pc: int)
    ensures BreakTo(stack, pc).0 <= stack
  {
    if stack != [] && !LiveLoop(Top(stack)) && IfFrame(Top(stack)) { BreakShortens(Pop(stack), pc); }
  }

  lemma {:induction false} ContinueShortens(stack: seq<Frame>, whole: seq<Frame>, pc: int)
    requires stack <= whole
    ensures ContinueTo(stack, whole, pc).0 <= whole
  {
    if stack != [] && !LiveLoop(Top(stack)) { ContinueShortens(Pop(stack), whole, pc); }
  }

  lemma ForeachTurn(sc: Script, s: State)
    requires !Halted(sc, s)
    ensures TurnStarts(s, NextForeach(sc, s)) ==> TurnRight(s, NextForeach(sc, s))
  {
    hide VarSet, Assigned;
    var h := sc.env.head(sc.lines[s.pc], s.store);
    if h.Items? && h.items != [] { VarSetMeans(s.store, h.name, h.items[0]); }
  }

  lemma EndTurn(sc: Script, s: State)
    ensures TurnStarts(s, NextEnd(sc, s)) ==> TurnRight(s, NextEnd(sc, s))
  {
    hide VarSet, Assigned;
    if s.stack != [] && Top(s.stack).ForeachLive? {
      var f := Top(s.stack);
      if 0 <= f.cur + 1 < |f.items| { VarSetMeans(s.store, f.name, f.items[f.cur + 1]); }
    }
  }

  /** Every step of every run, from any state. */
  lemma TurnIsRight(sc: Script, s: State)
    requires !Halted(sc, s) && TurnStarts(s, Next(sc, s))
    ensures TurnRight(s, Next(sc, s))
  {
    hide BreakTo, ContinueTo, TurnRight, NextForeach, NextEnd;
    BreakShortens(s.stack, s.pc);
    ContinueShortens(s.stack, s.stack, s.pc);
    ForeachTurn(sc, s);
    EndTurn(sc, s);
  }

  /** Turn n of a run, counted in steps. */
  lemma EveryTurn(sc: Script, n: nat, s: State)
    requires var t := Steps(sc, n, s); !Halted(sc, t) && TurnStarts(t, Next(sc, t))
    ensures TurnRight(Steps(sc, n, s), Next(sc, Steps(sc, n, s)))
  {
    hide *;
    TurnIsRight(sc, Steps(sc, n, s));
  }

  // ----- the block tree -----

  /** One turn, from the store and trace before it: its item is set, then the body runs. */
  ghost predicate OneTurn(env: Env, quirk: bool, name: string, item: string, body: Prog, before: Result, fuel: nat,
      start: Store, end: Result)
    requires before.Done?
  {
    Assigned(before.store, name, item, start) && end == Exec(env, quirk, body, true, start, before.trace, fuel)
  }

  /** The stores the turns of a `foreach` start in, and what `ends[1..]` they come to: each starts where
      the one before ended but for its own item, the last one breaks, exits or has the last item. */
  ghost predicate Turns(env: Env, quirk: bool, name: string, items: seq<string>, body: Prog, fuel: nat,
      starts: seq<Store>, ends: seq<Result>)
  {
    && |starts| + 1 == |ends| && |starts| <= |items|
    && (forall k :: 0 <= k < |ends| ==> ends[k].Done?)
    && (forall k :: 0 <= k < |starts| ==> OneTurn(env, quirk, name, items[k], body, ends[k], fuel, starts[k], ends[k + 1]))
    && (forall k :: 0 < k < |starts| ==> ends[k].how.Normal? || ends[k].how.Continued?)
    && (|starts| < |items| ==> starts != [] && (ends[|starts|].how.Broke? || ends[|starts|].how.Exited?))
  }

  lemma {:induction false} ItemsTurn(env: Env, quirk: bool, name: string, items: seq<string>, body: Prog, st: Store,
      tr: seq<Event>, fuel: nat) returns (starts: seq<Store>, ends: seq<Result>)
    requires ExecItems(env, quirk, name, items, body, st, tr, fuel).Done?
    ensures Turns(env, quirk, name, items, body, fuel, starts, ends)
    ensures ends[0] == Done(Normal, st, tr, false)
    ensures var last := ends[|starts|];
      ExecItems(env, quirk, name, items, body, st, tr, fuel)
      == Done(if last.how.Exited? then last.how else Normal, last.store, last.trace, false)
    decreases |items|
  {
    hide Exec, VarSet, Assigned;
    var before := Done(Normal, st, tr, false);
    if items == [] { return [], [before]; }
    VarSetMeans(st, name, items[0]);
    var start := VarSet(st, name, items[0]);
    var r := Exec(env, quirk, body, true, start, tr, fuel);
    if r.how.Exited? || r.how.Broke? { return [start], [before, r]; }
    var ss, es := ItemsTurn(env, quirk, name, items[1..], body, r.store, r.trace, fuel);
    starts, ends := [start] + ss, [before, r] + es[1..];
    OneTurnMore(env, quirk, name, items, body, fuel, before, start, r, ss, es);
  }

  lemma SameBefore(env: Env, quirk: bool, name: string, item: string, body: Prog, a: Result, b: Result, fuel: nat,
      start: Store, end: Result)
    requires a.Done? && b.Done? && a.store == b.store && a.trace == b.trace
    requires OneTurn(env, quirk, name, item, body, a, fuel, start, end)
    ensures OneTurn(env, quirk, name, item, body, b, fuel, start, end)
  {
    hide Exec, Assigned;
  }

  lemma OneTurnMore(env: Env, quirk: bool, name: string, items: seq<string>, body: Prog, fuel: nat,
      before: Result, start: Store, r: Result, ss: seq<Store>, es: seq<Result>)
    requires items != [] && before.Done? && r.Done? && (r.how.Normal? || r.how.Continued?)
    requires OneTurn(env, quirk, name, items[0], body, before, fuel, start, r)
    requires Turns(env, quirk, name, items[1..], body, fuel, ss, es) && es[0].store == r.store && es[0].trace == r.trace
    requires es[0].how.Normal?
    ensures Turns(env, quirk, name, items, body, fuel, [start] + ss, [before, r] + es[1..])
  {
    hide OneTurn;
    var starts, ends := [start] + ss, [before, r] + es[1..];
    assert forall k :: 2 <= k < |ends| ==> ends[k] == es[k - 1];
    forall k | 0 <= k < |starts|
      ensures OneTurn(env, quirk, name, items[k], body, ends[k], fuel, starts[k], ends[k + 1])
    {
      if k > 0 {
        assert OneTurn(env, quirk, name, items[1..][k - 1], body, es[k - 1], fuel, ss[k - 1], es[k]);
        SameBefore(env, quirk, name, items[k], body, es[k - 1], ends[k], fuel, ss[k - 1], es[k]);
      }
    }
  }
}
