/** Why the csh theorem asks what it asks: each limit, stated for every script that passes it. */
module CshLimits {
  import opened CshMachine
  import opened CshStructured
  import opened CshSkip
  import opened CshLive

  /** An `if` line opens its block exactly while the stack has room; with a full
      stack the body of a false `if` runs. */
  lemma FullStack(sc: Script, s: State)
    requires !Halted(sc, s) && !Skipping(s.stack) && sc.env.word(sc.lines[s.pc], s.store).If?
    ensures |Next(sc, s).stack| == |s.stack| + 1 <==> |s.stack| < 32
    ensures !sc.env.cond(sc.lines[s.pc], s.store) ==> (Skipping(Next(sc, s).stack) <==> |s.stack| < 32)
  {
    if |s.stack| < NEST_MAX && !sc.env.cond(sc.lines[s.pc], s.store) {
      var stack := Next(sc, s).stack;
      assert Dead(stack[|s.stack|]);
    }
  }

  /** A live `foreach` line opens its block exactly when it carries a variable and a list
      and the stack has room; one without leaves return code 1 behind. */
  lemma ShortForeach(sc: Script, s: State)
    requires !Halted(sc, s) && !Skipping(s.stack) && sc.env.word(sc.lines[s.pc], s.store).Foreach?
    ensures |Next(sc, s).stack| == |s.stack| + 1 <==>
            sc.env.head(sc.lines[s.pc], s.store).Items? && |s.stack| < 32
    ensures sc.env.head(sc.lines[s.pc], s.store).BadForeach? ==>
      Assigned(s.store.(rc := 1), "status", sc.env.render(1), Next(sc, s).store)
  {
    VarSetMeans(s.store.(rc := 1), "status", sc.env.render(1));
    hide VarSet, Assigned;
  }

  /** The run of a statement list comes to a `break` of its own. */
  ghost predicate ComesToBreak(env: Env, b: Prog, st: Store, tr: seq<Event>, fuel: nat)
    decreases b
  {
    !b.Skip? &&
    if b.Leaf? && env.word(b.text, st).Break? then true
    else
      var r := ExecFirst(env, true, b, false, st, tr, fuel);
      r.Done? && r.how.Normal? && ComesToBreak(env, b.next, r.store, r.trace, fuel)
  }

  /** Outside every loop such a list is stray, whatever stands before and after the `break`. */
  lemma {:induction false} BreakStrays(env: Env, b: Prog, st: Store, tr: seq<Event>, fuel: nat)
    requires ComesToBreak(env, b, st, tr, fuel) && Exec(env, true, b, false, st, tr, fuel).Done?
    ensures Exec(env, true, b, false, st, tr, fuel).stray
    decreases b
  {
    var r := ExecFirst(env, true, b, false, st, tr, fuel);
    if !(b.Leaf? && env.word(b.text, st).Break?) {
      hide ExecFirst;
      BreakStrays(env, b.next, r.store, r.trace, fuel);
    }
  }

  /** Any if/else that the machine comes to outside every loop, with a true condition and a
      first branch that strays: the machine runs both branches, one after the other,
      however the second ends. */
  lemma StrayBreak(sc: Script, b: Prog, s: State, fuel: nat) returns (n: nat)
    requires b.IfElse? && Live(s, false, NestingFirst(b)) && ReadyFirst(sc, b, s.pc) && sc.env.cond(b.head, s.store)
    requires Strays(Exec(sc.env, true, b.thn, false, s.store, s.trace, fuel))
    ensures var r := Exec(sc.env, true, b.thn, false, s.store, s.trace, fuel);
      var both := Exec(sc.env, true, b.els, false, r.store, r.trace, fuel);
      Runs(sc, s, n, Then(r, both), s.pc + First(b), s.stack, fuel)
  {
    hide *;
    n := SimIfElse(sc, b, s, false, fuel);
    IfElseMeans(sc.env, b, false, s.store, s.trace, fuel);
    StraysNormally(Exec(sc.env, true, b.thn, false, s.store, s.trace, fuel));
  }

  lemma StraysNormally(r: Result)
    ensures Strays(r) <==> r.Done? && r.how.Normal? && r.stray
  {
  }

  /** Where that first branch itself does what it says, the script says to run it alone. Both
      come to the same exactly when the second branch ends normally and changes nothing. */
  lemma StrayDiffers(env: Env, b: Prog, st: Store, tr: seq<Event>, fuel: nat)
    requires b.IfElse? && env.cond(b.head, st) && Calm(env, b.thn, st, tr, fuel)
    requires Strays(Exec(env, true, b.thn, false, st, tr, fuel))
    ensures var r := Exec(env, true, b.thn, false, st, tr, fuel);
      var both := Exec(env, true, b.els, false, r.store, r.trace, fuel);
      && ExecFirst(env, false, b, false, st, tr, fuel) == r
      && ExecFirst(env, true, b, false, st, tr, fuel) == Then(r, both)
      && (Then(r, both) == r <==> both.Done? && both.how.Normal? && both.store == r.store && both.trace == r.trace)
  {
    hide Exec, Calm;
    CalmMeaning(env, b.thn, st, tr, fuel);
  }

  /** The smallest such script: a lone `break`, and a command after `else`. */
  lemma BreakThenElse(env: Env, head: string, stop: string, mid: string, cmd: string, close: string, st: Store, fuel: nat)
    requires env.cond(head, st) && env.word(stop, st).Break? && env.word(cmd, st).Command?
    ensures var b := IfElse(head, Leaf(stop, Skip), mid, Leaf(cmd, Skip), close, Skip);
      && Exec(env, false, b, false, st, [], fuel) == Done(Normal, st, [], true)
      && Exec(env, true, b, false, st, [], fuel) == Done(Normal, env.exec(cmd, st), [Ran(cmd, st)], true)
  {
    var b := IfElse(head, Leaf(stop, Skip), mid, Leaf(cmd, Skip), close, Skip);
    assert Exec(env, true, b.thn, false, st, [], fuel) == Done(Normal, st, [], true);
    assert Exec(env, false, b.thn, false, st, [], fuel) == Done(Normal, st, [], true);
    assert Exec(env, true, b.els, false, st, [], fuel) == Done(Normal, env.exec(cmd, st), [Ran(cmd, st)], false);
  }
}
