/** Structured scripts: the block tree behind a flat script and its big-step meaning. */
module CshStructured {
  import opened CshMachine

  datatype Kind = KIf | KWhile | KForeach

  /** A statement list; every block keeps the text of its own lines. */
  datatype Prog =
    | Skip
    | Leaf(text: string, next: Prog)
    | Block(kind: Kind, head: string, body: Prog, close: string, next: Prog)
    | IfElse(head: string, thn: Prog, mid: string, els: Prog, close: string, next: Prog)

  function OpenWord(k: Kind): Word {
    match k case KIf => If case KWhile => While case KForeach => Foreach
  }

  function CloseWord(k: Kind): Word { if k.KIf? then Endif else End }

  /** The flat lines of a statement list. */
  function Flat(b: Prog): seq<string>
    decreases b, 1
  {
    if b.Skip? then [] else FlatFirst(b) + Flat(b.next)
  }

  function FlatFirst(b: Prog): seq<string>
    requires !b.Skip?
    decreases b, 0
  {
    match b
    case Leaf(text, _) => [text]
    case Block(_, head, body, close, _) => [head] + Flat(body) + [close]
    case IfElse(head, thn, mid, els, close, _) => [head] + Flat(thn) + [mid] + Flat(els) + [close]
  }

  /** How many lines a statement list has, and its first statement. */
  function Len(b: Prog): nat
    decreases b, 1
  {
    if b.Skip? then 0 else First(b) + Len(b.next)
  }

  function First(b: Prog): (n: nat)
    requires !b.Skip?
    ensures n > 0
    decreases b, 0
  {
    match b
    case Leaf(_, _) => 1
    case Block(_, _, body, _, _) => 2 + Len(body)
    case IfElse(_, thn, _, els, _, _) => 3 + Len(thn) + Len(els)
  }

  function Max(a: nat, b: nat): nat { if a < b then b else a }

  function Nesting(b: Prog): nat
    decreases b, 1
  {
    if b.Skip? then 0 else Max(NestingFirst(b), Nesting(b.next))
  }

  function NestingFirst(b: Prog): nat
    requires !b.Skip?
    decreases b, 0
  {
    match b
    case Leaf(_, _) => 0
    case Block(_, _, body, _, _) => 1 + Nesting(body)
    case IfElse(_, thn, _, els, _, _) => 1 + Max(Nesting(thn), Nesting(els))
  }

  ghost predicate Always(env: Env, text: string, w: Word) {
    forall st :: env.word(text, st) == w
  }

  predicate Simple(w: Word) {
    w.Blank? || w.Break? || w.Continue? || w.Exit? || w.Command?
  }

  /** What the machine needs of a script: block lines keep their word whatever
      the store is, and `foreach` lines carry a variable and a list. */
  ghost predicate Sound(env: Env, b: Prog)
    decreases b, 1
  {
    b.Skip? || (SoundFirst(env, b) && Sound(env, b.next))
  }

  ghost predicate SoundFirst(env: Env, b: Prog)
    requires !b.Skip?
    decreases b, 0
  {
    match b
    case Leaf(text, _) => forall st :: Simple(env.word(text, st))
    case Block(k, head, body, close, _) =>
      && Always(env, head, OpenWord(k)) && Always(env, close, CloseWord(k))
      && (k.KForeach? ==> forall st :: env.head(head, st).Items?)
      && Sound(env, body)
    case IfElse(head, thn, mid, els, close, _) =>
      && Always(env, head, If) && Always(env, mid, Else) && Always(env, close, Endif)
      && Sound(env, thn) && Sound(env, els)
  }

  // ----- big-step meaning -----

  datatype Outcome = Normal | Broke | Continued | Exited(code: int)

  /** Timeout: the fuel for `while` turns ran out. A stray result met a `break` outside every loop. */
  datatype Result = Timeout | Done(how: Outcome, store: Store, trace: seq<Event>, stray: bool)

  /** One result after another. */
  function Then(r: Result, next: Result): Result
    requires r.Done?
  {
    if next.Timeout? then Timeout else next.(stray := r.stray || next.stray)
  }

  /** The statement list, stopping at the first statement that does not end normally.
      With `quirk` it is what csh does: a `break` outside every loop undoes all frames, so
      after a first branch that met one the `else` line switches nothing off. Without,
      it is what the script says. */
  function Exec(env: Env, quirk: bool, b: Prog, inLoop: bool, st: Store, tr: seq<Event>, fuel: nat): (r: Result)
    ensures r.Done? && !inLoop ==> r.how.Normal? || r.how.Exited?
    ensures r.Done? && inLoop ==> !r.stray
    decreases fuel, b, 1
  {
    if b.Skip? then Done(Normal, st, tr, false)
    else
      var r := ExecFirst(env, quirk, b, inLoop, st, tr, fuel);
      if r.Done? && r.how.Normal? then Then(r, Exec(env, quirk, b.next, inLoop, r.store, r.trace, fuel)) else r
  }

  function ExecFirst(env: Env, quirk: bool, b: Prog, inLoop: bool, st: Store, tr: seq<Event>, fuel: nat): (r: Result)
    requires !b.Skip?
    ensures r.Done? && !inLoop ==> r.how.Normal? || r.how.Exited?
    ensures r.Done? && inLoop ==> !r.stray
    decreases fuel, b, 0
  {
    match b
    case Leaf(text, _) => ExecLeaf(env, text, inLoop, st, tr)
    case Block(k, head, body, _, _) =>
      (match k
       case KIf =>
         if env.cond(head, st) then Exec(env, quirk, body, inLoop, st, tr, fuel) else Done(Normal, st, tr, false)
       case KWhile =>
         if env.cond(head, st) then ExecWhile(env, quirk, head, body, st, tr, fuel) else Done(Normal, st, tr, false)
       case KForeach =>
         var h := env.head(head, st);
         if h.BadForeach? then Done(Normal, st, tr, false)
         else ExecItems(env, quirk, h.name, h.items, body, st, tr, fuel))
    case IfElse(head, thn, _, els, _, _) =>
      if !env.cond(head, st) then Exec(env, quirk, els, inLoop, st, tr, fuel)
      else
        var r := Exec(env, quirk, thn, inLoop, st, tr, fuel);
        if quirk && r.Done? && r.how.Normal? && r.stray then
          Then(r, Exec(env, quirk, els, inLoop, r.store, r.trace, fuel))
        else r
  }

  function ExecLeaf(env: Env, text: string, inLoop: bool, st: Store, tr: seq<Event>): Result {
    match env.word(text, st)
    case Break => Done(if inLoop then Broke else Normal, st, tr, !inLoop)
    case Continue => Done(if inLoop then Continued else Normal, st, tr, false)
    case Exit => Done(Exited(env.exitCode(text, st)), st, tr, false)
    case Command => Done(Normal, env.exec(text, st), tr + [Ran(text, st)], false)
    case _ => Done(Normal, st, tr, false)
  }

  /** The body of a `while` whose condition held, then the loop again. */
  function ExecWhile(env: Env, quirk: bool, head: string, body: Prog, st: Store, tr: seq<Event>, fuel: nat): (r: Result)
    ensures r.Done? ==> (r.how.Normal? || r.how.Exited?) && !r.stray
    decreases fuel, body, 2
  {
    if fuel == 0 then Timeout
    else
      var r := Exec(env, quirk, body, true, st, tr, fuel);
      if r.Timeout? || r.how.Exited? then r
      else if r.how.Broke? || !env.cond(head, r.store) then Done(Normal, r.store, r.trace, false)
      else ExecWhile(env, quirk, head, body, r.store, r.trace, fuel - 1)
  }

  /** The body once for every item, in order. */
  function ExecItems(env: Env, quirk: bool, name: string, items: seq<string>, body: Prog, st: Store, tr: seq<Event>, fuel: nat): (r: Result)
    ensures r.Done? ==> (r.how.Normal? || r.how.Exited?) && !r.stray
    decreases fuel, body, 2, |items|
  {
    if items == [] then Done(Normal, st, tr, false)
    else
      var r := Exec(env, quirk, body, true, VarSet(st, name, items[0]), tr, fuel);
      if r.Timeout? || r.how.Exited? then r
      else if r.how.Broke? then Done(Normal, r.store, r.trace, false)
      else ExecItems(env, quirk, name, items[1..], body, r.store, r.trace, fuel)
  }

  // ----- runs and scripts on which csh does what they say -----

  /** Inside a loop the quirk makes no difference: a `break` there is never stray. */
  lemma {:induction false} LoopMeaning(env: Env, b: Prog, st: Store, tr: seq<Event>, fuel: nat)
    ensures Exec(env, true, b, true, st, tr, fuel) == Exec(env, false, b, true, st, tr, fuel)
    decreases fuel, b, 1
  {
    hide ExecFirst;
    if !b.Skip? {
      LoopFirstMeaning(env, b, st, tr, fuel);
      var r := ExecFirst(env, true, b, true, st, tr, fuel);
      if r.Done? { LoopMeaning(env, b.next, r.store, r.trace, fuel); }
    }
  }

  lemma {:induction false} LoopFirstMeaning(env: Env, b: Prog, st: Store, tr: seq<Event>, fuel: nat)
    requires !b.Skip?
    ensures ExecFirst(env, true, b, true, st, tr, fuel) == ExecFirst(env, false, b, true, st, tr, fuel)
    decreases fuel, b, 0
  {
    hide Exec, ExecWhile, ExecItems;
    match b
    case Leaf(_, _) =>
    case Block(k, head, body, _, _) =>
      match k {
        case KIf => LoopMeaning(env, body, st, tr, fuel);
        case KWhile => WhileMeaning(env, head, body, st, tr, fuel);
        case KForeach =>
          var h := env.head(head, st);
          if h.Items? { ItemsMeaning(env, h.name, h.items, body, st, tr, fuel); }
      }
    case IfElse(_, thn, _, els, _, _) =>
      LoopMeaning(env, thn, st, tr, fuel);
      LoopMeaning(env, els, st, tr, fuel);
  }

  lemma {:induction false} WhileMeaning(env: Env, head: string, body: Prog, st: Store, tr: seq<Event>, fuel: nat)
    ensures ExecWhile(env, true, head, body, st, tr, fuel) == ExecWhile(env, false, head, body, st, tr, fuel)
    decreases fuel, body, 2
  {
    hide Exec;
    if fuel > 0 {
      LoopMeaning(env, body, st, tr, fuel);
      var r := Exec(env, true, body, true, st, tr, fuel);
      if r.Done? { WhileMeaning(env, head, body, r.store, r.trace, fuel - 1); }
    }
  }

  lemma {:induction false} ItemsMeaning(env: Env, name: string, items: seq<string>, body: Prog, st: Store, tr: seq<Event>, fuel: nat)
    ensures ExecItems(env, true, name, items, body, st, tr, fuel) == ExecItems(env, false, name, items, body, st, tr, fuel)
    decreases fuel, body, 2, |items|
  {
    hide Exec, VarSet;
    if items != [] {
      LoopMeaning(env, body, VarSet(st, name, items[0]), tr, fuel);
      var r := Exec(env, true, body, true, VarSet(st, name, items[0]), tr, fuel);
      if r.Done? { ItemsMeaning(env, name, items[1..], body, r.store, r.trace, fuel); }
    }
  }

  predicate Strays(r: Result) { r.Done? && r.how.Normal? && r.stray }

  /** In this run of a list outside every loop, no first branch that is run strays. */
  predicate Calm(env: Env, b: Prog, st: Store, tr: seq<Event>, fuel: nat)
    decreases b, 1
  {
    b.Skip? ||
    (CalmFirst(env, b, st, tr, fuel) &&
     var r := ExecFirst(env, false, b, false, st, tr, fuel);
     r.Done? && r.how.Normal? ==> Calm(env, b.next, r.store, r.trace, fuel))
  }

  predicate CalmFirst(env: Env, b: Prog, st: Store, tr: seq<Event>, fuel: nat)
    requires !b.Skip?
    decreases b, 0
  {
    match b
    case Leaf(_, _) => true
    case Block(k, head, body, _, _) => k.KIf? && env.cond(head, st) ==> Calm(env, body, st, tr, fuel)
    case IfElse(head, thn, _, els, _, _) =>
      if env.cond(head, st) then
        Calm(env, thn, st, tr, fuel) && !Strays(Exec(env, false, thn, false, st, tr, fuel))
      else Calm(env, els, st, tr, fuel)
  }

  /** On a calm run the quirk makes no difference. */
  lemma {:induction false} CalmMeaning(env: Env, b: Prog, st: Store, tr: seq<Event>, fuel: nat)
    requires Calm(env, b, st, tr, fuel)
    ensures Exec(env, true, b, false, st, tr, fuel) == Exec(env, false, b, false, st, tr, fuel)
    decreases b, 1
  {
    hide ExecFirst, CalmFirst;
    if !b.Skip? {
      CalmFirstMeaning(env, b, st, tr, fuel);
      var r := ExecFirst(env, false, b, false, st, tr, fuel);
      if r.Done? && r.how.Normal? { CalmMeaning(env, b.next, r.store, r.trace, fuel); }
    }
  }

  lemma {:induction false} CalmFirstMeaning(env: Env, b: Prog, st: Store, tr: seq<Event>, fuel: nat)
    requires !b.Skip? && CalmFirst(env, b, st, tr, fuel)
    ensures ExecFirst(env, true, b, false, st, tr, fuel) == ExecFirst(env, false, b, false, st, tr, fuel)
    decreases b, 0
  {
    hide Exec, ExecWhile, ExecItems, Calm;
    match b
    case Leaf(_, _) =>
    case Block(k, head, body, _, _) =>
      match k {
        case KIf => if env.cond(head, st) { CalmMeaning(env, body, st, tr, fuel); }
        case KWhile => WhileMeaning(env, head, body, st, tr, fuel);
        case KForeach =>
          var h := env.head(head, st);
          if h.Items? { ItemsMeaning(env, h.name, h.items, body, st, tr, fuel); }
      }
    case IfElse(head, thn, _, els, _, _) =>
      if env.cond(head, st) {
        CalmMeaning(env, thn, st, tr, fuel);
      } else {
        CalmMeaning(env, els, st, tr, fuel);
      }
  }

  /** A list outside every loop with no `break` in the first branch of an if/else that no
      loop surrounds; `inThen`: such a branch is around this list. */
  ghost predicate Tame(env: Env, b: Prog, inThen: bool)
    decreases b, 1
  {
    b.Skip? || (TameFirst(env, b, inThen) && Tame(env, b.next, inThen))
  }

  ghost predicate TameFirst(env: Env, b: Prog, inThen: bool)
    requires !b.Skip?
    decreases b, 0
  {
    match b
    case Leaf(text, _) => inThen ==> forall st :: !env.word(text, st).Break?
    case Block(k, _, body, _, _) => k.KIf? ==> Tame(env, body, inThen)
    case IfElse(_, thn, _, els, _, _) => Tame(env, thn, true) && Tame(env, els, inThen)
  }

  /** Every run of a tame list is calm, and a first branch never strays. */
  lemma {:induction false} TameIsCalm(env: Env, b: Prog, inThen: bool, st: Store, tr: seq<Event>, fuel: nat)
    requires Tame(env, b, inThen)
    ensures Calm(env, b, st, tr, fuel)
    ensures inThen ==> !Strays(Exec(env, false, b, false, st, tr, fuel))
    decreases b, 1
  {
    hide ExecFirst, CalmFirst, TameFirst;
    if !b.Skip? {
      TameFirstIsCalm(env, b, inThen, st, tr, fuel);
      var r := ExecFirst(env, false, b, false, st, tr, fuel);
      if r.Done? && r.how.Normal? { TameIsCalm(env, b.next, inThen, r.store, r.trace, fuel); }
    }
  }

  lemma {:induction false} TameFirstIsCalm(env: Env, b: Prog, inThen: bool, st: Store, tr: seq<Event>, fuel: nat)
    requires !b.Skip? && TameFirst(env, b, inThen)
    ensures CalmFirst(env, b, st, tr, fuel)
    ensures inThen ==> !Strays(ExecFirst(env, false, b, false, st, tr, fuel))
    decreases b, 0
  {
    hide Exec, ExecWhile, ExecItems, Tame, Calm;
    match b
    case Leaf(_, _) =>
    case Block(k, _, body, _, _) => if k.KIf? { TameIsCalm(env, body, inThen, st, tr, fuel); }
    case IfElse(_, thn, _, els, _, _) =>
      TameIsCalm(env, thn, true, st, tr, fuel);
      TameIsCalm(env, els, inThen, st, tr, fuel);
  }

  /** So on a tame list csh does what it says. */
  lemma TameMeaning(env: Env, b: Prog, st: Store, tr: seq<Event>, fuel: nat)
    requires Tame(env, b, false)
    ensures Exec(env, true, b, false, st, tr, fuel) == Exec(env, false, b, false, st, tr, fuel)
  {
    hide *;
    TameIsCalm(env, b, false, st, tr, fuel);
    CalmMeaning(env, b, st, tr, fuel);
  }

  // ----- placement in a flat script -----

  predicate LineAt(lines: seq<string>, p: nat, text: string) {
    p < |lines| && lines[p] == text
  }

  /** The lines from p on are those of b. */
  predicate Located(lines: seq<string>, p: nat, b: Prog)
    decreases b, 1
  {
    if b.Skip? then p <= |lines| else LocatedFirst(lines, p, b) && Located(lines, p + First(b), b.next)
  }

  predicate LocatedFirst(lines: seq<string>, p: nat, b: Prog)
    requires !b.Skip?
    decreases b, 0
  {
    match b
    case Leaf(text, _) => LineAt(lines, p, text)
    case Block(_, head, body, close, _) => Bracketed(lines, p, head, body, close)
    case IfElse(head, thn, mid, els, close, _) =>
      Bracketed(lines, p, head, thn, mid) && Bracketed(lines, p + 1 + Len(thn), mid, els, close)
  }

  predicate Bracketed(lines: seq<string>, p: nat, head: string, body: Prog, close: string)
    decreases body, 2
  {
    LineAt(lines, p, head) && Located(lines, p + 1, body) && LineAt(lines, p + 1 + Len(body), close)
  }

  /** The end table closes the blocks of b, whose lines start at p. */
  predicate Tabled(sc: Script, p: nat, b: Prog)
    decreases b, 1
  {
    b.Skip? || (TabledFirst(sc, p, b) && Tabled(sc, p + First(b), b.next))
  }

  predicate TabledFirst(sc: Script, p: nat, b: Prog)
    requires !b.Skip?
    decreases b, 0
  {
    match b
    case Leaf(_, _) => true
    case Block(_, _, body, _, _) => EndOf(sc, p) == p + 1 + Len(body) && Tabled(sc, p + 1, body)
    case IfElse(_, thn, _, els, _, _) =>
      EndOf(sc, p) == p + 1 + Len(thn) + 1 + Len(els) && Tabled(sc, p + 1, thn) && Tabled(sc, p + 1 + Len(thn) + 1, els)
  }
}
