/** The whole-script theorem for csh: the block pass and the machine together
    compute the meaning of the block tree. */
module CshTheorem {
  import opened Options
  import opened CshMachine
  import opened CshStructured
  import opened CshBlocks
  import opened CshSkip
  import opened CshLive
  import opened Seqs

  function BlockPart(w: Word): Word { if Simple(w) then Command else w }

  /** The run reads every line's block word as the block pass did. */
  ghost predicate Agree(env: Env, lines: seq<string>) {
    forall i, st :: 0 <= i < |lines| ==> BlockPart(env.word(lines[i], st)) == BlockWord(lines[i])
  }

  // ----- a tree in its own flat lines -----

  lemma {:induction false} FlatLength(b: Prog)
    ensures |Flat(b)| == Len(b)
    ensures !b.Skip? ==> |FlatFirst(b)| == First(b)
  {
    if !b.Skip? {
      FlatLength(b.next);
      match b
      case Leaf(_, _) =>
      case Block(_, _, body, _, _) => FlatLength(body);
      case IfElse(_, thn, _, els, _, _) => FlatLength(thn); FlatLength(els);
    }
  }

  lemma {:induction false} FlatBracketed(lines: seq<string>, p: nat, head: string, body: Prog, close: string)
    requires p + 2 + Len(body) <= |lines|
    requires lines[p..p + 2 + Len(body)] == [head] + Flat(body) + [close]
    ensures Bracketed(lines, p, head, body, close)
    decreases Len(body), 2
  {
    hide Flat, Located;
    FlatLength(body);
    var part := lines[p..p + 2 + Len(body)];
    assert part[0] == lines[p] && part[1 + Len(body)] == lines[p + 1 + Len(body)];
    SubSlice(lines, p, p + 2 + Len(body), 1, 1 + Len(body));
    Inner(head, Flat(body), close);
    FlatLocated(lines, p + 1, body);
  }

  lemma {:induction false} FlatBranches(lines: seq<string>, p: nat, head: string, thn: Prog, mid: string, els: Prog, close: string)
    requires p + 3 + Len(thn) + Len(els) <= |lines|
    requires lines[p..p + 3 + Len(thn) + Len(els)] == [head] + Flat(thn) + [mid] + Flat(els) + [close]
    ensures Bracketed(lines, p, head, thn, mid) && Bracketed(lines, p + 1 + Len(thn), mid, els, close)
    decreases Max(Len(thn), Len(els)), 3
  {
    hide Bracketed, Flat, Len;
    FlatLength(thn);
    FlatLength(els);
    var end := p + 3 + Len(thn) + Len(els);
    Halves(head, Flat(thn), mid, Flat(els), close);
    SubSlice(lines, p, end, 0, 2 + Len(thn));
    FlatBracketed(lines, p, head, thn, mid);
    SubSlice(lines, p, end, 1 + Len(thn), 3 + Len(thn) + Len(els));
    FlatBracketed(lines, p + 1 + Len(thn), mid, els, close);
  }

  lemma {:induction false} FlatLocatedFirst(lines: seq<string>, p: nat, b: Prog)
    requires !b.Skip? && p + First(b) <= |lines| && lines[p..p + First(b)] == FlatFirst(b)
    ensures LocatedFirst(lines, p, b)
    decreases Len(b), 0
  {
    hide Bracketed, Flat;
    assert Len(b) == First(b) + Len(b.next);
    match b
    case Leaf(_, _) => assert lines[p..p + 1][0] == lines[p];
    case Block(_, head, body, close, _) => FlatBracketed(lines, p, head, body, close);
    case IfElse(head, thn, mid, els, close, _) => FlatBranches(lines, p, head, thn, mid, els, close);
  }

  lemma {:induction false} FlatLocated(lines: seq<string>, p: nat, b: Prog)
    requires p + Len(b) <= |lines| && lines[p..p + Len(b)] == Flat(b)
    ensures Located(lines, p, b)
    decreases Len(b), 1
  {
    hide LocatedFirst, FlatFirst, First;
    if !b.Skip? {
      FlatLength(b);
      var part := lines[p..p + Len(b)];
      assert lines[p..p + First(b)] == part[..First(b)];
      assert part[..First(b)] == FlatFirst(b);
      FlatLocatedFirst(lines, p, b);
      assert lines[p + First(b)..p + First(b) + Len(b.next)] == part[First(b)..];
      assert part[First(b)..] == Flat(b.next);
      FlatLocated(lines, p + First(b), b.next);
    }
  }

  // ----- depth over a located tree -----

  lemma WordAt(env: Env, lines: seq<string>, p: nat, w: Word)
    requires Agree(env, lines) && p < |lines| && Always(env, lines[p], w)
    ensures Words(lines)[p] == BlockPart(w)
  {
    var st := Store(map[], 0);
    assert env.word(lines[p], st) == w;
  }

  /** From line p to line q the depth never falls below the depth at p and ends there;
      closing lines and `else` lines in between stand deeper. */
  ghost predicate Level(ws: seq<Word>, p: int, q: int) {
    && 0 <= p <= q <= |ws| && Depth(ws, q) == Depth(ws, p)
    && (forall k :: p <= k <= q ==> Depth(ws, k) >= Depth(ws, p))
    && forall k :: p <= k < q && (Closes(ws[k]) || ws[k].Else?) ==> Depth(ws, k) > Depth(ws, p)
  }

  lemma LevelBlock(ws: seq<Word>, p: nat, q: nat)
    requires p < q < |ws| && Opens(ws[p]) && Closes(ws[q]) && Level(ws, p + 1, q)
    ensures Matches(ws, p, q) && Level(ws, p, q + 1)
  {
    assert forall k :: p < k <= q ==> Depth(ws, k) >= Depth(ws, p + 1);
  }

  lemma LevelIfElse(ws: seq<Word>, p: nat, m: nat, q: nat)
    requires p < m < q < |ws| && Opens(ws[p]) && ws[m].Else? && Closes(ws[q])
    requires Level(ws, p + 1, m) && Level(ws, m + 1, q)
    ensures Matches(ws, p, q) && Level(ws, p, q + 1)
  {
    assert Depth(ws, m + 1) == Depth(ws, m) == Depth(ws, p) + 1;
    assert forall k :: p < k <= m ==> Depth(ws, k) >= Depth(ws, p + 1);
    assert forall k :: m < k <= q ==> Depth(ws, k) >= Depth(ws, m + 1);
  }

  lemma LeafLevel(env: Env, lines: seq<string>, p: nat)
    requires Agree(env, lines) && p < |lines| && forall st :: Simple(env.word(lines[p], st))
    ensures Level(Words(lines), p, p + 1)
  {
    assert Simple(env.word(lines[p], Store(map[], 0)));
    assert Words(lines)[p] == Command;
  }

  lemma {:induction false} BlockLevel(env: Env, lines: seq<string>, p: nat, k: Kind, head: string, body: Prog, close: string)
    requires Agree(env, lines) && Sound(env, body) && Bracketed(lines, p, head, body, close)
    requires Always(env, head, OpenWord(k)) && Always(env, close, CloseWord(k))
    ensures p + 2 + Len(body) <= |lines|
    ensures Level(Words(lines), p, p + 2 + Len(body)) && Matches(Words(lines), p, p + 1 + Len(body))
    decreases Len(body), 3
  {
    hide Agree, Depth, BlockWord, Level, Matches, Located, Sound;
    WordAt(env, lines, p, OpenWord(k));
    WordAt(env, lines, p + 1 + Len(body), CloseWord(k));
    TreeLevel(env, lines, p + 1, body);
    LevelBlock(Words(lines), p, p + 1 + Len(body));
  }

  lemma {:induction false} IfElseLevel(env: Env, lines: seq<string>, p: nat, head: string, thn: Prog, mid: string, els: Prog, close: string)
    requires Agree(env, lines) && Sound(env, thn) && Sound(env, els)
    requires Bracketed(lines, p, head, thn, mid) && Bracketed(lines, p + 1 + Len(thn), mid, els, close)
    requires Always(env, head, If) && Always(env, mid, Else) && Always(env, close, Endif)
    ensures p + 3 + Len(thn) + Len(els) <= |lines|
    ensures Level(Words(lines), p, p + 3 + Len(thn) + Len(els))
    ensures Matches(Words(lines), p, p + 2 + Len(thn) + Len(els))
    decreases Max(Len(thn), Len(els)), 3
  {
    hide Agree, Depth, BlockWord, Level, Matches, Located, Sound;
    var m := p + 1 + Len(thn);
    var q := m + 1 + Len(els);
    WordAt(env, lines, p, If);
    WordAt(env, lines, m, Else);
    WordAt(env, lines, q, Endif);
    TreeLevel(env, lines, p + 1, thn);
    TreeLevel(env, lines, m + 1, els);
    LevelIfElse(Words(lines), p, m, q);
  }

  lemma {:induction false} TreeFirstLevel(env: Env, lines: seq<string>, p: nat, b: Prog)
    requires Agree(env, lines) && !b.Skip? && SoundFirst(env, b) && LocatedFirst(lines, p, b)
    ensures p + First(b) <= |lines| && Level(Words(lines), p, p + First(b))
    ensures !b.Leaf? ==> Matches(Words(lines), p, p + First(b) - 1)
    decreases Len(b), 1
  {
    hide Agree, Depth, BlockWord, Level, Matches, Bracketed, Sound;
    assert Len(b) == First(b) + Len(b.next);
    match b
    case Leaf(_, _) => LeafLevel(env, lines, p);
    case Block(k, head, body, close, _) => BlockLevel(env, lines, p, k, head, body, close);
    case IfElse(head, thn, mid, els, close, _) => IfElseLevel(env, lines, p, head, thn, mid, els, close);
  }

  lemma {:induction false} TreeLevel(env: Env, lines: seq<string>, p: nat, b: Prog)
    requires Agree(env, lines) && Sound(env, b) && Located(lines, p, b)
    ensures p + Len(b) <= |lines| && Level(Words(lines), p, p + Len(b))
    decreases Len(b), 2
  {
    hide Agree, Depth, BlockWord, First, LocatedFirst, SoundFirst;
    if !b.Skip? {
      TreeFirstLevel(env, lines, p, b);
      TreeLevel(env, lines, p + First(b), b.next);
    }
  }

  /** The block pass accepts the lines of a tree. */
  lemma TreeBalanced(env: Env, b: Prog)
    requires Agree(env, Flat(b)) && Sound(env, b)
    ensures Balanced(Words(Flat(b)))
  {
    hide Agree, BlockWord, Located, Sound, Flat;
    var lines := Flat(b);
    FlatLength(b);
    assert lines[0..0 + Len(b)] == Flat(b);
    FlatLocated(lines, 0, b);
    TreeLevel(env, lines, 0, b);
  }

  // ----- the end table closes the tree's blocks -----

  lemma TableAt(sc: Script, p: int, q: int)
    requires EndTable(Words(sc.lines), sc.ends) && Matches(Words(sc.lines), p, q)
    ensures EndOf(sc, p) == q
  {
    MatchUnique(Words(sc.lines), p, sc.ends[p], q);
  }

  lemma {:induction false} TreeTabledFirst(sc: Script, p: nat, b: Prog)
    requires Agree(sc.env, sc.lines) && EndTable(Words(sc.lines), sc.ends)
    requires !b.Skip? && SoundFirst(sc.env, b) && LocatedFirst(sc.lines, p, b)
    ensures TabledFirst(sc, p, b)
    decreases Len(b), 0
  {
    hide Agree, EndTable, BlockWord, Level, Matches, Located, Sound, Tabled;
    assert Len(b) == First(b) + Len(b.next);
    TreeFirstLevel(sc.env, sc.lines, p, b);
    if !b.Leaf? { TableAt(sc, p, p + First(b) - 1); }
    match b
    case Leaf(_, _) =>
    case Block(k, _, body, _, _) => TreeTabled(sc, p + 1, body);
    case IfElse(_, thn, _, els, _, _) =>
      TreeTabled(sc, p + 1, thn);
      TreeTabled(sc, p + 1 + Len(thn) + 1, els);
  }

  lemma {:induction false} TreeTabled(sc: Script, p: nat, b: Prog)
    requires Agree(sc.env, sc.lines) && EndTable(Words(sc.lines), sc.ends)
    requires Sound(sc.env, b) && Located(sc.lines, p, b)
    ensures Tabled(sc, p, b)
    decreases Len(b), 1
  {
    hide Agree, EndTable, LocatedFirst, SoundFirst, TabledFirst, First;
    if !b.Skip? {
      TreeTabledFirst(sc, p, b);
      TreeTabled(sc, p + First(b), b.next);
    }
  }

  // ----- the theorem -----

  /** t is a halted state that shows the result r. */
  ghost predicate Shows(sc: Script, t: State, r: Result) {
    && r.Done? && Halted(sc, t)
    && t.store == r.store && t.trace == r.trace
    && t.exited == (if r.how.Exited? then Some(r.how.code) else None)
    && (t.exited.None? ==> t.stack == [])
  }

  /** A well-nested script with its end table, within the machine's limits. */
  ghost predicate Runnable(sc: Script, b: Prog) {
    && sc.lines == Flat(b) && Sound(sc.env, b) && Nesting(b) <= 32
    && Agree(sc.env, sc.lines) && EndTable(Words(sc.lines), sc.ends)
  }

  function Start(st: Store): State { At([], 0, st, []) }

  /** What the script says. */
  function Meaning(sc: Script, b: Prog, st: Store, fuel: nat): Result {
    Exec(sc.env, false, b, false, st, [], fuel)
  }

  /** What csh does with it. */
  function Effect(sc: Script, b: Prog, st: Store, fuel: nat): Result {
    Exec(sc.env, true, b, false, st, [], fuel)
  }

  lemma HaltStays(sc: Script, m: nat, n: nat, s: State)
    requires Halted(sc, Steps(sc, m, s)) && m <= n
    ensures Steps(sc, n, s) == Steps(sc, m, s)
  {
    StepsAdd(sc, m, n - m, s);
  }

  /** Every well-nested script: the machine halts with the effect, or is still running when the fuel is gone. */
  lemma ScriptRuns(sc: Script, b: Prog, st: Store, fuel: nat) returns (n: nat)
    requires Runnable(sc, b)
    ensures var r := Effect(sc, b, st, fuel);
      var t := Steps(sc, n, Start(st));
      if r.Done? then Shows(sc, t, r) else n >= fuel && !Halted(sc, t)
  {
    hide Next, Steps, Exec, Agree, EndTable, Sound, Located, Tabled, Flat;
    FlatLength(b);
    assert sc.lines[0..0 + Len(b)] == Flat(b);
    FlatLocated(sc.lines, 0, b);
    TreeTabled(sc, 0, b);
    n := Sim(sc, b, Start(st), false, fuel);
  }

  lemma EffectIsReached(sc: Script, b: Prog, st: Store, fuel: nat)
    requires Runnable(sc, b) && Effect(sc, b, st, fuel).Done?
    ensures exists n :: Shows(sc, Steps(sc, n, Start(st)), Effect(sc, b, st, fuel))
  {
    hide Steps, Exec;
    var n := ScriptRuns(sc, b, st, fuel);
  }

  /** A run that halts shows the effect; so a script without one keeps the machine running. */
  lemma HaltedRunShows(sc: Script, b: Prog, st: Store, n: nat)
    requires Runnable(sc, b) && Halted(sc, Steps(sc, n, Start(st)))
    ensures Shows(sc, Steps(sc, n, Start(st)), Effect(sc, b, st, n + 1))
  {
    hide Steps, Exec;
    var m := ScriptRuns(sc, b, st, n + 1);
    HaltStays(sc, n, Max(m, n), Start(st));
    if Effect(sc, b, st, n + 1).Done? {
      HaltStays(sc, m, Max(m, n), Start(st));
    }
  }

  /** A calm run: csh does what the script says, */
  lemma CalmIsReached(sc: Script, b: Prog, st: Store, fuel: nat)
    requires Runnable(sc, b) && Calm(sc.env, b, st, [], fuel) && Meaning(sc, b, st, fuel).Done?
    ensures exists n :: Shows(sc, Steps(sc, n, Start(st)), Meaning(sc, b, st, fuel))
  {
    hide Steps, Exec, Runnable, Calm;
    CalmMeaning(sc.env, b, st, [], fuel);
    EffectIsReached(sc, b, st, fuel);
  }

  /** and when it halts it shows the meaning. */
  lemma CalmRunMeans(sc: Script, b: Prog, st: Store, n: nat)
    requires Runnable(sc, b) && Calm(sc.env, b, st, [], n + 1) && Halted(sc, Steps(sc, n, Start(st)))
    ensures Shows(sc, Steps(sc, n, Start(st)), Meaning(sc, b, st, n + 1))
  {
    hide Steps, Exec, Runnable, Calm;
    CalmMeaning(sc.env, b, st, [], n + 1);
    HaltedRunShows(sc, b, st, n);
  }

  /** Without a `break` in the first branch of an if/else outside every loop, every run is calm: */
  lemma MeaningIsReached(sc: Script, b: Prog, st: Store, fuel: nat)
    requires Runnable(sc, b) && Tame(sc.env, b, false) && Meaning(sc, b, st, fuel).Done?
    ensures exists n :: Shows(sc, Steps(sc, n, Start(st)), Meaning(sc, b, st, fuel))
  {
    hide *;
    TameIsCalm(sc.env, b, false, st, [], fuel);
    CalmIsReached(sc, b, st, fuel);
  }

  lemma HaltedRunMeans(sc: Script, b: Prog, st: Store, n: nat)
    requires Runnable(sc, b) && Tame(sc.env, b, false) && Halted(sc, Steps(sc, n, Start(st)))
    ensures Shows(sc, Steps(sc, n, Start(st)), Meaning(sc, b, st, n + 1))
  {
    hide *;
    TameIsCalm(sc.env, b, false, st, [], n + 1);
    CalmRunMeans(sc, b, st, n);
  }
}
