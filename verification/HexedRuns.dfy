/** Whole runs of hexed's commands (usr/bin/hexed.c): what they do to the bytes
    shown, and which byte undo takes back. */
module HexedRuns {
  import opened HexedOverlay

  // ----- against a plain byte array -----

  /** The bytes on disk and the bytes shown, and nothing else. */
  datatype Plain = Plain(file: seq<Byte>, view: seq<Byte>)

  function Shown(s: Pending): (p: Plain) { Plain(s.file, View(s.file, s.edits)) }

  ghost predicate Differs(p: Plain, o: int) {
    0 <= o < |p.file| == |p.view| && p.view[o] != p.file[o]
  }

  ghost function Changed(p: Plain): set<int> {
    set o | 0 <= o < |p.file| && Differs(p, o)
  }

  /** One command on the plain array. Typing is refused only where it would change one byte
      too many; undo takes back one changed byte; save writes what is shown. */
  ghost predicate PlainStep(p: Plain, c: Command, q: Plain) {
    match c
    case Type(off, val) =>
      q == if 0 <= off < |p.view| && (Differs(p, off) || |Changed(p)| < 8192) then p.(view := p.view[off := val]) else p
    case Undo =>
      if p.view == p.file then q == p
      else exists o :: Differs(p, o) && q == p.(view := p.view[o := p.file[o]])
    case Save => q == Plain(p.view, p.view)
  }

  function Offsets(edits: seq<Edit>): (r: set<int>) { set i | 0 <= i < |edits| :: edits[i].off }

  lemma OffsetsMore(edits: seq<Edit>, x: Edit)
    ensures Offsets(edits + [x]) == Offsets(edits) + {x.off}
  {
    var more := edits + [x];
    assert forall i :: 0 <= i < |edits| ==> more[i] == edits[i];
    assert more[|edits|] == x;
    forall o | o in Offsets(edits) ensures o in Offsets(more) {
      var i :| 0 <= i < |edits| && edits[i].off == o;
      assert more[i].off == o;
    }
  }

  lemma OffsetsFresh(file: seq<Byte>, edits: seq<Edit>, x: Edit)
    requires Distinct(file, edits + [x])
    ensures Distinct(file, edits) && x.off !in Offsets(edits)
  {
    var more := edits + [x];
    assert forall i :: 0 <= i < |edits| ==> more[i] == edits[i];
    assert more[|edits|] == x;
  }

  lemma {:induction false} OffsetsCount(file: seq<Byte>, edits: seq<Edit>)
    requires Distinct(file, edits)
    ensures |Offsets(edits)| == |edits|
    decreases |edits|
  {
    if edits != [] {
      hide Distinct, Offsets;
      var n := |edits| - 1;
      var rest, x := edits[..n], edits[n];
      assert edits == rest + [x];
      OffsetsFresh(file, rest, x);
      OffsetsCount(file, rest);
      OffsetsMore(rest, x);
    }
  }

  /** A byte has an edit exactly when it is shown other than it is on disk. */
  lemma EditedMeans(s: Pending, o: int)
    requires Exact(s.file, s.edits)
    ensures Find(s.edits, o) >= 0 <==> Differs(Shown(s), o)
  {
    hide Find;
    var e := Find(s.edits, o);
    if e >= 0 { EditShows(s.file, s.edits, e); }
  }

  lemma ChangedCount(s: Pending)
    requires Exact(s.file, s.edits)
    ensures |Changed(Shown(s))| == |s.edits|
  {
    hide Find;
    OffsetsCount(s.file, s.edits);
    forall o ensures o in Changed(Shown(s)) <==> o in Offsets(s.edits) {
      EditedMeans(s, o);
      var e := Find(s.edits, o);
      if e >= 0 { assert s.edits[e].off == o; }
    }
    assert Changed(Shown(s)) == Offsets(s.edits);
  }

  /** Each command does to what is shown what it does to a plain array. */
  lemma StepRefines(s: Pending, c: Command)
    requires Exact(s.file, s.edits) && |s.edits| <= 8192
    ensures PlainStep(Shown(s), c, Shown(Do(s, c)))
  {
    hide Find, Put;
    match c
    case Type(off, val) =>
      if 0 <= off < |s.file| {
        PutShows(s.file, s.edits, off, val);
        EditedMeans(s, off);
        ChangedCount(s);
      }
    case Undo =>
      DirtyMeans(s.file, s.edits);
      if s.edits != [] {
        UndoShows(s.file, s.edits);
        var o := s.edits[|s.edits| - 1].off;
        EditShows(s.file, s.edits, |s.edits| - 1);
        assert Differs(Shown(s), o);
      }
    case Save => assert View(View(s.file, s.edits), []) == View(s.file, s.edits);
  }

  /** So every run of commands is a run on the plain array, step by step. */
  lemma RunRefines(file: seq<Byte>, commands: seq<Command>)
    ensures Shown(DoAll(Pending(file, []), [])) == Plain(file, file)
    ensures forall i :: 0 <= i < |commands| ==>
      PlainStep(Shown(DoAll(Pending(file, []), commands[..i])), commands[i], Shown(DoAll(Pending(file, []), commands[..i + 1])))
  {
    hide Find, Put, View, PlainStep;
    DirtyMeans(file, []);
    forall i | 0 <= i < |commands|
      ensures PlainStep(Shown(DoAll(Pending(file, []), commands[..i])), commands[i], Shown(DoAll(Pending(file, []), commands[..i + 1])))
    {
      EveryRun(file, commands[..i]);
      StepRefines(DoAll(Pending(file, []), commands[..i]), commands[i]);
      assert commands[..i + 1][..i] == commands[..i];
    }
  }

  // ----- which byte undo takes back -----

  /** The list after a run of commands on a freshly opened file. */
  function After(file: seq<Byte>, commands: seq<Command>): Pending { DoAll(Pending(file, []), commands) }

  predicate Edited(file: seq<Byte>, commands: seq<Command>, o: int) {
    Find(After(file, commands).edits, o) >= 0
  }

  /** How long the run was when the byte came to differ from the disk, as it has since;
      typing it again does not renew it. */
  function Since(file: seq<Byte>, commands: seq<Command>, o: int): (n: nat)
    ensures n <= |commands|
    decreases |commands|
  {
    if !Edited(file, commands, o) then 0
    else if commands != [] && Edited(file, commands[..|commands| - 1], o) then Since(file, commands[..|commands| - 1], o)
    else |commands|
  }

  /** Of all changed bytes this one was changed last. */
  ghost predicate Newest(file: seq<Byte>, commands: seq<Command>, o: int) {
    && Edited(file, commands, o)
    && forall p :: Edited(file, commands, p) && p != o ==> Since(file, commands, p) < Since(file, commands, o)
  }

  /** The list stands in the order in which its bytes were changed. */
  ghost predicate InOrder(file: seq<Byte>, commands: seq<Command>) {
    var edits := After(file, commands).edits;
    forall i, j :: 0 <= i < j < |edits| ==> Since(file, commands, edits[i].off) < Since(file, commands, edits[j].off)
  }

  /** The command types a pending byte's own value back, which drops its edit. */
  predicate Drops(s: Pending, c: Command) {
    c.Type? && 0 <= c.off < |s.file| && Find(s.edits, c.off) >= 0 && c.val == s.edits[Find(s.edits, c.off)].orig
  }

  /** An edit that is dropped is one of the last two. */
  predicate Mild(s: Pending, c: Command) {
    Drops(s, c) ==> Find(s.edits, c.off) >= |s.edits| - 2
  }

  ghost predicate MildRun(file: seq<Byte>, commands: seq<Command>) {
    forall i :: 0 <= i < |commands| ==> Mild(After(file, commands[..i]), commands[i])
  }

  /** The list without entry `e`, the others in their order. */
  function Removed(edits: seq<Edit>, e: nat): seq<Edit>
    requires e < |edits|
  {
    edits[..e] + edits[e + 1..]
  }

  /** `Do` with a list that deletes in place. */
  function DoInPlace(s: Pending, c: Command): Pending {
    if Drops(s, c) then s.(edits := Removed(s.edits, Find(s.edits, c.off))) else Do(s, c)
  }

  function AfterInPlace(file: seq<Byte>, commands: seq<Command>): Pending
    decreases |commands|
  {
    if commands == [] then Pending(file, [])
    else DoInPlace(AfterInPlace(file, commands[..|commands| - 1]), commands[|commands| - 1])
  }

  /** The swap-removal is a deletion in place exactly for the last two edits. */
  lemma SwapIsDelete(s: Pending, c: Command)
    requires Exact(s.file, s.edits) && Drops(s, c)
    ensures Do(s, c) == DoInPlace(s, c) <==> Find(s.edits, c.off) >= |s.edits| - 2
  {
    hide Find;
    var e, n := Find(s.edits, c.off), |s.edits| - 1;
    var swapped, removed := Do(s, c).edits, Removed(s.edits, e);
    if e < n - 1 {
      assert swapped[e] == s.edits[n] && removed[e] == s.edits[e + 1];
    } else {
      assert swapped == removed;
    }
  }

  ghost predicate Alike(file: seq<Byte>, commands: seq<Command>) {
    forall i :: 0 <= i <= |commands| ==> After(file, commands[..i]) == AfterInPlace(file, commands[..i])
  }

  lemma MildMore(file: seq<Byte>, before: seq<Command>, c: Command)
    ensures MildRun(file, before + [c]) <==> MildRun(file, before) && Mild(After(file, before), c)
  {
    hide After, Mild;
    var all := before + [c];
    assert forall i :: 0 <= i <= |before| ==> all[..i] == before[..i];
    assert before[..|before|] == before && all[|before|] == c;
  }

  lemma AlikeMore(file: seq<Byte>, before: seq<Command>, c: Command)
    ensures Alike(file, before + [c]) <==>
      Alike(file, before) && After(file, before + [c]) == AfterInPlace(file, before + [c])
  {
    hide After, AfterInPlace;
    var all := before + [c];
    assert forall i :: 0 <= i <= |before| ==> all[..i] == before[..i];
    assert all[..|all|] == all;
  }

  lemma AfterMore(file: seq<Byte>, before: seq<Command>, c: Command)
    ensures After(file, before + [c]) == Do(After(file, before), c)
    ensures AfterInPlace(file, before + [c]) == DoInPlace(AfterInPlace(file, before), c)
  {
    hide Do, DoInPlace;
    assert (before + [c])[..|before|] == before;
  }

  /** So a run agrees with in-place deletion at every step exactly when every edit that
      was dropped was one of the last two. */
  lemma {:induction false} RunsAlike(file: seq<Byte>, commands: seq<Command>)
    ensures MildRun(file, commands) <==> Alike(file, commands)
    decreases |commands|
  {
    if commands == [] { return; }
    hide *;
    var n := |commands| - 1;
    var before, c := commands[..n], commands[n];
    assert commands == before + [c];
    RunsAlike(file, before);
    MildMore(file, before, c);
    AlikeMore(file, before, c);
    AfterMore(file, before, c);
    AfterExact(file, before);
    AlikeStep(After(file, before), c);
    AlikeLast(file, before);
  }

  lemma AlikeLast(file: seq<Byte>, commands: seq<Command>)
    ensures Alike(file, commands) ==> After(file, commands) == AfterInPlace(file, commands)
  {
    assert commands[..|commands|] == commands;
  }

  lemma AfterExact(file: seq<Byte>, commands: seq<Command>)
    ensures Exact(After(file, commands).file, After(file, commands).edits)
  {
    EveryRun(file, commands);
  }

  lemma AlikeStep(s: Pending, c: Command)
    requires Exact(s.file, s.edits)
    ensures Mild(s, c) <==> Do(s, c) == DoInPlace(s, c)
  {
    hide Find, Do;
    if Drops(s, c) { SwapIsDelete(s, c); }
  }

  /** A byte that stays changed keeps its place in time. */
  lemma SinceKeeps(file: seq<Byte>, before: seq<Command>, c: Command, o: int)
    requires Edited(file, before, o)
    ensures Edited(file, before + [c], o) ==> Since(file, before + [c], o) == Since(file, before, o) < |before + [c]|
  {
    hide Edited;
    assert (before + [c])[..|before|] == before;
  }

  lemma SinceStarts(file: seq<Byte>, before: seq<Command>, c: Command, o: int)
    requires !Edited(file, before, o) && Edited(file, before + [c], o)
    ensures Since(file, before + [c], o) == |before + [c]|
  {
    hide Edited;
    assert (before + [c])[..|before|] == before;
  }

  lemma EditedHere(file: seq<Byte>, commands: seq<Command>, i: nat)
    requires i < |After(file, commands).edits|
    ensures Edited(file, commands, After(file, commands).edits[i].off)
  {
    hide After;
  }

  /** A list made of entries from the one before, in their order, is in order. */
  lemma OrderKept(file: seq<Byte>, before: seq<Command>, c: Command, from: seq<nat>)
    requires InOrder(file, before) && |from| == |After(file, before + [c]).edits|
    requires forall i :: 0 <= i < |from| ==> from[i] < |After(file, before).edits|
    requires forall i :: 0 <= i < |from| ==> After(file, before).edits[from[i]].off == After(file, before + [c]).edits[i].off
    requires forall i, j :: 0 <= i < j < |from| ==> from[i] < from[j]
    ensures InOrder(file, before + [c])
  {
    hide After, Edited, Since;
    var was, now := After(file, before).edits, After(file, before + [c]).edits;
    forall i | 0 <= i < |now| ensures Since(file, before + [c], now[i].off) == Since(file, before, was[from[i]].off) {
      EditedHere(file, before, from[i]);
      EditedHere(file, before + [c], i);
      SinceKeeps(file, before, c, now[i].off);
    }
  }

  /** An entry added at the end of an ordered list. */
  lemma OrderGrows(file: seq<Byte>, before: seq<Command>, c: Command, x: Edit)
    requires InOrder(file, before) && !Edited(file, before, x.off)
    requires After(file, before + [c]).edits == After(file, before).edits + [x]
    ensures InOrder(file, before + [c])
  {
    hide After, Edited, Since;
    var was, now := After(file, before).edits, After(file, before + [c]).edits;
    forall i | 0 <= i < |was|
      ensures Since(file, before + [c], now[i].off) == Since(file, before, was[i].off) < |before + [c]|
    {
      EditedHere(file, before, i);
      EditedHere(file, before + [c], i);
      SinceKeeps(file, before, c, now[i].off);
    }
    EditedHere(file, before + [c], |was|);
    SinceStarts(file, before, c, x.off);
  }

  /** Entries 0 to n, without entry `gap`. */
  function Around(n: nat, gap: nat): (r: seq<nat>)
    ensures |r| == n && forall i :: 0 <= i < n ==> r[i] == if i < gap then i else i + 1
  {
    seq(n, i requires 0 <= i => if i < gap then i else i + 1)
  }

  /** A mild command keeps the list in order. */
  lemma OrderStep(file: seq<Byte>, before: seq<Command>, c: Command)
    requires InOrder(file, before) && Mild(After(file, before), c)
    ensures InOrder(file, before + [c])
  {
    hide Find, InOrder, After, Since, DoInPlace;
    var s, t := After(file, before), After(file, before + [c]);
    AfterMore(file, before, c);
    AfterExact(file, before);
    var n := |s.edits|;
    if c.Type? && |t.edits| > n {
      OrderGrows(file, before, c, t.edits[n]);
    } else if Drops(s, c) {
      SwapIsDelete(s, c);
      DropPlaces(s, c);
      OrderKept(file, before, c, Around(n - 1, Find(s.edits, c.off)));
    } else {
      OrderKept(file, before, c, Around(|t.edits|, n));
    }
  }

  lemma DropPlaces(s: Pending, c: Command)
    requires Drops(s, c)
    ensures var e := Find(s.edits, c.off); var t := DoInPlace(s, c).edits;
      && |t| == |s.edits| - 1
      && forall i :: 0 <= i < |t| ==> t[i] == s.edits[Around(|s.edits| - 1, e)[i]]
  {
    hide Find;
  }

  lemma {:induction false} MildInOrder(file: seq<Byte>, commands: seq<Command>)
    requires MildRun(file, commands)
    ensures InOrder(file, commands)
    decreases |commands|
  {
    if commands != [] {
      hide *;
      var n := |commands| - 1;
      var before, c := commands[..n], commands[n];
      assert commands == before + [c];
      MildMore(file, before, c);
      MildInOrder(file, before);
      OrderStep(file, before, c);
    }
  }

  lemma LastIsNewest(file: seq<Byte>, commands: seq<Command>)
    requires InOrder(file, commands) && After(file, commands).edits != []
    ensures var edits := After(file, commands).edits; Newest(file, commands, edits[|edits| - 1].off)
  {
    hide Find, After, Since;
    var edits := After(file, commands).edits;
    var last := |edits| - 1;
    EditedHere(file, commands, last);
    forall p | Edited(file, commands, p) && p != edits[last].off
      ensures Since(file, commands, p) < Since(file, commands, edits[last].off)
    {
      assert edits[Find(edits, p)].off == p;
    }
  }

  /** Undo takes back the byte that was changed last, after every run in which only one of the
      last two edits was ever dropped. */
  lemma UndoTakesNewest(file: seq<Byte>, commands: seq<Command>)
    requires MildRun(file, commands) && After(file, commands).edits != []
    ensures var s := After(file, commands); var o := s.edits[|s.edits| - 1].off;
      && Newest(file, commands, o) && 0 <= o < |s.file|
      && Shown(Do(s, Undo)) == Shown(s).(view := Shown(s).view[o := s.file[o]])
  {
    hide *;
    MildInOrder(file, commands);
    LastIsNewest(file, commands);
    AfterExact(file, commands);
    UndoDoes(After(file, commands));
  }

  lemma UndoDoes(s: Pending)
    requires Exact(s.file, s.edits) && s.edits != []
    ensures var o := s.edits[|s.edits| - 1].off;
      0 <= o < |s.file| && Shown(Do(s, Undo)) == Shown(s).(view := Shown(s).view[o := s.file[o]])
  {
    UndoShows(s.file, s.edits);
  }

  /** And the first time another edit is dropped, undo takes an older byte. */
  lemma UndoIsNewestExactly(file: seq<Byte>, commands: seq<Command>, c: Command)
    requires MildRun(file, commands) && Drops(After(file, commands), c) && |After(file, commands).edits| >= 2
    ensures var edits := After(file, commands + [c]).edits;
      edits != [] && (Newest(file, commands + [c], edits[|edits| - 1].off) <==> Mild(After(file, commands), c))
  {
    hide *;
    MildInOrder(file, commands);
    AfterMore(file, commands, c);
    AfterExact(file, commands);
    var s := After(file, commands);
    DropSwaps(s, c);
    if Mild(s, c) {
      OrderStep(file, commands, c);
      LastIsNewest(file, commands + [c]);
    } else {
      NotMild(s, c);
      MovedIsNewer(file, commands, c, Find(s.edits, c.off), |s.edits| - 1);
    }
  }

  lemma DropSwaps(s: Pending, c: Command)
    requires Drops(s, c)
    ensures c.Type?
    ensures var e, n := Find(s.edits, c.off), |s.edits| - 1;
      0 <= e <= n && Do(s, c).edits == s.edits[e := s.edits[n]][..n]
  {
    hide Find;
  }

  lemma NotMild(s: Pending, c: Command)
    requires !Mild(s, c)
    ensures c.Type? && Find(s.edits, c.off) < |s.edits| - 2
  {
  }

  lemma MovedIsNewer(file: seq<Byte>, commands: seq<Command>, c: Command, e: nat, n: nat)
    requires InOrder(file, commands) && n + 1 == |After(file, commands).edits| && e < n - 1
    requires After(file, commands + [c]).edits == After(file, commands).edits[e := After(file, commands).edits[n]][..n]
    requires Exact(After(file, commands).file, After(file, commands).edits)
    ensures !Newest(file, commands + [c], After(file, commands + [c]).edits[n - 1].off)
  {
    hide Find, After, Since;
    var was, now := After(file, commands).edits, After(file, commands + [c]).edits;
    assert now[e] == was[n] && now[n - 1] == was[n - 1];
    EditedHere(file, commands, n);
    EditedHere(file, commands, n - 1);
    EditedHere(file, commands + [c], e);
    EditedHere(file, commands + [c], n - 1);
    SinceKeeps(file, commands, c, was[n].off);
    SinceKeeps(file, commands, c, was[n - 1].off);
  }

  lemma TypeNew(s: Pending, o: int, val: Byte)
    requires 0 <= o < |s.file| && s.file[o] != val && |s.edits| < 8192
    requires forall i :: 0 <= i < |s.edits| ==> s.edits[i].off != o
    ensures Do(s, Type(o, val)) == s.(edits := s.edits + [Edit(o, val, s.file[o])])
  {
    hide Find;
  }

  lemma TypeBack(s: Pending)
    requires |s.edits| == 3 && Exact(s.file, s.edits)
    ensures Do(s, Type(s.edits[0].off, s.edits[0].orig)) == s.(edits := [s.edits[2], s.edits[1]])
  {
    hide Find;
    EditShows(s.file, s.edits, 0);
    assert s.edits[0 := s.edits[2]][..2] == [s.edits[2], s.edits[1]];
  }

  lemma OneShows(file: seq<Byte>, o: int, val: Byte)
    requires 0 <= o < |file|
    ensures View(file, [Edit(o, val, file[o])]) == file[o := val]
  {
    hide Find;
    EditShows(file, [Edit(o, val, file[o])], 0);
  }

  /** Three bytes changed in turn and the first typed back: undo restores the second and
      leaves the third, the newest. */
  lemma UndoIsNotTheNewest(file: seq<Byte>, i: int, x: Byte, j: int, y: Byte, k: int, z: Byte)
    requires 0 <= i < |file| && 0 <= j < |file| && 0 <= k < |file| && i != j && j != k && i != k
    requires x != file[i] && y != file[j] && z != file[k]
    ensures var s := After(file, [Type(i, x), Type(j, y), Type(k, z), Type(i, file[i])]);
      Shown(Do(s, Undo)).view == file[k := z]
  {
    hide Do, Find, View;
    var a, b, c := Edit(i, x, file[i]), Edit(j, y, file[j]), Edit(k, z, file[k]);
    var c1, c2, c3, c4 := Type(i, x), Type(j, y), Type(k, z), Type(i, file[i]);
    FourCommands(file, c1, c2, c3, c4);
    assert [] + [a] == [a] && [a] + [b] == [a, b] && [a, b] + [c] == [a, b, c];
    TypeNew(Pending(file, []), i, x);
    TypeNew(Pending(file, [a]), j, y);
    TypeNew(Pending(file, [a, b]), k, z);
    TypeBack(Pending(file, [a, b, c]));
    LastGoes(Pending(file, [c, b]));
    OneShows(file, k, z);
  }

  lemma LastGoes(s: Pending)
    requires |s.edits| == 2
    ensures Do(s, Undo) == s.(edits := [s.edits[0]])
  {
    assert s.edits[..1] == [s.edits[0]];
  }

  lemma FourCommands(file: seq<Byte>, c1: Command, c2: Command, c3: Command, c4: Command)
    ensures After(file, [c1, c2, c3, c4]) == Do(Do(Do(Do(Pending(file, []), c1), c2), c3), c4)
  {
    hide Do;
    assert [c1, c2, c3, c4] == [] + [c1] + [c2] + [c3] + [c4];
    AfterMore(file, [], c1);
    AfterMore(file, [] + [c1], c2);
    AfterMore(file, [] + [c1] + [c2], c3);
    AfterMore(file, [] + [c1] + [c2] + [c3], c4);
  }
}
