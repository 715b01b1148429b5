/** diff as the loops of usr/bin/diff.c, each proved against `DiffText` and `Diff`. */
module DiffTool {
  import opened Options
  import opened Seqs
  import opened DiffText
  import opened Diff

  /** The whole output: it patches the first file into the second, its hunks follow one
      another, and it is empty just when the files are equal. */
  lemma DiffSound(a: seq<Line>, b: seq<Line>)
    ensures var hs := Hunks(a, b, 0, 0);
      && Follows(a, b, 0, 0, false, hs)
      && (forall h :: h in hs ==> Inside(a, b, h))
      && Patch(a, PrintedAll(a, b, hs), 0, 0) == Some(b)
      && (hs == [] <==> a == b)
  {
    hide Follows, Patch, Hunks;
    var hs := Hunks(a, b, 0, 0);
    HunksFollow(a, b, 0, 0, false);
    FollowsInside(a, b, 0, 0, false, hs);
    PatchOf(a, b, 0, 0, false, hs);
    NoHunks(a, b, 0, 0);
    assert a[0..] == a && b[0..] == b;
  }

  method PrintBlock(prefix: string, lines: seq<Line>, from: nat, to: nat) returns (out: seq<string>)
    requires from <= to <= |lines|
    ensures out == Block(prefix, lines[from..to])
  {
    out := [];
    for i := from to to
      invariant |out| == i - from
      invariant forall k :: 0 <= k < i - from ==> out[k] == prefix + lines[from + k]
    {
      out := out + [prefix + lines[i]];
    }
  }

  method HeaderText(h: Hunk) returns (s: string)
    requires h.a1 <= h.a2 && h.b1 <= h.b2
    ensures s == Header(h)
  {
    hide Show;
    var ac, bc := h.a2 - h.a1, h.b2 - h.b1;
    var op := if ac == 0 then "a" else if bc == 0 then "d" else "c";
    var left, right;
    if ac <= 1 { left := Show(h.a1 + if ac == 0 then 0 else 1); } else { left := Show(h.a1 + 1) + "," + Show(h.a2); }
    if bc <= 1 { right := Show(h.b1 + if bc == 0 then 0 else 1); } else { right := Show(h.b1 + 1) + "," + Show(h.b2); }
    s := left + op + right;
    assert s == left + (op + right);
  }

  method EmitChunk(a: seq<Line>, b: seq<Line>, h: Hunk) returns (out: seq<string>)
    requires Inside(a, b, h)
    ensures out == if h.a1 == h.a2 && h.b1 == h.b2 then [] else Printed(a, b, h)
  {
    hide Header, Block;
    if h.a1 == h.a2 && h.b1 == h.b2 { return []; }
    var head := HeaderText(h);
    var gone := PrintBlock("< ", a, h.a1, h.a2);
    var added := PrintBlock("> ", b, h.b1, h.b2);
    out := [head];
    if h.a2 > h.a1 { out := out + gone; }
    if h.a2 > h.a1 && h.b2 > h.b1 { out := out + ["---"]; }
    if h.b2 > h.b1 { out := out + added; }
  }

  /** The two nested look-ahead loops. */
  method FindMeeting(a: seq<Line>, b: seq<Line>, i: nat, j: nat) returns (r: Option<(nat, nat)>)
    requires i <= |a| && j <= |b|
    ensures r == Look(a, b, i, j, 1, 0)
  {
    for sum := 1 to LOOKAHEAD + 1
      invariant Look(a, b, i, j, 1, 0) == Look(a, b, i, j, sum, 0)
    {
      for di := 0 to sum + 1
        invariant Look(a, b, i, j, 1, 0) == Look(a, b, i, j, sum, di)
      {
        var dj := sum - di;
        if i + di > |a| || j + dj > |b| { continue; }
        if i + di == |a| && j + dj == |b| { return Some((di, dj)); }
        if i + di < |a| && j + dj < |b| && a[i + di] == b[j + dj] { return Some((di, dj)); }
      }
    }
    return None;
  }

  lemma {:induction false} PrintedOneMore(a: seq<Line>, b: seq<Line>, hs: seq<Hunk>, h: Hunk)
    requires (forall x :: x in hs ==> Inside(a, b, x)) && Inside(a, b, h)
    ensures forall x :: x in hs + [h] ==> Inside(a, b, x)
    ensures PrintedAll(a, b, hs + [h]) == PrintedAll(a, b, hs) + Printed(a, b, h)
  {
    hide Printed;
    if hs == [] {
      assert hs + [h] == [h];
    } else {
      PrintedOneMore(a, b, hs[1..], h);
      assert (hs + [h])[1..] == hs[1..] + [h];
    }
  }

  lemma NonePrinted(a: seq<Line>, b: seq<Line>)
    ensures PrintedAll(a, b, []) == []
  {
  }

  lemma HunksEnd(a: seq<Line>, b: seq<Line>)
    ensures Hunks(a, b, |a|, |b|) == []
  {
  }

  /** One turn of the loop, as hunks. */
  lemma HunksStep(a: seq<Line>, b: seq<Line>, i: nat, j: nat)
    requires i <= |a| && j <= |b| && (i < |a| || j < |b|)
    ensures Equal(a, b, i, j) ==> Hunks(a, b, i, j) == Hunks(a, b, i + 1, j + 1)
    ensures var r := Look(a, b, i, j, 1, 0);
      var h := if r.Some? then Hunk(i, i + r.value.0, j, j + r.value.1) else Hunk(i, |a|, j, |b|);
      && Inside(a, b, h) && h.a2 + h.b2 > i + j && h.a1 == i && h.b1 == j
      && (!Equal(a, b, i, j) ==> Hunks(a, b, i, j) == [h] + Hunks(a, b, h.a2, h.b2))
  {
    hide Look;
    HunkAtMoves(a, b, i, j);
  }

  method RunDiff(a: seq<Line>, b: seq<Line>) returns (out: seq<string>, rc: int)
    ensures forall h :: h in Hunks(a, b, 0, 0) ==> Inside(a, b, h)
    ensures out == PrintedAll(a, b, Hunks(a, b, 0, 0))
    ensures Patch(a, out, 0, 0) == Some(b)
    ensures rc == if a == b then 0 else 1
    ensures out == [] <==> a == b
  {
    hide Patch, Follows, Look, Printed, Hunks, PrintedAll, HunkAt, Meets, Nearest;
    DiffSound(a, b);
    NonePrinted(a, b);
    var i: nat, j: nat, diffs := 0, 0, 0;
    ghost var hs := [];
    out := [];
    while i < |a| || j < |b|
      invariant i <= |a| && j <= |b| && diffs == |hs|
      invariant hs + Hunks(a, b, i, j) == Hunks(a, b, 0, 0)
      invariant forall h :: h in hs ==> Inside(a, b, h)
      invariant out == PrintedAll(a, b, hs) && (out == [] <==> hs == [])
      decreases |a| + |b| - i - j
    {
      HunksStep(a, b, i, j);
      if i < |a| && j < |b| && a[i] == b[j] {
        i, j := i + 1, j + 1;
        continue;
      }
      var r := FindMeeting(a, b, i, j);
      var h := if r.Some? then Hunk(i, i + r.value.0, j, j + r.value.1) else Hunk(i, |a|, j, |b|);
      var chunk := EmitChunk(a, b, h);
      PrintedOneMore(a, b, hs, h);
      Regroup(hs, [h], Hunks(a, b, h.a2, h.b2));
      hs := hs + [h];
      out := out + chunk;
      diffs := diffs + 1;
      i, j := h.a2, h.b2;
    }
    HunksEnd(a, b);
    assert hs + [] == hs;
    rc := if diffs > 0 then 1 else 0;
  }

  /** `diff -q`. */
  method Brief(a: seq<Line>, b: seq<Line>) returns (rc: int)
    ensures rc == if a == b then 0 else 1
  {
    if |a| != |b| { return 1; }
    for i := 0 to |a|
      invariant a[..i] == b[..i]
    {
      if a[i] != b[i] { return 1; }
    }
    assert a[..|a|] == a && b[..|a|] == b;
    return 0;
  }
}
