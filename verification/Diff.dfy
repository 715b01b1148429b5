/** diff's comparison (`run_diff` in usr/bin/diff.c): equal lines are passed over,
    and at a difference the nearest place where the files meet again is looked for. */
module Diff {
  import opened Options
  import opened DiffText

  const LOOKAHEAD := 64

  /** The files meet again `di` and `dj` lines on: at an equal line, or both at their end. */
  predicate Meets(a: seq<Line>, b: seq<Line>, i: nat, j: nat, di: nat, dj: nat) {
    || (i + di == |a| && j + dj == |b|)
    || (i + di < |a| && j + dj < |b| && a[i + di] == b[j + dj])
  }

  /** No meeting place at a distance below `sum`, nor at `sum` with fewer than `di` lines of `a`. */
  ghost predicate Apart(a: seq<Line>, b: seq<Line>, i: nat, j: nat, sum: nat, di: nat) {
    forall x: nat, y: nat :: 1 <= x + y && (x + y < sum || (x + y == sum && x < di)) ==> !Meets(a, b, i, j, x, y)
  }

  /** `di`, `dj` is the nearest meeting place within reach, the one with fewest lines of `a`. */
  ghost predicate Nearest(a: seq<Line>, b: seq<Line>, i: nat, j: nat, di: nat, dj: nat) {
    1 <= di + dj <= 64 && Meets(a, b, i, j, di, dj) && Apart(a, b, i, j, di + dj, di)
  }

  /** The first meeting place in the order tried, from distance `sum` and `di` on. */
  function Look(a: seq<Line>, b: seq<Line>, i: nat, j: nat, sum: nat, di: nat): (r: Option<(nat, nat)>)
    decreases LOOKAHEAD + 1 - sum, sum + 1 - di
  {
    if sum > LOOKAHEAD then None
    else if di > sum then Look(a, b, i, j, sum + 1, 0)
    else if Meets(a, b, i, j, di, sum - di) then Some((di, sum - di))
    else Look(a, b, i, j, sum, di + 1)
  }

  lemma {:induction false} LookFindsNearest(a: seq<Line>, b: seq<Line>, i: nat, j: nat, sum: nat, di: nat)
    requires sum >= 1 && di <= sum + 1 && Apart(a, b, i, j, sum, di)
    ensures var r := Look(a, b, i, j, sum, di);
      if r.Some? then Nearest(a, b, i, j, r.value.0, r.value.1) else Apart(a, b, i, j, 65, 0)
    decreases LOOKAHEAD + 1 - sum, sum + 1 - di
  {
    hide Meets;
    if sum > LOOKAHEAD {
    } else if di > sum {
      LookFindsNearest(a, b, i, j, sum + 1, 0);
    } else if !Meets(a, b, i, j, di, sum - di) {
      LookFindsNearest(a, b, i, j, sum, di + 1);
    }
  }

  predicate Equal(a: seq<Line>, b: seq<Line>, i: nat, j: nat) {
    i < |a| && j < |b| && a[i] == b[j]
  }

  /** The hunk at a difference: up to the meeting place, or to the end of both files. */
  function HunkAt(a: seq<Line>, b: seq<Line>, i: nat, j: nat): (h: Hunk)
  {
    var r := Look(a, b, i, j, 1, 0);
    if r.Some? then Hunk(i, i + r.value.0, j, j + r.value.1) else Hunk(i, |a|, j, |b|)
  }

  lemma HunkAtMoves(a: seq<Line>, b: seq<Line>, i: nat, j: nat)
    requires i <= |a| && j <= |b| && (i < |a| || j < |b|)
    ensures var h := HunkAt(a, b, i, j);
      && Inside(a, b, h) && h.a1 == i && h.b1 == j
      && h.a2 + h.b2 > i + j
      && Meets(a, b, h.a2, h.b2, 0, 0)
      && (Nearest(a, b, i, j, h.a2 - i, h.b2 - j) || (h.a2 == |a| && h.b2 == |b| && Apart(a, b, i, j, 65, 0)))
  {
    LookFindsNearest(a, b, i, j, 1, 0);
  }

  /** All hunks from lines `i` and `j` on. */
  function Hunks(a: seq<Line>, b: seq<Line>, i: nat, j: nat): (hs: seq<Hunk>)
    requires i <= |a| && j <= |b|
    decreases |a| + |b| - i - j
  {
    if i == |a| && j == |b| then []
    else if Equal(a, b, i, j) then Hunks(a, b, i + 1, j + 1)
    else
      HunkAtMoves(a, b, i, j);
      var h := HunkAt(a, b, i, j);
      [h] + Hunks(a, b, h.a2, h.b2)
  }

  /** The hunks follow one another from lines `i` and `j` on; what lies between them
      is common to both files, and after the first there is something between. */
  ghost predicate Follows(a: seq<Line>, b: seq<Line>, i: nat, j: nat, gap: bool, hs: seq<Hunk>)
    decreases |hs|
  {
    && i <= |a| && j <= |b|
    && if hs == [] then a[i..] == b[j..]
       else
         var h := hs[0];
         && Inside(a, b, h)
         && i <= h.a1 && j <= h.b1 && a[i..h.a1] == b[j..h.b1]
         && (gap ==> i < h.a1)
         && h.a2 - h.a1 + h.b2 - h.b1 > 0
         && Follows(a, b, h.a2, h.b2, true, hs[1..])
  }

  lemma {:induction false} FollowsInside(a: seq<Line>, b: seq<Line>, i: nat, j: nat, gap: bool, hs: seq<Hunk>)
    requires Follows(a, b, i, j, gap, hs)
    ensures forall h :: h in hs ==> Inside(a, b, h)
    decreases |hs|
  {
    if hs != [] {
      FollowsInside(a, b, hs[0].a2, hs[0].b2, true, hs[1..]);
      assert hs == [hs[0]] + hs[1..];
    }
  }

  lemma FollowsBack(a: seq<Line>, b: seq<Line>, i: nat, j: nat, gap: bool, hs: seq<Hunk>)
    requires Equal(a, b, i, j) && Follows(a, b, i + 1, j + 1, false, hs)
    ensures Follows(a, b, i, j, gap, hs)
  {
    var x := if hs == [] then |a| else hs[0].a1;
    var y := if hs == [] then |b| else hs[0].b1;
    assert a[i..x] == [a[i]] + a[i + 1..x] && b[j..y] == [b[j]] + b[j + 1..y];
    assert a[i..|a|] == a[i..] && b[j..|b|] == b[j..] && a[i + 1..|a|] == a[i + 1..] && b[j + 1..|b|] == b[j + 1..];
  }

  /** The hunks follow one another, and each but the first comes after a common line. */
  lemma {:induction false} HunksFollow(a: seq<Line>, b: seq<Line>, i: nat, j: nat, gap: bool)
    requires i <= |a| && j <= |b| && (gap ==> Meets(a, b, i, j, 0, 0))
    ensures Follows(a, b, i, j, gap, Hunks(a, b, i, j))
    decreases |a| + |b| - i - j
  {
    hide HunkAt, Look;
    var hs := Hunks(a, b, i, j);
    if i == |a| && j == |b| {
    } else if Equal(a, b, i, j) {
      HunksFollow(a, b, i + 1, j + 1, false);
      FollowsBack(a, b, i, j, gap, hs);
    } else {
      HunkAtMoves(a, b, i, j);
      var h := HunkAt(a, b, i, j);
      HunksFollow(a, b, h.a2, h.b2, true);
      assert hs[1..] == Hunks(a, b, h.a2, h.b2);
      assert a[i..i] == b[j..j];
    }
  }

  /** There are no hunks just when the files are equal. */
  lemma {:induction false} NoHunks(a: seq<Line>, b: seq<Line>, i: nat, j: nat)
    requires i <= |a| && j <= |b|
    ensures Hunks(a, b, i, j) == [] <==> a[i..] == b[j..]
    decreases |a| + |b| - i - j
  {
    hide HunkAt, Look;
    if i < |a| && j < |b| {
      assert a[i..] == [a[i]] + a[i + 1..] && b[j..] == [b[j]] + b[j + 1..];
      if a[i] == b[j] {
        NoHunks(a, b, i + 1, j + 1);
      } else {
        assert a[i..][0] != b[j..][0];
      }
    } else if i < |a| || j < |b| {
      assert |a[i..]| != |b[j..]|;
    }
  }

  /** The pieces of a printed hunk, by position. */
  lemma Pieces(s: seq<string>, head: string, xs: seq<string>, bar: seq<string>, ys: seq<string>, rest: seq<string>)
    requires s == [head] + xs + bar + ys + rest
    ensures s[0] == head && s[1..1 + |xs|] == xs
    ensures bar != [] ==> s[1 + |xs|] == bar[0]
    ensures s[1 + |xs| + |bar|..1 + |xs| + |bar| + |ys|] == ys
    ensures s[1 + |xs| + |bar| + |ys|..] == rest
  {
  }

  lemma UnprefixedOf(lines: seq<Line>)
    ensures Unprefixed(Block("> ", lines)) == Some(lines)
  {
    var out := Block("> ", lines);
    forall i | 0 <= i < |out| ensures "> " <= out[i] && out[i][2..] == lines[i] {
      assert out[i] == "> " + lines[i];
    }
    assert Stripped(out) == lines;
  }

  /** Soundness: the printed text turns the first file into the second. */
  lemma {:induction false} PatchOf(a: seq<Line>, b: seq<Line>, i: nat, j: nat, gap: bool, hs: seq<Hunk>)
    requires Follows(a, b, i, j, gap, hs)
    requires forall h :: h in hs ==> Inside(a, b, h)
    ensures Patch(a, PrintedAll(a, b, hs), i, j) == Some(b[j..])
    decreases |hs|
  {
    hide Patch, Printed;
    if hs == [] {
      PatchEnd(a, i, j);
    } else {
      var h := hs[0];
      var rest := PrintedAll(a, b, hs[1..]);
      PatchOf(a, b, h.a2, h.b2, true, hs[1..]);
      PatchStep(a, b, i, j, h, rest);
      assert b[j..] == b[j..h.b1] + b[h.b1..h.b2] + b[h.b2..];
    }
  }

  lemma PatchEnd(a: seq<Line>, i: nat, j: nat)
    requires i <= |a|
    ensures Patch(a, [], i, j) == Some(a[i..])
  {
  }

  lemma PatchStep(a: seq<Line>, b: seq<Line>, i: nat, j: nat, h: Hunk, rest: seq<string>)
    requires Inside(a, b, h) && i <= h.a1 && j <= h.b1 && a[i..h.a1] == b[j..h.b1]
    requires h.a2 - h.a1 + h.b2 - h.b1 > 0
    requires Patch(a, rest, h.a2, h.b2) == Some(b[h.b2..])
    ensures Patch(a, Printed(a, b, h) + rest, i, j) == Some(b[j..h.b1] + b[h.b1..h.b2] + b[h.b2..])
  {
    hide Header, ReadHeader, Unprefixed;
    var script := Printed(a, b, h) + rest;
    ReadHeaderOf(h);
    UnprefixedOf(b[h.b1..h.b2]);
    Pieces(script, Header(h), Block("< ", a[h.a1..h.a2]), Bar(h), Block("> ", b[h.b1..h.b2]), rest);
    assert |a[i..h.a1]| == |b[j..h.b1]|;
  }
}
