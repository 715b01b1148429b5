/** neo's rows: tab expansion, and the cascade that keeps highlighting in
    step with the rows above (`row_update`, `editor_update_syntax`). */
module NeoRows {
  import opened Options
  import opened Seqs
  import opened NeoSyntax

  datatype Row = Row(chars: string, render: string, hl: seq<nat>, open: int)

  /** What every row is drawn with. */
  datatype Settings = Settings(syntax: Option<Lang>, tabstop: nat, showTabs: bool)

  // ----- tab expansion -----

  function TabWidth(idx: nat, tabstop: nat): (n: nat)
    requires tabstop > 0
    ensures 1 <= n <= tabstop && (idx + n) % tabstop == 0
  {
    assert (idx + (tabstop - idx % tabstop)) % tabstop == 0 by {
      assert idx == idx / tabstop * tabstop + idx % tabstop;
      Multiple(idx / tabstop + 1, tabstop);
      assert idx + (tabstop - idx % tabstop) == (idx / tabstop + 1) * tabstop;
    }
    tabstop - idx % tabstop
  }

  lemma Multiple(k: nat, n: nat)
    requires n > 0
    ensures (k * n) % n == 0
  {
    var x := k * n;
    var q, r := x / n, x % n;
    assert x == n * q + r;
    assert (k - q) * n == r by { assert (k - q) * n == k * n - q * n; }
    SmallMultiple(k - q, n, r);
  }

  lemma SmallMultiple(d: int, n: nat, r: nat)
    requires d * n == r && r < n
    ensures r == 0
  {
    Grows(d, n);
  }

  lemma Grows(d: int, n: nat)
    ensures d >= 1 ==> d * n >= n
  {
  }

  function TabText(n: nat, show: bool): (t: string)
    requires n > 0
    ensures |t| == n
  {
    [if show then '>' else ' '] + seq(n - 1, _ => if show then '.' else ' ')
  }

  /** The drawn text of a row, from column idx on. */
  function Render(chars: string, idx: nat, g: Settings): string
    requires g.tabstop > 0
  {
    if chars == [] then []
    else if chars[0] == '\t' then
      var n := TabWidth(idx, g.tabstop);
      TabText(n, g.showTabs) + Render(chars[1..], idx + n, g)
    else [chars[0]] + Render(chars[1..], idx + 1, g)
  }

  function Tabs(chars: string): nat {
    if chars == [] then 0 else (if chars[0] == '\t' then 1 else 0) + Tabs(chars[1..])
  }

  /** The drawn text fits the buffer that `row_update` allocates for it. */
  lemma {:induction false} RenderFits(chars: string, idx: nat, g: Settings)
    requires g.tabstop > 0
    ensures |Render(chars, idx, g)| <= |chars| + Tabs(chars) * (g.tabstop - 1)
    decreases chars
  {
    if chars != [] {
      var n := if chars[0] == '\t' then TabWidth(idx, g.tabstop) else 1;
      RenderFits(chars[1..], idx + n, g);
      var w := g.tabstop - 1;
      assert (1 + Tabs(chars[1..])) * w == w + Tabs(chars[1..]) * w;
    }
  }

  /** A row is drawn piece by piece, each from the column the one before it reached. */
  lemma {:induction false} RenderColumns(before: string, after: string, idx: nat, g: Settings)
    requires g.tabstop > 0
    ensures Render(before + after, idx, g) == Render(before, idx, g) + Render(after, idx + |Render(before, idx, g)|, g)
    decreases before
  {
    hide TabText, TabWidth, Render;
    if before == [] {
      assert before + after == after;
      RenderStep(before, idx, g);
    } else {
      var n := if before[0] == '\t' then TabWidth(idx, g.tabstop) else 1;
      var t := if before[0] == '\t' then TabText(n, g.showTabs) else [before[0]];
      assert (before + after)[1..] == before[1..] + after;
      RenderStep(before, idx, g);
      RenderStep(before + after, idx, g);
      RenderColumns(before[1..], after, idx + n, g);
      Regroup(t, Render(before[1..], idx + n, g), Render(after, idx + |Render(before, idx, g)|, g));
    }
  }

  lemma RenderStep(chars: string, idx: nat, g: Settings)
    requires g.tabstop > 0
    ensures chars == [] ==> Render(chars, idx, g) == []
    ensures chars != [] ==>
      var n := if chars[0] == '\t' then TabWidth(idx, g.tabstop) else 1;
      Render(chars, idx, g) == (if chars[0] == '\t' then TabText(n, g.showTabs) else [chars[0]]) + Render(chars[1..], idx + n, g)
  {
  }

  /** The columns from c to e show the character: itself, or for a tab an arrow and dots, or blanks,
      up to the next column that the tab stop divides. */
  ghost predicate CharDrawn(ch: char, c: nat, e: nat, r: string, g: Settings)
    requires g.tabstop > 0
  {
    && c < e <= |r|
    && if ch != '\t' then e == c + 1 && r[c] == ch
       else
         && e % g.tabstop == 0 && e - c <= g.tabstop && r[c] == (if g.showTabs then '>' else ' ')
         && forall k :: c < k < e ==> r[k] == if g.showTabs then '.' else ' '
  }

  /** What a character becomes at column c. */
  function Cell(ch: char, c: nat, g: Settings): (t: string)
    requires g.tabstop > 0
    ensures t != []
  {
    if ch == '\t' then TabText(TabWidth(c, g.tabstop), g.showTabs) else [ch]
  }

  lemma RenderSplit(chars: string, j: nat, g: Settings)
    requires g.tabstop > 0 && j < |chars|
    ensures var p := Render(chars[..j], 0, g);
      var t := Cell(chars[j], |p|, g);
      Render(chars[..j + 1], 0, g) == p + t && Render(chars, 0, g) == p + (t + Render(chars[j + 1..], |p| + |t|, g))
  {
    hide Render, TabWidth, TabText;
    var c := |Render(chars[..j], 0, g)|;
    assert chars[j..][0] == chars[j] && chars[j..][1..] == chars[j + 1..];
    assert chars == chars[..j] + chars[j..] && chars[..j + 1] == chars[..j] + [chars[j]];
    RenderColumns(chars[..j], chars[j..], 0, g);
    RenderColumns(chars[..j], [chars[j]], 0, g);
    RenderStep(chars[j..], c, g);
    RenderStep([chars[j]], c, g);
    RenderStep([], c + |Cell(chars[j], c, g)|, g);
    assert [chars[j]][1..] == [];
  }

  lemma CellDrawn(ch: char, c: nat, r: string, g: Settings)
    requires g.tabstop > 0
    requires var t := Cell(ch, c, g); c + |t| <= |r| && forall k :: c <= k < c + |t| ==> r[k] == t[k - c]
    ensures CharDrawn(ch, c, c + |Cell(ch, c, g)|, r, g)
  {
    hide TabWidth;
  }

  /** Character j of a row is drawn from the column that the ones before it reach. */
  lemma RenderAt(chars: string, j: nat, g: Settings)
    requires g.tabstop > 0 && j < |chars|
    ensures CharDrawn(chars[j], |Render(chars[..j], 0, g)|, |Render(chars[..j + 1], 0, g)|, Render(chars, 0, g), g)
  {
    hide Render, Cell, CharDrawn;
    RenderSplit(chars, j, g);
    var p := Render(chars[..j], 0, g);
    var t := Cell(chars[j], |p|, g);
    Middle(p, t, Render(chars[j + 1..], |p| + |t|, g), Render(chars, 0, g));
    CellDrawn(chars[j], |p|, Render(chars, 0, g), g);
  }

  lemma Middle(a: string, b: string, c: string, r: string)
    requires r == a + (b + c)
    ensures |a| + |b| <= |r| && forall k :: |a| <= k < |a| + |b| ==> r[k] == b[k - |a|]
  {
  }

  lemma NextStop(idx: nat, tabstop: nat, k: nat)
    requires tabstop > 0 && 1 <= k <= TabWidth(idx, tabstop) && (idx + k) % tabstop == 0
    ensures k == TabWidth(idx, tabstop)
  {
    var n := TabWidth(idx, tabstop);
    hide TabWidth;
    var a, b := (idx + k) / tabstop, (idx + n) / tabstop;
    assert idx + k == tabstop * a && idx + n == tabstop * b;
    assert n - k == (b - a) * tabstop;
    SmallMultiple(b - a, tabstop, n - k);
  }

  // ----- consistency -----

  function OpenBefore(rows: seq<Row>, k: nat): int
    requires k <= |rows|
  {
    if k == 0 then 0 else rows[k - 1].open
  }

  /** Row k shows its characters, coloured as the rows above leave off. */
  predicate Consistent(g: Settings, rows: seq<Row>, k: nat)
    requires g.tabstop > 0 && k < |rows|
  {
    && rows[k].render == Render(rows[k].chars, 0, g)
    && (rows[k].hl, rows[k].open) == Highlight(g.syntax, rows[k].render, OpenBefore(rows, k))
  }

  predicate AllConsistent(g: Settings, rows: seq<Row>)
    requires g.tabstop > 0
  {
    forall k :: 0 <= k < |rows| ==> Consistent(g, rows, k)
  }

  /** Row k coloured anew. */
  function Recoloured(g: Settings, rows: seq<Row>, k: nat): Row
    requires k < |rows|
  {
    var (hl, open) := Highlight(g.syntax, rows[k].render, OpenBefore(rows, k));
    rows[k].(hl := hl, open := open)
  }

  /** `editor_update_syntax`: recolour a row and go on while the open state changes. */
  function Cascade(g: Settings, rows: seq<Row>, at: nat): (r: seq<Row>)
    requires at < |rows|
    ensures |r| == |rows|
    decreases |rows| - at
  {
    var row := Recoloured(g, rows, at);
    var next := rows[at := row];
    if row.open != rows[at].open && at + 1 < |rows| then Cascade(g, next, at + 1) else next
  }

  /** `row_update`: redraw a row, then the cascade. */
  function Update(g: Settings, rows: seq<Row>, at: nat): (r: seq<Row>)
    requires g.tabstop > 0 && at < |rows|
    ensures |r| == |rows|
  {
    Cascade(g, rows[at := rows[at].(render := Render(rows[at].chars, 0, g))], at)
  }

  // ----- the cascade -----

  /** The cascade leaves the rows above, all characters and all drawn text alone. */
  lemma {:induction false} CascadeKeeps(g: Settings, rows: seq<Row>, at: nat)
    requires at < |rows|
    ensures var r := Cascade(g, rows, at);
      && (forall k :: 0 <= k < at ==> r[k] == rows[k])
      && (forall k :: 0 <= k < |rows| ==> r[k].chars == rows[k].chars && r[k].render == rows[k].render)
    decreases |rows| - at
  {
    hide Highlight;
    var row := Recoloured(g, rows, at);
    if row.open != rows[at].open && at + 1 < |rows| {
      CascadeKeeps(g, rows[at := row], at + 1);
    }
  }

  predicate Drawn(g: Settings, rows: seq<Row>)
    requires g.tabstop > 0
  {
    forall k :: 0 <= k < |rows| ==> rows[k].render == Render(rows[k].chars, 0, g)
  }

  lemma ConsistentAgain(g: Settings, a: seq<Row>, b: seq<Row>, k: nat)
    requires g.tabstop > 0 && |a| == |b| && k < |a| && a[k] == b[k] && OpenBefore(a, k) == OpenBefore(b, k)
    ensures Consistent(g, a, k) == Consistent(g, b, k)
  {
  }

  /** From rows that are in step except for one, recolouring that one restores all of them. */
  lemma {:induction false} CascadeRestores(g: Settings, rows: seq<Row>, at: nat)
    requires g.tabstop > 0 && at < |rows| && rows[at].render == Render(rows[at].chars, 0, g)
    requires forall k :: 0 <= k < |rows| && k != at ==> Consistent(g, rows, k)
    ensures AllConsistent(g, Cascade(g, rows, at))
    decreases |rows| - at
  {
    hide Highlight, Render, Consistent;
    var row := Recoloured(g, rows, at);
    var next := rows[at := row];
    RecolouredConsistent(g, rows, at);
    forall k | 0 <= k < |rows| && k != at && k != at + 1 ensures Consistent(g, next, k) {
      ConsistentAgain(g, rows, next, k);
    }
    if row.open != rows[at].open && at + 1 < |rows| {
      DrawnRow(g, rows, at + 1);
      CascadeRestores(g, next, at + 1);
    } else if at + 1 < |rows| {
      ConsistentAgain(g, rows, next, at + 1);
    }
  }

  lemma DrawnRow(g: Settings, rows: seq<Row>, k: nat)
    requires g.tabstop > 0 && k < |rows| && Consistent(g, rows, k)
    ensures rows[k].render == Render(rows[k].chars, 0, g)
  {
  }

  lemma RecolouredConsistent(g: Settings, rows: seq<Row>, at: nat)
    requires g.tabstop > 0 && at < |rows| && rows[at].render == Render(rows[at].chars, 0, g)
    ensures Consistent(g, rows[at := Recoloured(g, rows, at)], at)
  {
    hide Highlight, Render;
  }

  /** Whatever stood below, recolouring a row puts it in step with the rows above. */
  lemma CascadeReaches(g: Settings, rows: seq<Row>, at: nat)
    requires g.tabstop > 0 && at < |rows| && rows[at].render == Render(rows[at].chars, 0, g)
    requires forall k :: 0 <= k < at ==> Consistent(g, rows, k)
    ensures forall k :: 0 <= k <= at ==> Consistent(g, Cascade(g, rows, at), k)
  {
    hide Highlight, Render, Consistent;
    var row := Recoloured(g, rows, at);
    var next := rows[at := row];
    RecolouredConsistent(g, rows, at);
    var r := Cascade(g, rows, at);
    CascadeKeeps(g, rows, at);
    if row.open != rows[at].open && at + 1 < |rows| { CascadeKeeps(g, next, at + 1); }
    assert r[at] == next[at];
    forall k | 0 <= k <= at ensures Consistent(g, r, k) {
      if k < at { ConsistentAgain(g, rows, r, k); } else { ConsistentAgain(g, next, r, k); }
    }
  }

  // ----- edits and passes -----

  /** An edit of one row's characters, with its redraw and the cascade, leaves every row in step. */
  lemma EditKeepsConsistent(g: Settings, rows: seq<Row>, at: nat, chars: string)
    requires g.tabstop > 0 && at < |rows| && AllConsistent(g, rows)
    ensures AllConsistent(g, Update(g, rows[at := rows[at].(chars := chars)], at))
  {
    hide Highlight, Render, Consistent, Cascade;
    var edited := rows[at := rows[at].(chars := chars)];
    var redrawn := edited[at := edited[at].(render := Render(chars, 0, g))];
    forall k | 0 <= k < |rows| && k != at ensures Consistent(g, redrawn, k) {
      ConsistentAgain(g, rows, redrawn, k);
    }
    CascadeRestores(g, redrawn, at);
  }

  /** The loop that recolours all rows. */
  function Pass(g: Settings, rows: seq<Row>, k: nat): (r: seq<Row>)
    requires k <= |rows|
    ensures |r| == |rows|
    decreases |rows| - k
  {
    if k == |rows| then rows else Pass(g, Cascade(g, rows, k), k + 1)
  }

  lemma {:induction false} PassReaches(g: Settings, rows: seq<Row>, k: nat)
    requires g.tabstop > 0 && k <= |rows| && Drawn(g, rows)
    requires forall j :: 0 <= j < k ==> Consistent(g, rows, j)
    ensures AllConsistent(g, Pass(g, rows, k))
    decreases |rows| - k
  {
    hide Highlight, Render, Consistent, Cascade;
    if k < |rows| {
      CascadeReaches(g, rows, k);
      CascadeKeeps(g, rows, k);
      PassReaches(g, Cascade(g, rows, k), k + 1);
    }
  }

  /** Recolouring the whole buffer brings every row in step, whatever its colours were. */
  lemma PassConsistent(g: Settings, rows: seq<Row>)
    requires g.tabstop > 0 && Drawn(g, rows)
    ensures AllConsistent(g, Pass(g, rows, 0))
  {
    PassReaches(g, rows, 0);
  }

  /** The loop that redraws and recolours all rows. */
  function Redraw(g: Settings, rows: seq<Row>, k: nat): (r: seq<Row>)
    requires g.tabstop > 0 && k <= |rows|
    ensures |r| == |rows|
    decreases |rows| - k
  {
    if k == |rows| then rows else Redraw(g, Update(g, rows, k), k + 1)
  }

  lemma {:induction false} RedrawReaches(g: Settings, rows: seq<Row>, k: nat)
    requires g.tabstop > 0 && k <= |rows| && forall j :: 0 <= j < k ==> Consistent(g, rows, j)
    ensures AllConsistent(g, Redraw(g, rows, k))
    decreases |rows| - k
  {
    hide Highlight, Render, Consistent, Cascade;
    if k < |rows| {
      var drawn := rows[k := rows[k].(render := Render(rows[k].chars, 0, g))];
      forall j | 0 <= j < k ensures Consistent(g, drawn, j) {
        ConsistentAgain(g, rows, drawn, j);
      }
      CascadeReaches(g, drawn, k);
      RedrawReaches(g, Update(g, rows, k), k + 1);
    }
  }

  /** Consistency fixes all colours: two buffers with the same text in step are the same. */
  lemma {:induction false} ConsistentUnique(g: Settings, a: seq<Row>, b: seq<Row>, k: nat)
    requires g.tabstop > 0 && |a| == |b| && AllConsistent(g, a) && AllConsistent(g, b) && k < |a|
    requires forall j :: 0 <= j < |a| ==> a[j].chars == b[j].chars
    ensures a[k] == b[k]
    decreases k
  {
    hide Highlight, Render;
    assert Consistent(g, a, k) && Consistent(g, b, k);
    if k > 0 { ConsistentUnique(g, a, b, k - 1); }
  }

  /** So the cascade after an edit is as good as recolouring everything. */
  lemma IncrementalIsFull(g: Settings, rows: seq<Row>, at: nat, chars: string)
    requires g.tabstop > 0 && at < |rows| && AllConsistent(g, rows)
    ensures var edited := rows[at := rows[at].(chars := chars)];
      Update(g, edited, at) == Redraw(g, edited, 0)
  {
    hide Highlight, Render, Consistent, Cascade, Update, Redraw;
    var edited := rows[at := rows[at].(chars := chars)];
    var a, b := Update(g, edited, at), Redraw(g, edited, 0);
    EditKeepsConsistent(g, rows, at, chars);
    RedrawReaches(g, edited, 0);
    UpdateChars(g, edited, at);
    RedrawChars(g, edited, 0);
    forall k | 0 <= k < |a| ensures a[k] == b[k] {
      ConsistentUnique(g, a, b, k);
    }
  }

  lemma UpdateChars(g: Settings, rows: seq<Row>, at: nat)
    requires g.tabstop > 0 && at < |rows|
    ensures forall k :: 0 <= k < |rows| ==> Update(g, rows, at)[k].chars == rows[k].chars
  {
    hide Cascade, Render;
    CascadeKeeps(g, rows[at := rows[at].(render := Render(rows[at].chars, 0, g))], at);
  }

  lemma {:induction false} RedrawChars(g: Settings, rows: seq<Row>, k: nat)
    requires g.tabstop > 0 && k <= |rows|
    ensures forall j :: 0 <= j < |rows| ==> Redraw(g, rows, k)[j].chars == rows[j].chars
    decreases |rows| - k
  {
    hide Update;
    if k < |rows| {
      UpdateChars(g, rows, k);
      RedrawChars(g, Update(g, rows, k), k + 1);
    }
  }
}
