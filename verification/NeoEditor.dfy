/** neo's editor state as the program has it: highlight arrays written in
    place, and rows rewritten by every edit. */
module NeoEditor {
  import opened Options
  import opened Seqs
  import opened NeoSyntax
  import opened NeoRows
  import opened NeoShown
  import opened NeoHtml

  method Memset(hl: array<nat>, i: nat, n: nat, v: nat)
    requires i + n <= hl.Length
    modifies hl
    ensures hl[..] == Paint(old(hl[..]), i, n, v)
  {
    var k := 0;
    while k < n
      invariant k <= n
      invariant forall j :: 0 <= j < hl.Length ==> hl[j] == if i <= j < i + k then v else old(hl[j])
    {
      hl[i + k] := v;
      k := k + 1;
    }
  }

  // ----- hl_generic -----

  method MatchGroup(s: string, i: nat, groups: seq<Group>, prevSep: bool) returns (gi: nat, n: nat)
    requires i <= |s|
    ensures (gi, n) == FindGroup(s, i, groups, 0, prevSep)
  {
    gi := 0;
    while gi < |groups|
      invariant gi <= |groups| && FindGroup(s, i, groups, gi, prevSep) == FindGroup(s, i, groups, 0, prevSep)
    {
      if groups[gi].chars || prevSep {
        n := MatchWord(s, i, groups[gi]);
        if n > 0 { return; }
      }
      gi := gi + 1;
    }
    n := 0;
  }

  method MatchWord(s: string, i: nat, g: Group) returns (n: nat)
    requires i <= |s|
    ensures n == FindWord(s, i, g, 0)
  {
    var w := 0;
    while w < |g.words|
      invariant w <= |g.words| && FindWord(s, i, g, w) == FindWord(s, i, g, 0)
    {
      if WordAt(s, i, g, g.words[w]) { return |g.words[w]|; }
      w := w + 1;
    }
    return 0;
  }

  /** A number, coloured while it lasts. */
  method PaintNumber(s: string, hl: array<nat>, i: nat) returns (e: nat)
    requires i < |s| == hl.Length
    modifies hl
    ensures e == NumberEnd(s, i + 1) && hl[..] == Paint(old(hl[..]), i, e - i, NUMBER)
  {
    hl[i] := NUMBER;
    e := i + 1;
    while e < |s| && NumberChar(s[e])
      invariant i < e <= |s| && NumberEnd(s, e) == NumberEnd(s, i + 1)
      invariant forall j :: 0 <= j < hl.Length ==> hl[j] == if i <= j < e then NUMBER else old(hl[j])
    {
      hl[e] := NUMBER;
      e := e + 1;
    }
  }

  /** One turn of the loop outside a line comment. */
  method GenericTurn(L: Lang, s: string, hl: array<nat>, i: nat, prevSep: bool, quote: char, inComment: bool)
    returns (i': nat, prevSep': bool, quote': char, inComment': bool)
    requires i < |s| == hl.Length
    modifies hl
    ensures Scan(i', prevSep', quote', inComment', hl[..]) == Turn(L, s, Scan(i, prevSep, quote, inComment, old(hl[..])))
  {
    hide Paint, NumberEnd, FindGroup;
    i', prevSep', quote', inComment' := i, prevSep, quote, inComment;
    var c := s[i];
    if quote == '\0' && L.b0 != "" {
      if inComment {
        if L.b1 != "" && StartsAt(s, i, L.b1) {
          Memset(hl, i, |L.b1|, MLCOMMENT);
          i', inComment', prevSep' := i + |L.b1|, false, true;
          return;
        }
        hl[i] := MLCOMMENT;
        i' := i + 1;
        return;
      } else if StartsAt(s, i, L.b0) {
        Memset(hl, i, |L.b0|, MLCOMMENT);
        i', inComment' := i + |L.b0|, true;
        return;
      }
    }
    if quote != '\0' {
      if c == '\\' && i + 1 < |s| {
        hl[i] := ESCAPE;
        hl[i + 1] := ESCAPE;
        i' := i + 2;
        return;
      }
      hl[i] := STRING;
      if c == quote { quote' := '\0'; }
      i', prevSep' := i + 1, true;
      return;
    } else if Quote(L, c) {
      hl[i] := STRING;
      i', quote' := i + 1, c;
      return;
    }
    if IsDigit(c) && prevSep {
      i' := PaintNumber(s, hl, i);
      prevSep' := false;
      return;
    }
    var gi, n := MatchGroup(s, i, L.groups, prevSep);
    if n > 0 {
      Memset(hl, i, n, GROUP0 + gi);
      i', prevSep' := i + n, false;
      return;
    }
    i', prevSep' := i + 1, IsSep(c);
  }

  /** `hl_generic`. */
  method HlGeneric(L: Lang, s: string, hl: array<nat>, before: int) returns (open: int)
    requires hl.Length == |s|
    modifies hl
    ensures var st := Generic(L, s, Scan(0, true, '\0', before == 1, old(hl[..])));
      hl[..] == st.hl && open == if st.inComment then 1 else 0
    ensures Shows(L, s, before, old(hl[..]), hl[..], open)
  {
    GenericShows(L, s, before, hl[..]);
    hide Turn, Paint, Shows;
    var i, prevSep, quote, inComment := 0, true, '\0', before == 1;
    ghost var whole := Generic(L, s, Scan(0, true, '\0', inComment, hl[..]));
    while i < |s|
      invariant i <= |s| && Generic(L, s, Scan(i, prevSep, quote, inComment, hl[..])) == whole
    {
      if quote == '\0' && !inComment && L.linec != "" && StartsAt(s, i, L.linec) {
        Memset(hl, i, |s| - i, COMMENT);
        return 0;
      }
      i, prevSep, quote, inComment := GenericTurn(L, s, hl, i, prevSep, quote, inComment);
    }
    return if inComment then 1 else 0;
  }

  // ----- hl_html -----

  method PaintTag(s: string, hl: array<nat>, i: nat) returns (e: nat)
    requires i < |s| == hl.Length
    modifies hl
    ensures e == TagEnd(s, i + 1) && hl[..] == Paint(old(hl[..]), i, e - i, TAG)
  {
    hl[i] := TAG;
    e := i + 1;
    while e < |s| && TagChar(s[e])
      invariant i < e <= |s| && TagEnd(s, e) == TagEnd(s, i + 1)
      invariant forall j :: 0 <= j < hl.Length ==> hl[j] == if i <= j < e then TAG else old(hl[j])
    {
      hl[e] := TAG;
      e := e + 1;
    }
  }

  method PaintAttr(s: string, hl: array<nat>, i: nat) returns (e: nat)
    requires i < |s| == hl.Length
    modifies hl
    ensures e == AttrEnd(s, i) && hl[..] == Paint(old(hl[..]), i, e - i, ATTR)
  {
    e := i;
    while e < |s| && AttrChar(s[e])
      invariant i <= e <= |s| && AttrEnd(s, e) == AttrEnd(s, i)
      invariant forall j :: 0 <= j < hl.Length ==> hl[j] == if i <= j < e then ATTR else old(hl[j])
    {
      hl[e] := ATTR;
      e := e + 1;
    }
  }

  method FindEntity(s: string, i: nat) returns (j: nat)
    requires i < |s|
    ensures j == EntityStop(s, i, i + 1)
  {
    j := i + 1;
    while j < |s| && s[j] != ';' && s[j] != ' ' && j - i < 12
      invariant i < j <= |s| && EntityStop(s, i, j) == EntityStop(s, i, i + 1)
    {
      j := j + 1;
    }
  }

  method HtmlStep(s: string, hl: array<nat>, i: nat, quote: char, state: int) returns (i': nat, quote': char, state': int)
    requires i < |s| == hl.Length
    modifies hl
    ensures Html(i', quote', state', hl[..]) == HtmlTurn(s, Html(i, quote, state, old(hl[..])))
  {
    hide Paint, TagEnd, AttrEnd, EntityStop;
    i', quote', state' := i, quote, state;
    var c := s[i];
    if state == 1 {
      if NoteCloses(s, i) {
        Memset(hl, i, 3, MLCOMMENT);
        i', state' := i + 3, 0;
        return;
      }
      hl[i] := MLCOMMENT;
      i' := i + 1;
      return;
    }
    if state == 0 {
      if NoteOpens(s, i) {
        Memset(hl, i, 4, MLCOMMENT);
        i', state' := i + 4, 1;
        return;
      }
      if c == '<' {
        i' := PaintTag(s, hl, i);
        state' := 2;
        return;
      }
      if c == '&' {
        var j := FindEntity(s, i);
        if j < |s| && s[j] == ';' {
          Memset(hl, i, j - i + 1, ESCAPE);
          i' := j + 1;
          return;
        }
      }
      i' := i + 1;
      return;
    }
    if quote != '\0' {
      hl[i] := STRING;
      if c == quote { quote' := '\0'; }
      i' := i + 1;
      return;
    }
    if c == '"' || c == '\'' {
      hl[i] := STRING;
      i', quote' := i + 1, c;
      return;
    }
    if c == '>' {
      hl[i] := TAG;
      i', state' := i + 1, 0;
      return;
    }
    if IsAlpha(c) {
      i' := PaintAttr(s, hl, i);
      return;
    }
    i' := i + 1;
  }

  /** `hl_html`. */
  method HlHtml(s: string, hl: array<nat>, before: int) returns (open: int)
    requires hl.Length == |s|
    modifies hl
    ensures var st := HtmlRow(s, Html(0, '\0', before, old(hl[..])));
      hl[..] == st.hl && open == st.state
    ensures ShowsHtml(s, before, old(hl[..]), hl[..], open)
  {
    HtmlShows(s, before, hl[..]);
    hide HtmlTurn, ShowsHtml;
    var i, quote, state := 0, '\0', before;
    ghost var whole := HtmlRow(s, Html(0, '\0', before, hl[..]));
    while i < |s|
      invariant i <= |s| && HtmlRow(s, Html(i, quote, state, hl[..])) == whole
    {
      i, quote, state := HtmlStep(s, hl, i, quote, state);
    }
    return state;
  }

  /** The colours of one row, into a fresh array. */
  method Colour(syntax: Option<Lang>, s: string, before: int) returns (colours: seq<nat>, open: int)
    ensures (colours, open) == Highlight(syntax, s, before)
    ensures Right(syntax, s, before, colours, open)
  {
    HighlightIsRight(syntax, s, before);
    hide Generic, HtmlRow, Right, Shows, ShowsHtml;
    var hl := new nat[|s|](_ => NORMAL);
    assert hl[..] == Unpainted(|s|);
    if syntax.None? {
      open := 0;
    } else if syntax.value.html {
      open := HlHtml(s, hl, before);
    } else {
      open := HlGeneric(syntax.value, s, hl, before);
    }
    colours := hl[..];
  }

  /** What every edit keeps: each row is drawn character by character and coloured as its stretches say,
      from the state the row above leaves open. */
  lemma RowsAreRight(g: Settings, rows: seq<Row>, k: nat)
    requires g.tabstop > 0 && AllConsistent(g, rows) && k < |rows|
    ensures Right(g.syntax, rows[k].render, if k == 0 then 0 else rows[k - 1].open, rows[k].hl, rows[k].open)
    ensures var chars := rows[k].chars;
      forall j :: 0 <= j < |chars| ==>
        CharDrawn(chars[j], |Render(chars[..j], 0, g)|, |Render(chars[..j + 1], 0, g)|, rows[k].render, g)
  {
    hide Right, Highlight, Render, CharDrawn;
    assert Consistent(g, rows, k);
    HighlightIsRight(g.syntax, rows[k].render, OpenBefore(rows, k));
    var chars := rows[k].chars;
    forall j | 0 <= j < |chars|
      ensures CharDrawn(chars[j], |Render(chars[..j], 0, g)|, |Render(chars[..j + 1], 0, g)|, rows[k].render, g)
    {
      RenderAt(chars, j, g);
    }
  }

  // ----- the editor -----

  class Editor {
    var rows: seq<Row>
    var settings: Settings
    var dirty: bool

    constructor (settings: Settings)
      requires settings.tabstop > 0
      ensures rows == [] && this.settings == settings && !dirty && AllConsistent(settings, rows)
    {
      this.rows, this.settings, this.dirty := [], settings, false;
    }

    /** `editor_update_syntax`. */
    method UpdateSyntax(at: nat)
      requires at < |rows|
      modifies this`rows
      ensures rows == Cascade(settings, old(rows), at)
      decreases |rows| - at
    {
      hide Highlight;
      var old_open := rows[at].open;
      var hl, open := Colour(settings.syntax, rows[at].render, if at > 0 then rows[at - 1].open else 0);
      rows := rows[at := rows[at].(hl := hl, open := open)];
      if open != old_open && at + 1 < |rows| {
        UpdateSyntax(at + 1);
      }
    }

    /** A tab: one place at least, and on to the next stop. */
    method DrawTab(render: string) returns (r: string)
      requires settings.tabstop > 0
      ensures r == render + TabText(TabWidth(|render|, settings.tabstop), settings.showTabs)
    {
      hide TabWidth;
      ghost var n := TabWidth(|render|, settings.tabstop);
      r := render + [if settings.showTabs then '>' else ' '];
      while |r| % settings.tabstop != 0
        invariant |render| < |r| <= |render| + n
        invariant r == render + TabText(n, settings.showTabs)[..|r| - |render|]
        decreases |render| + n - |r|
      {
        r := r + [if settings.showTabs then '.' else ' '];
      }
      NextStop(|render|, settings.tabstop, |r| - |render|);
    }

    method RenderRow(chars: string) returns (render: string)
      requires settings.tabstop > 0
      ensures render == Render(chars, 0, settings)
    {
      hide TabWidth, TabText, Render;
      render := [];
      var j := 0;
      assert chars[..0] == [];
      RenderStep([], 0, settings);
      while j < |chars|
        invariant j <= |chars| && render == Render(chars[..j], 0, settings)
      {
        RenderSplit(chars, j, settings);
        if chars[j] == '\t' {
          render := DrawTab(render);
        } else {
          render := render + [chars[j]];
        }
        j := j + 1;
      }
      assert chars[..j] == chars;
    }

    /** `row_update`. */
    method RowUpdate(at: nat)
      requires settings.tabstop > 0 && at < |rows|
      modifies this`rows
      ensures rows == Update(settings, old(rows), at)
    {
      hide Render, Cascade;
      var render := RenderRow(rows[at].chars);
      rows := rows[at := rows[at].(render := render)];
      UpdateSyntax(at);
    }

    /** New characters for one row; all three in-place edits end here. */
    method Edit(at: nat, chars: string)
      requires settings.tabstop > 0 && at < |rows|
      modifies this
      ensures settings == old(settings) && dirty
      ensures rows == Update(settings, old(rows)[at := old(rows)[at].(chars := chars)], at)
      ensures AllConsistent(settings, old(rows)) ==> AllConsistent(settings, rows)
      ensures |rows| == |old(rows)| && rows[at].chars == chars
      ensures forall k :: 0 <= k < |rows| && k != at ==> rows[k].chars == old(rows)[k].chars
    {
      hide AllConsistent, Update;
      rows := rows[at := rows[at].(chars := chars)];
      UpdateChars(settings, rows, at);
      RowUpdate(at);
      if AllConsistent(settings, old(rows)) { EditKeepsConsistent(settings, old(rows), at, chars); }
      dirty := true;
    }

    /** `row_insert_char`: a position outside the row means its end. */
    method InsertChar(r: nat, at: int, ch: char)
      requires settings.tabstop > 0 && r < |rows|
      modifies this
      ensures var was := old(rows)[r].chars;
        var p := if at < 0 || at > |was| then |was| else at;
        |rows| == |old(rows)| && rows[r].chars == was[..p] + [ch] + was[p..]
      ensures forall k :: 0 <= k < |rows| && k != r ==> rows[k].chars == old(rows)[k].chars
      ensures settings == old(settings)
      ensures AllConsistent(settings, old(rows)) ==> AllConsistent(settings, rows)
    {
      hide AllConsistent, Update;
      var chars := rows[r].chars;
      var p := at;
      if p < 0 || p > |chars| { p := |chars|; }
      Edit(r, chars[..p] + [ch] + chars[p..]);
    }

    /** `row_append_string`. */
    method AppendString(r: nat, text: string)
      requires settings.tabstop > 0 && r < |rows|
      modifies this
      ensures |rows| == |old(rows)| && rows[r].chars == old(rows)[r].chars + text
      ensures forall k :: 0 <= k < |rows| && k != r ==> rows[k].chars == old(rows)[k].chars
      ensures settings == old(settings)
      ensures AllConsistent(settings, old(rows)) ==> AllConsistent(settings, rows)
    {
      hide AllConsistent, Update;
      Edit(r, rows[r].chars + text);
    }

    /** `row_delete_char`: a position outside the row changes nothing. */
    method DeleteChar(r: nat, at: int)
      requires settings.tabstop > 0 && r < |rows|
      modifies this
      ensures var was := old(rows)[r].chars;
        |rows| == |old(rows)| && rows[r].chars == if 0 <= at < |was| then was[..at] + was[at + 1..] else was
      ensures forall k :: 0 <= k < |rows| && k != r ==> rows[k].chars == old(rows)[k].chars
      ensures settings == old(settings)
      ensures AllConsistent(settings, old(rows)) ==> AllConsistent(settings, rows)
    {
      hide AllConsistent, Update;
      var chars := rows[r].chars;
      if 0 <= at < |chars| {
        Edit(r, chars[..at] + chars[at + 1..]);
      }
    }

    /** A new language for the buffer: every row is coloured anew. */
    method ChooseLanguage(syntax: Option<Lang>)
      requires settings.tabstop > 0 && Drawn(settings, rows)
      modifies this
      ensures settings == old(settings).(syntax := syntax)
      ensures AllConsistent(settings, rows) && rows == Pass(settings, old(rows), 0)
    {
      hide Cascade, AllConsistent, Render;
      settings := settings.(syntax := syntax);
      SameDrawing(old(settings), syntax, rows);
      PassConsistent(settings, rows);
      var i := 0;
      while i < |rows|
        invariant i <= |rows| && settings == old(settings).(syntax := syntax)
        invariant Pass(settings, rows, i) == Pass(settings, old(rows), 0)
      {
        UpdateSyntax(i);
        i := i + 1;
      }
    }

    /** New tab settings: every row is drawn and coloured anew. */
    method ChangeTabs(tabstop: nat, show: bool)
      requires tabstop > 0
      modifies this
      ensures settings == old(settings).(tabstop := tabstop, showTabs := show)
      ensures AllConsistent(settings, rows) && rows == Redraw(settings, old(rows), 0)
    {
      hide Update, AllConsistent;
      settings := settings.(tabstop := tabstop, showTabs := show);
      RedrawReaches(settings, rows, 0);
      var i := 0;
      while i < |rows|
        invariant i <= |rows| && settings == old(settings).(tabstop := tabstop, showTabs := show)
        invariant Redraw(settings, rows, i) == Redraw(settings, old(rows), 0)
      {
        RowUpdate(i);
        i := i + 1;
      }
    }
  }

  lemma {:induction false} SameRender(g: Settings, syntax: Option<Lang>, chars: string, idx: nat)
    requires g.tabstop > 0
    ensures Render(chars, idx, g.(syntax := syntax)) == Render(chars, idx, g)
    decreases chars
  {
    hide TabWidth, TabText;
    if chars != [] {
      var n := if chars[0] == '\t' then TabWidth(idx, g.tabstop) else 1;
      SameRender(g, syntax, chars[1..], idx + n);
    }
  }

  lemma SameDrawing(g: Settings, syntax: Option<Lang>, rows: seq<Row>)
    requires g.tabstop > 0 && Drawn(g, rows)
    ensures Drawn(g.(syntax := syntax), rows)
  {
    hide Render;
    forall k | 0 <= k < |rows| ensures rows[k].render == Render(rows[k].chars, 0, g.(syntax := syntax)) {
      SameRender(g, syntax, rows[k].chars, 0);
    }
  }
}
