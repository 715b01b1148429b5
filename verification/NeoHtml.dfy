/** What neo paints in a row of HTML, stated on places of the row, as for ordinary languages. */
module NeoHtml {
  import opened Options
  import opened NeoSyntax
  import opened NeoShown

  datatype Part = Note(closed: bool) | Tag | TagClose | Attr | Value | Entity | Text

  datatype Piece = Piece(part: Part, from: nat, to: nat)

  ghost predicate OpenHere(s: string, i: nat) { Here(s, i, "<!--") }

  ghost predicate CloseHere(s: string, i: nat) { Here(s, i, "-->") }

  /** A comment whose text starts at `text` runs to the first "-->", or to the end of the row. */
  ghost predicate NoteEnds(s: string, text: nat, to: nat, closed: bool) {
    if closed then text + 3 <= to && CloseHere(s, to - 3) && forall k :: text <= k < to - 3 ==> !CloseHere(s, k)
    else to == |s| && forall k :: text <= k ==> !CloseHere(s, k)
  }

  ghost predicate InTagName(c: char) { Alnum(c) || c == '/' || c == '!' }

  ghost predicate InAttrName(c: char) { Alnum(c) || c == '-' || c == ':' }

  ghost predicate Letter(c: char) { 'A' <= c <= 'Z' || 'a' <= c <= 'z' }

  ghost predicate TagEnds(s: string, i: nat, to: nat) {
    to <= |s| && (forall k :: i < k < to ==> InTagName(s[k])) && (to < |s| ==> !InTagName(s[to]))
  }

  ghost predicate AttrEnds(s: string, i: nat, to: nat) {
    to <= |s| && (forall k :: i < k < to ==> InAttrName(s[k])) && (to < |s| ==> !InAttrName(s[to]))
  }

  /** An ampersand with a semicolon at most 12 places behind it, and neither a semicolon nor a blank between. */
  ghost predicate EntityTo(s: string, i: nat, e: nat)
    requires i < |s|
  {
    && s[i] == '&' && i < e < |s| && e - i <= 12 && s[e] == ';'
    && forall k :: i < k < e ==> s[k] != ';' && s[k] != ' '
  }

  ghost predicate EntityHere(s: string, i: nat)
    requires i < |s|
  {
    exists e :: EntityTo(s, i, e)
  }

  /** A value runs to the next quote of its kind, or to the end of the row. */
  ghost predicate ValueEnds(s: string, i: nat, to: nat)
    requires i < |s|
  {
    if i + 1 < to <= |s| && s[to - 1] == s[i] then forall q :: i < q < to - 1 ==> s[q] != s[i]
    else to == |s| && forall q :: i < q < |s| ==> s[q] != s[i]
  }

  /** The piece that begins at i, in text (0) or inside a tag. */
  ghost predicate IsPiece(s: string, i: nat, state: int, p: Piece) {
    && p.from == i < p.to <= |s|
    && if state == 0 then
         if OpenHere(s, i) then p.part.Note? && NoteEnds(s, i + 4, p.to, p.part.closed)
         else if s[i] == '<' then p.part == Tag && TagEnds(s, i, p.to)
         else if EntityHere(s, i) then p.part == Entity && EntityTo(s, i, p.to - 1)
         else p.part == Text && p.to == i + 1
       else
         if s[i] == '"' || s[i] == '\'' then p.part == Value && ValueEnds(s, i, p.to)
         else if s[i] == '>' then p.part == TagClose && p.to == i + 1
         else if Letter(s[i]) then p.part == Attr && AttrEnds(s, i, p.to)
         else p.part == Text && p.to == i + 1
  }

  /** The state behind a piece. */
  ghost function StateAfter(state: int, part: Part): int {
    match part
    case Note(closed) => if closed then 0 else 1
    case Tag => 2
    case TagClose => 0
    case _ => state
  }

  ghost predicate Cut(s: string, i: nat, state: int, ps: seq<Piece>)
    decreases |ps|
  {
    if ps == [] then i == |s|
    else IsPiece(s, i, state, ps[0]) && Cut(s, ps[0].to, StateAfter(state, ps[0].part), ps[1..])
  }

  /** The pieces of a row; a comment that is open before it goes on at its start. */
  ghost predicate Pieces(s: string, before: int, ps: seq<Piece>) {
    if before == 1 && s != "" then
      && ps != [] && ps[0].part.Note? && ps[0].from == 0 < ps[0].to <= |s|
      && NoteEnds(s, 0, ps[0].to, ps[0].part.closed) && Cut(s, ps[0].to, 0, ps[1..])
    else Cut(s, 0, before, ps)
  }

  ghost function Tint(p: Piece, was: nat): nat {
    match p.part
    case Note(_) => MLCOMMENT
    case Tag => TAG
    case TagClose => TAG
    case Attr => ATTR
    case Value => STRING
    case Entity => ESCAPE
    case Text => was
  }

  ghost predicate Tinted(s: string, i: nat, ps: seq<Piece>, hl: seq<nat>, hl': seq<nat>) {
    && |hl| == |hl'| == |s|
    && (forall j :: 0 <= j < i <= |s| ==> hl'[j] == hl[j])
    && forall k, j :: 0 <= k < |ps| && ps[k].from <= j < ps[k].to <= |s| ==> hl'[j] == Tint(ps[k], hl[j])
  }

  /** The state a row leaves open. */
  ghost function StateAtEnd(before: int, ps: seq<Piece>): int
    decreases |ps|
  {
    if ps == [] then before else StateAtEnd(StateAfter(before, ps[0].part), ps[1..])
  }

  ghost predicate ShowsHtml(s: string, before: int, hl: seq<nat>, hl': seq<nat>, open: int) {
    exists ps :: Pieces(s, before, ps) && Tinted(s, 0, ps, hl, hl') && open == StateAtEnd(before, ps)
  }

  /** What a row must look like: without a language plain, otherwise as its stretches or pieces say. */
  ghost predicate Right(syntax: Option<Lang>, s: string, before: int, hl: seq<nat>, open: int) {
    match syntax
    case None => |hl| == |s| && (forall j :: 0 <= j < |s| ==> hl[j] == NORMAL) && open == 0
    case Some(L) =>
      if L.html then ShowsHtml(s, before, Unpainted(|s|), hl, open) else Shows(L, s, before, Unpainted(|s|), hl, open)
  }

  lemma HighlightIsRight(syntax: Option<Lang>, s: string, before: int)
    ensures var (hl, open) := Highlight(syntax, s, before); Right(syntax, s, before, hl, open)
  {
    hide Shows, ShowsHtml, Generic, HtmlRow;
    if syntax.Some? {
      HtmlShows(s, before, Unpainted(|s|));
      GenericShows(syntax.value, s, before, Unpainted(|s|));
    }
  }

  // ----- the scanner -----

  /** Some turns paint one piece. */
  ghost predicate Paints(s: string, st: Html, p: Piece, end: Html)
    requires HtmlFits(s, st)
  {
    && HtmlFits(s, end) && HtmlRow(s, st) == HtmlRow(s, end) && p.from == st.i < p.to == end.i
    && (forall j :: 0 <= j < |s| ==> end.hl[j] == if st.i <= j < p.to then Tint(p, st.hl[j]) else st.hl[j])
    && end.state == StateAfter(st.state, p.part) && (end.i < |s| ==> end.quote == '\0' && end.state != 1)
  }

  lemma OneTurn(s: string, st: Html)
    requires HtmlFits(s, st) && st.i < |s|
    ensures HtmlRow(s, st) == HtmlRow(s, HtmlTurn(s, st))
  {
    hide HtmlTurn;
  }

  lemma {:induction false} NoteRun(s: string, st: Html, text: nat) returns (closed: bool, end: Html)
    requires HtmlFits(s, st) && st.state == 1 && text <= st.i && forall k :: text <= k < st.i ==> !CloseHere(s, k)
    ensures HtmlFits(s, end) && HtmlRow(s, st) == HtmlRow(s, end) && st.i <= end.i && end.quote == st.quote
    ensures NoteEnds(s, text, end.i, closed) && end.state == if closed then 0 else 1
    ensures forall j :: 0 <= j < |s| ==> end.hl[j] == if st.i <= j < end.i then MLCOMMENT else st.hl[j]
    decreases |s| - st.i
  {
    hide CloseHere, NoteCloses, HtmlRow, InText, InTag;
    if st.i == |s| {
      NoneBeyond(s, text);
      return false, st;
    }
    NoteMeans(s, st.i);
    OneTurn(s, st);
    var next := HtmlTurn(s, st);
    if NoteCloses(s, st.i) { return true, next; }
    closed, end := NoteRun(s, next, text);
  }

  lemma NoneBeyond(s: string, text: nat)
    requires forall k :: text <= k < |s| ==> !CloseHere(s, k)
    ensures NoteEnds(s, text, |s|, false)
  {
  }

  lemma NoteMeans(s: string, i: nat)
    ensures (NoteOpens(s, i) <==> OpenHere(s, i)) && (NoteCloses(s, i) <==> CloseHere(s, i))
    ensures NoteOpens(s, i) ==> i + 4 <= |s|
    ensures NoteCloses(s, i) ==> i + 3 <= |s|
  {
    hide Here;
    StartsMeans(s, i, "<!--");
    StartsMeans(s, i, "-->");
  }

  /** Inside a quoted value. */
  lemma {:induction false} ValueRun(s: string, st: Html, a: nat) returns (end: Html)
    requires HtmlFits(s, st) && a < st.i && a < |s| && st.state != 0 && st.state != 1
    requires st.quote == s[a] && s[a] != '\0' && forall q :: a < q < st.i ==> s[q] != s[a]
    ensures HtmlFits(s, end) && HtmlRow(s, st) == HtmlRow(s, end) && st.i <= end.i && end.state == st.state
    ensures ValueEnds(s, a, end.i) && (end.i < |s| ==> end.quote == '\0')
    ensures forall j :: 0 <= j < |s| ==> end.hl[j] == if st.i <= j < end.i then STRING else st.hl[j]
    decreases |s| - st.i
  {
    hide HtmlRow, InText, InHtmlComment;
    if st.i == |s| { return st; }
    OneTurn(s, st);
    var next := HtmlTurn(s, st);
    if s[st.i] == s[a] { return next; }
    end := ValueRun(s, next, a);
  }

  lemma {:induction false} TagEndMeans(s: string, i: nat, k: nat)
    requires i < k <= |s| && forall j :: i < j < k ==> InTagName(s[j])
    ensures TagEnds(s, i, TagEnd(s, k))
    decreases |s| - k
  {
    if k < |s| && TagChar(s[k]) { TagEndMeans(s, i, k + 1); }
  }

  lemma {:induction false} AttrEndMeans(s: string, i: nat, k: nat)
    requires i <= k <= |s| && forall j :: i < j < k ==> InAttrName(s[j])
    ensures k > i || (i < |s| && AttrChar(s[i])) ==> AttrEnds(s, i, AttrEnd(s, k))
    decreases |s| - k
  {
    if k < |s| && AttrChar(s[k]) { AttrEndMeans(s, i, k + 1); }
  }

  /** Where the search for a semicolon stops tells whether there is an entity. */
  lemma {:induction false} EntityStopMeans(s: string, i: nat, k: nat)
    requires i < k <= |s| && s[i] == '&' && k - i <= 12 && forall j :: i < j < k ==> s[j] != ';' && s[j] != ' '
    ensures var e := EntityStop(s, i, k);
      && (e < |s| && s[e] == ';' <==> EntityHere(s, i)) && (e < |s| && s[e] == ';' ==> EntityTo(s, i, e))
    decreases |s| - k
  {
    if k < |s| && s[k] != ';' && s[k] != ' ' && k - i < 12 {
      EntityStopMeans(s, i, k + 1);
    } else if k < |s| && s[k] == ';' {
      assert EntityTo(s, i, k);
    }
  }

  ghost predicate Ready(s: string, st: Html) { HtmlFits(s, st) && st.quote == '\0' && st.state != 1 }

  lemma InTextTurn(s: string, st: Html)
    requires HtmlFits(s, st) && st.i < |s| && st.state == 0
    ensures HtmlTurn(s, st) == InText(s, st)
  {
    hide InText;
  }

  lemma NoteTurn(s: string, st: Html)
    requires Ready(s, st) && st.i < |s| && st.state == 0 && OpenHere(s, st.i)
    ensures st.i + 4 <= |s|
    ensures HtmlTurn(s, st) == st.(i := st.i + 4, state := 1, hl := Paint(st.hl, st.i, 4, MLCOMMENT))
  {
    InTextTurn(s, st);
    hide HtmlTurn, OpenHere, NoteOpens, TagEnd, EntityStop, Paint;
    NoteMeans(s, st.i);
  }

  lemma PaintsNote(s: string, st: Html) returns (p: Piece, end: Html)
    requires Ready(s, st) && st.i < |s| && st.state == 0 && OpenHere(s, st.i)
    ensures Paints(s, st, p, end) && p.part.Note? && NoteEnds(s, st.i + 4, p.to, p.part.closed)
  {
    hide HtmlRow, HtmlTurn, NoteEnds, OpenHere;
    NoteTurn(s, st);
    OneTurn(s, st);
    var next := HtmlTurn(s, st);
    var closed;
    closed, end := NoteRun(s, next, next.i);
    p := Piece(Note(closed), st.i, end.i);
    NoteOpen(s, next.i, end.i, closed);
  }

  lemma NoteOpen(s: string, text: nat, to: nat, closed: bool)
    requires NoteEnds(s, text, to, closed)
    ensures !closed ==> to == |s|
  {
  }

  lemma InTextTag(s: string, st: Html)
    requires HtmlFits(s, st) && st.i < |s| && !NoteOpens(s, st.i) && s[st.i] == '<'
    ensures InText(s, st) == st.(i := TagEnd(s, st.i + 1), state := 2, hl := Paint(st.hl, st.i, TagEnd(s, st.i + 1) - st.i, TAG))
  {
    hide NoteOpens, TagEnd, EntityStop, Paint;
  }

  lemma TagTurn(s: string, st: Html)
    requires Ready(s, st) && st.i < |s| && st.state == 0 && !OpenHere(s, st.i) && s[st.i] == '<'
    ensures var e := TagEnd(s, st.i + 1);
      HtmlTurn(s, st) == st.(i := e, state := 2, hl := Paint(st.hl, st.i, e - st.i, TAG))
  {
    hide HtmlTurn, InText, OpenHere, NoteOpens, TagEnd, EntityStop, Paint;
    InTextTurn(s, st);
    NoteMeans(s, st.i);
    InTextTag(s, st);
  }

  lemma PaintsTagName(s: string, st: Html) returns (p: Piece)
    requires Ready(s, st) && st.i < |s| && st.state == 0 && !OpenHere(s, st.i) && s[st.i] == '<'
    ensures Paints(s, st, p, HtmlTurn(s, st)) && p.part == Tag && TagEnds(s, st.i, p.to)
  {
    hide HtmlRow, HtmlTurn, OpenHere, TagEnd, TagEnds;
    OneTurn(s, st);
    TagTurn(s, st);
    TagEndMeans(s, st.i, st.i + 1);
    p := Piece(Tag, st.i, TagEnd(s, st.i + 1));
  }

  function TextStep(s: string, st: Html): Html
    requires HtmlFits(s, st) && st.i < |s|
  {
    var e := EntityStop(s, st.i, st.i + 1);
    if s[st.i] == '&' && e < |s| && s[e] == ';' then st.(i := e + 1, hl := Paint(st.hl, st.i, e - st.i + 1, ESCAPE))
    else st.(i := st.i + 1)
  }

  lemma InTextOther(s: string, st: Html)
    requires HtmlFits(s, st) && st.i < |s| && !NoteOpens(s, st.i) && s[st.i] != '<'
    ensures InText(s, st) == TextStep(s, st)
  {
    hide NoteOpens, TagEnd, EntityStop, Paint;
  }

  lemma TextTurn(s: string, st: Html)
    requires Ready(s, st) && st.i < |s| && st.state == 0 && !OpenHere(s, st.i) && s[st.i] != '<'
    ensures HtmlTurn(s, st) == TextStep(s, st)
  {
    hide HtmlTurn, InText, OpenHere, NoteOpens, TextStep;
    InTextTurn(s, st);
    NoteMeans(s, st.i);
    InTextOther(s, st);
  }

  lemma PaintsEntity(s: string, st: Html) returns (p: Piece)
    requires Ready(s, st) && st.i < |s| && st.state == 0 && !OpenHere(s, st.i) && s[st.i] != '<' && EntityHere(s, st.i)
    ensures Paints(s, st, p, HtmlTurn(s, st)) && p.part == Entity && EntityTo(s, st.i, p.to - 1)
  {
    hide HtmlRow, HtmlTurn, OpenHere, EntityStop, EntityTo;
    OneTurn(s, st);
    TextTurn(s, st);
    AmpHere(s, st.i);
    EntityStopMeans(s, st.i, st.i + 1);
    p := Piece(Entity, st.i, EntityStop(s, st.i, st.i + 1) + 1);
  }

  lemma AmpHere(s: string, i: nat)
    requires i < |s| && EntityHere(s, i)
    ensures s[i] == '&'
  {
  }

  lemma PaintsChar(s: string, st: Html)
    requires Ready(s, st) && st.i < |s| && st.state == 0 && !OpenHere(s, st.i) && s[st.i] != '<' && !EntityHere(s, st.i)
    ensures Paints(s, st, Piece(Text, st.i, st.i + 1), HtmlTurn(s, st))
  {
    hide HtmlRow, HtmlTurn, OpenHere, EntityStop, EntityTo, EntityHere;
    OneTurn(s, st);
    TextTurn(s, st);
    if s[st.i] == '&' { EntityStopMeans(s, st.i, st.i + 1); }
  }

  /** The other pieces of text: one turn each. */
  lemma PaintsText(s: string, st: Html) returns (p: Piece)
    requires Ready(s, st) && st.i < |s| && st.state == 0 && !OpenHere(s, st.i)
    ensures Paints(s, st, p, HtmlTurn(s, st)) && IsPiece(s, st.i, st.state, p)
  {
    hide HtmlRow, HtmlTurn, OpenHere, TagEnds, EntityTo, EntityHere;
    if s[st.i] == '<' {
      p := PaintsTagName(s, st);
    } else if EntityHere(s, st.i) {
      p := PaintsEntity(s, st);
    } else {
      PaintsChar(s, st);
      p := Piece(Text, st.i, st.i + 1);
    }
  }

  lemma PaintsValue(s: string, st: Html) returns (p: Piece, end: Html)
    requires Ready(s, st) && st.i < |s| && st.state != 0 && (s[st.i] == '"' || s[st.i] == '\'')
    ensures Paints(s, st, p, end) && p.part == Value && ValueEnds(s, st.i, p.to)
  {
    OneTurn(s, st);
    var next := HtmlTurn(s, st);
    assert next == st.(i := st.i + 1, quote := s[st.i], hl := st.hl[st.i := STRING]);
    hide HtmlRow, HtmlTurn, ValueEnds;
    end := ValueRun(s, next, st.i);
    p := Piece(Value, st.i, end.i);
  }

  lemma PaintsTag(s: string, st: Html) returns (p: Piece)
    requires Ready(s, st) && st.i < |s| && st.state != 0 && s[st.i] != '"' && s[st.i] != '\''
    ensures Paints(s, st, p, HtmlTurn(s, st)) && IsPiece(s, st.i, st.state, p)
  {
    OneTurn(s, st);
    hide HtmlRow, AttrEnd, AttrEnds;
    var end := HtmlTurn(s, st);
    if s[st.i] == '>' {
      p := Piece(TagClose, st.i, end.i);
    } else if IsAlpha(s[st.i]) {
      AttrEndMeans(s, st.i, st.i);
      p := Piece(Attr, st.i, end.i);
    } else {
      p := Piece(Text, st.i, end.i);
    }
  }

  lemma PaintsNext(s: string, st: Html) returns (p: Piece, end: Html)
    requires Ready(s, st) && st.i < |s|
    ensures Paints(s, st, p, end) && IsPiece(s, st.i, st.state, p)
  {
    hide HtmlTurn, HtmlRow, NoteEnds, ValueEnds, OpenHere, TagEnds, AttrEnds, EntityTo, EntityHere;
    if st.state == 0 && OpenHere(s, st.i) {
      p, end := PaintsNote(s, st);
    } else if st.state == 0 {
      p := PaintsText(s, st);
      end := HtmlTurn(s, st);
    } else if s[st.i] == '"' || s[st.i] == '\'' {
      p, end := PaintsValue(s, st);
    } else {
      p := PaintsTag(s, st);
      end := HtmlTurn(s, st);
    }
  }

  lemma {:induction false} CutFrom(s: string, i: nat, state: int, ps: seq<Piece>)
    requires Cut(s, i, state, ps)
    ensures Behind(s, i, ps)
    decreases |ps|
  {
    hide IsPiece;
    if ps != [] {
      PieceFits(s, i, state, ps[0]);
      CutFrom(s, ps[0].to, StateAfter(state, ps[0].part), ps[1..]);
      forall k | 0 <= k < |ps| ensures i <= ps[k].from < ps[k].to <= |s| {
        if k > 0 { assert ps[k] == ps[1..][k - 1]; }
      }
    }
  }

  ghost predicate Behind(s: string, i: nat, ps: seq<Piece>) {
    forall k :: 0 <= k < |ps| ==> i <= ps[k].from < ps[k].to <= |s|
  }

  lemma PieceFits(s: string, i: nat, state: int, p: Piece)
    requires IsPiece(s, i, state, p)
    ensures p.from == i < p.to <= |s|
  {
  }

  lemma TintedMore(s: string, p: Piece, ps: seq<Piece>, hl: seq<nat>, mid: seq<nat>, hl': seq<nat>)
    requires p.from < p.to <= |s| == |hl| == |mid| && Behind(s, p.to, ps)
    requires forall j :: 0 <= j < |s| ==> mid[j] == if p.from <= j < p.to then Tint(p, hl[j]) else hl[j]
    requires Tinted(s, p.to, ps, mid, hl')
    ensures Tinted(s, p.from, [p] + ps, hl, hl')
  {
    hide Tint;
    var all := [p] + ps;
    forall k, j | 0 <= k < |all| && all[k].from <= j < all[k].to <= |s| ensures hl'[j] == Tint(all[k], hl[j]) {
      if k > 0 { assert all[k] == ps[k - 1]; }
    }
  }

  lemma AtEnd(s: string, st: Html)
    requires HtmlFits(s, st) && st.i == |s|
    ensures HtmlRow(s, st) == st && Tinted(s, |s|, [], st.hl, st.hl)
  {
  }

  lemma CutMore(s: string, i: nat, state: int, p: Piece, ps: seq<Piece>)
    requires IsPiece(s, i, state, p) && i < p.to && Cut(s, p.to, StateAfter(state, p.part), ps)
    ensures Cut(s, i, state, [p] + ps) && StateAtEnd(state, [p] + ps) == StateAtEnd(StateAfter(state, p.part), ps)
  {
    hide IsPiece;
    assert ([p] + ps)[1..] == ps;
  }

  lemma {:induction false} PaintsRest(s: string, st: Html) returns (ps: seq<Piece>)
    requires HtmlFits(s, st) && (st.i < |s| ==> Ready(s, st))
    ensures var end := HtmlRow(s, st);
      Cut(s, st.i, st.state, ps) && Tinted(s, st.i, ps, st.hl, end.hl) && end.state == StateAtEnd(st.state, ps)
    decreases |s| - st.i
  {
    hide HtmlRow, IsPiece, Tint, Tinted;
    if st.i == |s| {
      AtEnd(s, st);
      return [];
    }
    var p, end := PaintsNext(s, st);
    hide Cut;
    var rest := PaintsRest(s, end);
    CutFrom(s, end.i, end.state, rest);
    TintedMore(s, p, rest, st.hl, end.hl, HtmlRow(s, end).hl);
    CutMore(s, st.i, st.state, p, rest);
    ps := [p] + rest;
  }

  /** Every row of HTML, from any open state: its colours are those of its pieces. */
  lemma HtmlShows(s: string, before: int, hl: seq<nat>)
    requires |hl| == |s|
    ensures var end := HtmlRow(s, Html(0, '\0', before, hl)); ShowsHtml(s, before, hl, end.hl, end.state)
  {
    hide HtmlRow, Tinted, Cut, Tint;
    var st := Html(0, '\0', before, hl);
    var ps;
    if before == 1 && s != "" {
      ps := ContinuedShows(s, hl);
    } else {
      ps := PaintsRest(s, st);
    }
    assert Pieces(s, before, ps);
  }

  /** A row that begins inside a comment. */
  lemma ContinuedShows(s: string, hl: seq<nat>) returns (ps: seq<Piece>)
    requires |hl| == |s| && s != ""
    ensures var end := HtmlRow(s, Html(0, '\0', 1, hl));
      Pieces(s, 1, ps) && Tinted(s, 0, ps, hl, end.hl) && end.state == StateAtEnd(1, ps)
  {
    hide HtmlRow, Tinted, Cut, NoteEnds, CloseHere;
    var st := Html(0, '\0', 1, hl);
    var closed, end := NoteRun(s, st, 0);
    NoteOpen(s, 0, end.i, closed);
    NoteSome(s, end.i, closed);
    var p := Piece(Note(closed), 0, end.i);
    var rest := PaintsRest(s, end);
    EndState(s, end.i, end.state, rest);
    CutFrom(s, end.i, end.state, rest);
    TintedMore(s, p, rest, hl, end.hl, HtmlRow(s, end).hl);
    ps := [p] + rest;
    assert ps[1..] == rest;
  }

  lemma NoteSome(s: string, to: nat, closed: bool)
    requires NoteEnds(s, 0, to, closed) && s != ""
    ensures 0 < to
  {
  }

  /** At the end of a row the state does not matter. */
  lemma EndState(s: string, i: nat, state: int, ps: seq<Piece>)
    requires Cut(s, i, state, ps)
    ensures i == |s| ==> ps == [] && Cut(s, i, 0, ps)
  {
  }

  // ----- the pieces of a row are unique -----

  lemma NoteOnce(s: string, text: nat, to: nat, closed: bool, to': nat, closed': bool)
    requires NoteEnds(s, text, to, closed) && NoteEnds(s, text, to', closed')
    ensures to == to' && closed == closed'
  {
    hide CloseHere;
  }

  lemma PieceOnce(s: string, i: nat, state: int, a: Piece, b: Piece)
    requires IsPiece(s, i, state, a) && IsPiece(s, i, state, b)
    ensures a == b
  {
    hide OpenHere, NoteEnds, InTagName, InAttrName, EntityHere;
    if state == 0 && OpenHere(s, i) {
      NoteOnce(s, i + 4, a.to, a.part.closed, b.to, b.part.closed);
    }
  }

  lemma {:induction false} CutOnce(s: string, i: nat, state: int, a: seq<Piece>, b: seq<Piece>)
    requires Cut(s, i, state, a) && Cut(s, i, state, b)
    ensures a == b
    decreases |a|
  {
    hide IsPiece;
    if a == [] {
      NoneAtEnd(s, i, state, b);
    } else {
      PieceFits(s, i, state, a[0]);
      PieceOnce(s, i, state, a[0], b[0]);
      CutOnce(s, a[0].to, StateAfter(state, a[0].part), a[1..], b[1..]);
      assert a == [a[0]] + a[1..] && b == [b[0]] + b[1..];
    }
  }

  lemma NoneAtEnd(s: string, i: nat, state: int, b: seq<Piece>)
    requires i == |s| && Cut(s, i, state, b)
    ensures b == []
  {
  }

  lemma PiecesOnce(s: string, before: int, a: seq<Piece>, b: seq<Piece>)
    requires Pieces(s, before, a) && Pieces(s, before, b)
    ensures a == b
  {
    hide Cut, NoteEnds;
    if before == 1 && s != "" {
      NoteOnce(s, 0, a[0].to, a[0].part.closed, b[0].to, b[0].part.closed);
      CutOnce(s, a[0].to, 0, a[1..], b[1..]);
      assert a == [a[0]] + a[1..] && b == [b[0]] + b[1..];
    } else {
      CutOnce(s, 0, before, a, b);
    }
  }
}
