/** neo's row highlighters (`hl_generic`, `hl_html` in usr/apps/neo.c) as
    functions from a rendered row and the open state before it. */
module NeoSyntax {
  import opened Options

  const NORMAL := 0
  const COMMENT := 1
  const MLCOMMENT := 2
  const STRING := 3
  const NUMBER := 4
  const ESCAPE := 5
  const TAG := 6
  const ATTR := 7
  const GROUP0 := 8

  datatype Group = Group(chars: bool, words: seq<string>)

  datatype Lang = Lang(linec: string, b0: string, b1: string, sq: bool, bt: bool, html: bool, groups: seq<Group>)

  predicate IsSpace(c: char) { c == ' ' || c == '\t' || c == '\r' || c == '\n' || c as int == 11 || c as int == 12 }

  predicate IsDigit(c: char) { '0' <= c <= '9' }

  predicate IsAlpha(c: char) { 'a' <= c <= 'z' || 'A' <= c <= 'Z' }

  predicate IsSep(c: char) { c == '\0' || IsSpace(c) || c in ",.()+-/*=~%<>[]{};:&|!?^" }

  predicate StartsAt(s: string, i: nat, w: string) { i + |w| <= |s| && s[i..i + |w|] == w }

  /** `memset` over n places from i on. */
  function Paint(hl: seq<nat>, i: nat, n: nat, v: nat): (r: seq<nat>)
    requires i + n <= |hl|
    ensures |r| == |hl|
  {
    hl[..i] + seq(n, _ => v) + hl[i + n..]
  }

  /** The scanner between two turns of its loop; quote is 0 outside a string. */
  datatype Scan = Scan(i: nat, prevSep: bool, quote: char, inComment: bool, hl: seq<nat>)

  predicate Fits(s: string, st: Scan) { st.i <= |s| == |st.hl| }

  // ----- ordinary languages -----

  predicate NumberChar(c: char) { IsDigit(c) || c == '.' || c in "xXabcdefABCDEFul" }

  function NumberEnd(s: string, i: nat): (e: nat)
    requires i <= |s|
    ensures i <= e <= |s|
    decreases |s| - i
  {
    if i < |s| && NumberChar(s[i]) then NumberEnd(s, i + 1) else i
  }

  predicate WordAt(s: string, i: nat, g: Group, w: string) {
    w != "" && StartsAt(s, i, w) && (g.chars || IsSep(if i + |w| < |s| then s[i + |w|] else '\0'))
  }

  /** The first word of a group that stands at i. */
  function FindWord(s: string, i: nat, g: Group, k: nat): (n: nat)
    requires k <= |g.words| && i <= |s|
    ensures i + n <= |s|
    decreases |g.words| - k
  {
    if k == |g.words| then 0
    else if WordAt(s, i, g, g.words[k]) then |g.words[k]|
    else FindWord(s, i, g, k + 1)
  }

  /** The first group with a word at i, and the length of the word; 0 if there is none. */
  function FindGroup(s: string, i: nat, groups: seq<Group>, gi: nat, prevSep: bool): (r: (nat, nat))
    requires gi <= |groups| && i <= |s|
    ensures i + r.1 <= |s|
    decreases |groups| - gi
  {
    if gi == |groups| then (gi, 0)
    else
      var n := if !groups[gi].chars && !prevSep then 0 else FindWord(s, i, groups[gi], 0);
      if n > 0 then (gi, n) else FindGroup(s, i, groups, gi + 1, prevSep)
  }

  predicate Quote(L: Lang, c: char) { c == '"' || (L.sq && c == '\'') || (L.bt && c == '`') }

  function InString(s: string, st: Scan): (r: Scan)
    requires Fits(s, st) && st.i < |s|
    ensures Fits(s, r) && r.i > st.i
  {
    var c := s[st.i];
    if c == '\\' && st.i + 1 < |s| then st.(i := st.i + 2, hl := st.hl[st.i := ESCAPE][st.i + 1 := ESCAPE])
    else st.(i := st.i + 1, quote := if c == st.quote then '\0' else st.quote, prevSep := true, hl := st.hl[st.i := STRING])
  }

  function InComment(L: Lang, s: string, st: Scan): (r: Scan)
    requires Fits(s, st) && st.i < |s|
    ensures Fits(s, r) && r.i > st.i
  {
    if L.b1 != "" && StartsAt(s, st.i, L.b1) then
      st.(i := st.i + |L.b1|, inComment := false, prevSep := true, hl := Paint(st.hl, st.i, |L.b1|, MLCOMMENT))
    else st.(i := st.i + 1, hl := st.hl[st.i := MLCOMMENT])
  }

  function Plain(L: Lang, s: string, st: Scan): (r: Scan)
    requires Fits(s, st) && st.i < |s|
    ensures Fits(s, r) && r.i > st.i
  {
    var c := s[st.i];
    if IsDigit(c) && st.prevSep then
      var e := NumberEnd(s, st.i + 1);
      st.(i := e, prevSep := false, hl := Paint(st.hl, st.i, e - st.i, NUMBER))
    else
      var (gi, n) := FindGroup(s, st.i, L.groups, 0, st.prevSep);
      if n > 0 then st.(i := st.i + n, prevSep := false, hl := Paint(st.hl, st.i, n, GROUP0 + gi))
      else st.(i := st.i + 1, prevSep := IsSep(c))
  }

  predicate LineComment(L: Lang, s: string, st: Scan) {
    st.quote == '\0' && !st.inComment && L.linec != "" && StartsAt(s, st.i, L.linec)
  }

  /** One turn of the scanner outside a line comment. */
  function Turn(L: Lang, s: string, st: Scan): (r: Scan)
    requires Fits(s, st) && st.i < |s|
    ensures Fits(s, r) && r.i > st.i
  {
    if st.quote == '\0' && L.b0 != "" && st.inComment then InComment(L, s, st)
    else if st.quote == '\0' && L.b0 != "" && StartsAt(s, st.i, L.b0) then
      st.(i := st.i + |L.b0|, inComment := true, hl := Paint(st.hl, st.i, |L.b0|, MLCOMMENT))
    else if st.quote != '\0' then InString(s, st)
    else if Quote(L, s[st.i]) then st.(i := st.i + 1, quote := s[st.i], hl := st.hl[st.i := STRING])
    else Plain(L, s, st)
  }

  /** The rest of a row: a line comment runs to its end. */
  function Generic(L: Lang, s: string, st: Scan): (r: Scan)
    requires Fits(s, st)
    ensures Fits(s, r)
    decreases |s| - st.i
  {
    if st.i == |s| then st
    else if LineComment(L, s, st) then st.(hl := Paint(st.hl, st.i, |s| - st.i, COMMENT))
    else Generic(L, s, Turn(L, s, st))
  }

  // ----- html -----

  /** The open state: 0 text, 1 comment, 2 inside a tag. */
  datatype Html = Html(i: nat, quote: char, state: int, hl: seq<nat>)

  predicate HtmlFits(s: string, st: Html) { st.i <= |s| == |st.hl| }

  predicate TagChar(c: char) { IsAlpha(c) || IsDigit(c) || c == '/' || c == '!' }

  predicate AttrChar(c: char) { IsAlpha(c) || IsDigit(c) || c == '-' || c == ':' }

  function TagEnd(s: string, i: nat): (e: nat)
    requires i <= |s|
    ensures i <= e <= |s|
    decreases |s| - i
  {
    if i < |s| && TagChar(s[i]) then TagEnd(s, i + 1) else i
  }

  function AttrEnd(s: string, i: nat): (e: nat)
    requires i <= |s|
    ensures i <= e <= |s|
    ensures i < |s| && AttrChar(s[i]) ==> e > i
    decreases |s| - i
  {
    if i < |s| && AttrChar(s[i]) then AttrEnd(s, i + 1) else i
  }

  /** Where the search for the end of an entity that starts at i stops. */
  function EntityStop(s: string, i: nat, j: nat): (e: nat)
    requires i < j <= |s|
    ensures j <= e <= |s|
    decreases |s| - j
  {
    if j < |s| && s[j] != ';' && s[j] != ' ' && j - i < 12 then EntityStop(s, i, j + 1) else j
  }

  predicate NoteOpens(s: string, i: nat) { StartsAt(s, i, "<!--") }

  predicate NoteCloses(s: string, i: nat) { StartsAt(s, i, "-->") }

  function InHtmlComment(s: string, st: Html): (r: Html)
    requires HtmlFits(s, st) && st.i < |s|
    ensures HtmlFits(s, r) && r.i > st.i
  {
    if NoteCloses(s, st.i) then st.(i := st.i + 3, state := 0, hl := Paint(st.hl, st.i, 3, MLCOMMENT))
    else st.(i := st.i + 1, hl := st.hl[st.i := MLCOMMENT])
  }

  function InText(s: string, st: Html): (r: Html)
    requires HtmlFits(s, st) && st.i < |s|
    ensures HtmlFits(s, r) && r.i > st.i
  {
    var c := s[st.i];
    if NoteOpens(s, st.i) then st.(i := st.i + 4, state := 1, hl := Paint(st.hl, st.i, 4, MLCOMMENT))
    else if c == '<' then
      var e := TagEnd(s, st.i + 1);
      st.(i := e, state := 2, hl := Paint(st.hl, st.i, e - st.i, TAG))
    else
      var j := EntityStop(s, st.i, st.i + 1);
      if c == '&' && j < |s| && s[j] == ';' then st.(i := j + 1, hl := Paint(st.hl, st.i, j - st.i + 1, ESCAPE))
      else st.(i := st.i + 1)
  }

  function InTag(s: string, st: Html): (r: Html)
    requires HtmlFits(s, st) && st.i < |s|
    ensures HtmlFits(s, r) && r.i > st.i
  {
    var c := s[st.i];
    if st.quote != '\0' then st.(i := st.i + 1, quote := if c == st.quote then '\0' else st.quote, hl := st.hl[st.i := STRING])
    else if c == '"' || c == '\'' then st.(i := st.i + 1, quote := c, hl := st.hl[st.i := STRING])
    else if c == '>' then st.(i := st.i + 1, state := 0, hl := st.hl[st.i := TAG])
    else if IsAlpha(c) then
      var e := AttrEnd(s, st.i);
      st.(i := e, hl := Paint(st.hl, st.i, e - st.i, ATTR))
    else st.(i := st.i + 1)
  }

  function HtmlTurn(s: string, st: Html): (r: Html)
    requires HtmlFits(s, st) && st.i < |s|
    ensures HtmlFits(s, r) && r.i > st.i
  {
    if st.state == 1 then InHtmlComment(s, st) else if st.state == 0 then InText(s, st) else InTag(s, st)
  }

  function HtmlRow(s: string, st: Html): (r: Html)
    requires HtmlFits(s, st)
    ensures HtmlFits(s, r)
    decreases |s| - st.i
  {
    if st.i == |s| then st else HtmlRow(s, HtmlTurn(s, st))
  }

  // ----- a row -----

  function Unpainted(n: nat): (hl: seq<nat>)
    ensures |hl| == n
  {
    seq(n, _ => NORMAL)
  }

  /** The colours of a row and the state it leaves open, from the state open before it. */
  function Highlight(syntax: Option<Lang>, s: string, before: int): (r: (seq<nat>, int))
    ensures |r.0| == |s|
  {
    if syntax.None? then (Unpainted(|s|), 0)
    else if syntax.value.html then
      var st := HtmlRow(s, Html(0, '\0', before, Unpainted(|s|)));
      (st.hl, st.state)
    else
      var st := Generic(syntax.value, s, Scan(0, true, '\0', before == 1, Unpainted(|s|)));
      (st.hl, if st.inComment then 1 else 0)
  }
}
