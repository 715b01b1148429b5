/** What neo paints in a row, stated on places of the row: which stretches there are, where each begins and
    ends, and which colour every place in them has. The stretches are unique, and the scanners paint them. */
module NeoShown {
  import opened NeoSyntax

  // ----- places -----

  /** w stands at i. */
  ghost predicate Here(s: string, i: nat, w: string) {
    i + |w| <= |s| && forall k :: 0 <= k < |w| ==> s[i + k] == w[k]
  }

  ghost predicate FirstHere(s: string, from: nat, w: string, k: nat) {
    from <= k && Here(s, k, w) && forall j :: from <= j < k ==> !Here(s, j, w)
  }

  ghost predicate Alnum(c: char) { '0' <= c <= '9' || 'A' <= c <= 'Z' || 'a' <= c <= 'z' }

  /** The end of the row, white space, and all ASCII punctuation but eight characters. */
  ghost predicate Separates(c: char) {
    var n := c as int;
    n == 0 || 9 <= n <= 13 || n == 32 || (33 <= n <= 126 && !Alnum(c) && c !in ['"', '#', '$', '\'', '@', '\\', '_', '`'])
  }

  ghost predicate SeparatesAt(s: string, i: nat) { i >= |s| || Separates(s[i]) }

  /** How many backslashes stand in a row just before k, behind a. */
  ghost function Slashes(s: string, a: nat, k: nat): nat
    requires a < |s| && k <= |s|
  {
    if k <= a + 1 || s[k - 1] != '\\' then 0 else 1 + Slashes(s, a, k - 1)
  }

  /** A backslash of the string that opens at a takes the character at k. */
  ghost predicate Taken(s: string, a: nat, k: nat)
    requires a < |s| && k <= |s|
  {
    Slashes(s, a, k) % 2 == 1
  }

  // ----- stretches of an ordinary language -----

  datatype Kind = Line | Block(closed: bool) | Quoted | Num | Word(group: nat) | Other

  datatype Span = Span(kind: Kind, from: nat, to: nat)

  ghost predicate CommentHere(L: Lang, s: string, i: nat) { L.linec != "" && Here(s, i, L.linec) }

  ghost predicate BlockHere(L: Lang, s: string, i: nat) { L.b0 != "" && Here(s, i, L.b0) }

  ghost predicate QuoteHere(L: Lang, s: string, i: nat)
    requires i < |s|
  {
    s[i] == '"' || (s[i] == '\'' && L.sq) || (s[i] == '`' && L.bt)
  }

  ghost predicate NumHere(s: string, i: nat, sep: bool)
    requires i < |s|
  {
    '0' <= s[i] <= '9' && sep
  }

  /** A listed word stands at i: any place will do for a group of characters, others need separators around. */
  ghost predicate WordHere(g: Group, s: string, i: nat, sep: bool, w: string) {
    w != "" && Here(s, i, w) && (g.chars || (sep && SeparatesAt(s, i + |w|)))
  }

  ghost predicate GroupHere(g: Group, s: string, i: nat, sep: bool) {
    exists k :: 0 <= k < |g.words| && WordHere(g, s, i, sep, g.words[k])
  }

  /** A comment whose text starts at `text` runs to the first b1, or to the end of the row. */
  ghost predicate BlockEnds(L: Lang, s: string, text: nat, to: nat, closed: bool) {
    if closed then L.b1 != "" && |L.b1| <= to && FirstHere(s, text, L.b1, to - |L.b1|)
    else to == |s| && (L.b1 == "" || forall k :: text <= k ==> !Here(s, k, L.b1))
  }

  /** The quote at q closes the string that opens at i. */
  ghost predicate Closes(s: string, i: nat, q: nat)
    requires i < |s|
  {
    i < q < |s| && s[q] == s[i] && !Taken(s, i, q)
  }

  ghost predicate QuotedEnds(s: string, i: nat, to: nat)
    requires i < |s|
  {
    if i + 1 < to && Closes(s, i, to - 1) then forall q :: i < q < to - 1 ==> !Closes(s, i, q)
    else to == |s| && forall q :: i < q < |s| ==> !Closes(s, i, q)
  }

  ghost predicate NumChar(c: char) {
    '0' <= c <= '9' || 'a' <= c <= 'f' || 'A' <= c <= 'F' || c in ['.', 'x', 'X', 'u', 'l']
  }

  ghost predicate NumEnds(s: string, i: nat, to: nat) {
    to <= |s| && (forall k :: i < k < to ==> NumChar(s[k])) && (to < |s| ==> !NumChar(s[to]))
  }

  /** The first of the words from `from` on that stands there has n characters. */
  ghost predicate FirstWordFrom(g: Group, s: string, i: nat, sep: bool, from: nat, n: nat) {
    exists k :: from <= k < |g.words| && WordHere(g, s, i, sep, g.words[k]) && n == |g.words[k]|
      && forall j :: from <= j < k ==> !WordHere(g, s, i, sep, g.words[j])
  }

  /** The first word of the first group that stands there. */
  ghost predicate WordEnds(L: Lang, s: string, i: nat, sep: bool, g: nat, to: nat) {
    && g < |L.groups| && (forall h :: 0 <= h < g ==> !GroupHere(L.groups[h], s, i, sep))
    && i < to && FirstWordFrom(L.groups[g], s, i, sep, 0, to - i)
  }

  ghost predicate AnyGroup(L: Lang, s: string, i: nat, sep: bool) {
    exists h :: 0 <= h < |L.groups| && GroupHere(L.groups[h], s, i, sep)
  }

  /** The stretch that begins at i, where `sep` says whether a word may begin and `lines` whether line comments are seen. */
  ghost predicate IsSpan(L: Lang, s: string, lines: bool, i: nat, sep: bool, sp: Span) {
    && sp.from == i < sp.to <= |s|
    && if lines && CommentHere(L, s, i) then sp.kind == Line && sp.to == |s|
       else if BlockHere(L, s, i) then sp.kind.Block? && BlockEnds(L, s, i + |L.b0|, sp.to, sp.kind.closed)
       else if QuoteHere(L, s, i) then sp.kind == Quoted && QuotedEnds(s, i, sp.to)
       else if NumHere(s, i, sep) then sp.kind == Num && NumEnds(s, i, sp.to)
       else if AnyGroup(L, s, i, sep) then sp.kind.Word? && WordEnds(L, s, i, sep, sp.kind.group, sp.to)
       else sp.kind == Other && sp.to == i + 1
  }

  /** Whether a word may begin behind a stretch. */
  ghost predicate SepAfter(s: string, sp: Span)
    requires 0 < sp.to <= |s|
  {
    match sp.kind
    case Block(_) => true
    case Quoted => true
    case Other => Separates(s[sp.to - 1])
    case _ => false
  }

  ghost predicate Tiled(L: Lang, s: string, lines: bool, i: nat, sep: bool, spans: seq<Span>)
    decreases |spans|
  {
    if spans == [] then i == |s|
    else
      && IsSpan(L, s, lines, i, sep, spans[0])
      && Tiled(L, s, lines, spans[0].to, SepAfter(s, spans[0]), spans[1..])
  }

  /** The stretches of a row; a comment that is open before it goes on at its start. A language without b0
      cannot close such a comment: it hides line comments, and nothing else. */
  ghost predicate Stretches(L: Lang, s: string, before: int, spans: seq<Span>) {
    if before == 1 && L.b0 != "" && s != "" then
      && spans != [] && spans[0].kind.Block? && spans[0].from == 0 < spans[0].to <= |s|
      && BlockEnds(L, s, 0, spans[0].to, spans[0].kind.closed)
      && Tiled(L, s, true, spans[0].to, true, spans[1..])
    else Tiled(L, s, before != 1, 0, true, spans)
  }

  /** The colour of place j in a string that opens at a. */
  ghost function QuoteShade(s: string, a: nat, j: nat): nat
    requires a <= j < |s|
  {
    if j > a && (Taken(s, a, j) || (s[j] == '\\' && j + 1 < |s|)) then ESCAPE else STRING
  }

  /** The colour of place j in a stretch; other text keeps the one it has. */
  ghost function Shade(s: string, sp: Span, j: nat, was: nat): nat
    requires sp.from <= j < sp.to <= |s|
  {
    match sp.kind
    case Line => COMMENT
    case Block(_) => MLCOMMENT
    case Quoted => QuoteShade(s, sp.from, j)
    case Num => NUMBER
    case Word(g) => GROUP0 + g
    case Other => was
  }

  ghost predicate Shaded(s: string, i: nat, spans: seq<Span>, hl: seq<nat>, hl': seq<nat>) {
    && |hl| == |hl'| == |s|
    && (forall j :: 0 <= j < i <= |s| ==> hl'[j] == hl[j])
    && forall k, j :: 0 <= k < |spans| && spans[k].from <= j < spans[k].to <= |s| ==> hl'[j] == Shade(s, spans[k], j, hl[j])
  }

  ghost predicate LastOpen(spans: seq<Span>) { spans != [] && spans[|spans| - 1].kind == Block(false) }

  /** The state a row leaves open: 1 when its last stretch is a comment without end, when nothing came to
      close the one before it, or when the language cannot close one. */
  ghost function LeftOpen(L: Lang, before: int, spans: seq<Span>): int {
    if LastOpen(spans) || (before == 1 && (L.b0 == "" || spans == [])) then 1 else 0
  }

  /** Colours and open state of a row are those of its stretches. */
  ghost predicate Shows(L: Lang, s: string, before: int, hl: seq<nat>, hl': seq<nat>, open: int) {
    exists spans :: Stretches(L, s, before, spans) && Shaded(s, 0, spans, hl, hl') && open == LeftOpen(L, before, spans)
  }

  // ----- the tests of the scanner, on places -----

  lemma StartsMeans(s: string, i: nat, w: string)
    ensures StartsAt(s, i, w) <==> Here(s, i, w)
  {
    if i + |w| <= |s| {
      var part := s[i..i + |w|];
      assert forall k :: 0 <= k < |w| ==> part[k] == s[i + k];
    }
  }

  ghost predicate ListedCode(n: int) {
    n == 33 || n == 37 || n == 38 || 40 <= n <= 47 || 58 <= n <= 63 || n == 91 || n == 93 || n == 94 || 123 <= n <= 126
  }

  lemma ListedCodes(c: char)
    ensures c in ",.()+-/*=~%<>[]{};:&|!?^" <==> ListedCode(c as int)
  {
    var a, b := ",.()+-/*=~%<", ">[]{};:&|!?^";
    assert ",.()+-/*=~%<>[]{};:&|!?^" == a + b;
    assert c in a <==> c in [',', '.', '(', ')', '+', '-', '/', '*', '=', '~', '%', '<'];
    assert c in b <==> c in ['>', '[', ']', '{', '}', ';', ':', '&', '|', '!', '?', '^'];
  }

  lemma SepMeans(c: char)
    ensures IsSep(c) <==> Separates(c)
  {
    ListedCodes(c);
  }

  lemma {:induction false} NumberEndMeans(s: string, i: nat, k: nat)
    requires i < k <= |s| && forall j :: i < j < k ==> NumChar(s[j])
    ensures NumEnds(s, i, NumberEnd(s, k))
    decreases |s| - k
  {
    if k < |s| { NumberCharMeans(s[k]); }
    if k < |s| && NumberChar(s[k]) { NumberEndMeans(s, i, k + 1); }
  }

  lemma NumberCharMeans(c: char)
    ensures NumberChar(c) <==> NumChar(c)
  {
  }

  lemma WordAtMeans(s: string, i: nat, g: Group, sep: bool, w: string)
    requires g.chars || sep
    ensures WordAt(s, i, g, w) <==> WordHere(g, s, i, sep, w)
  {
    hide Separates, IsSep, Here, StartsAt;
    StartsMeans(s, i, w);
    StartsFits(s, i, w);
    if i + |w| < |s| { SepMeans(s[i + |w|]); } else { SepMeans('\0'); ZeroSeparates(); }
  }

  lemma StartsFits(s: string, i: nat, w: string)
    ensures StartsAt(s, i, w) ==> i + |w| <= |s|
  {
  }

  lemma ZeroSeparates()
    ensures Separates('\0')
  {
  }

  lemma {:induction false} FindWordMeans(s: string, i: nat, g: Group, sep: bool, from: nat)
    requires from <= |g.words| && i <= |s| && (g.chars || sep)
    ensures var n := FindWord(s, i, g, from);
      if n > 0 then FirstWordFrom(g, s, i, sep, from, n)
      else forall k :: from <= k < |g.words| ==> !WordHere(g, s, i, sep, g.words[k])
    decreases |g.words| - from
  {
    hide WordAt, WordHere;
    if from < |g.words| {
      var w := g.words[from];
      WordAtMeans(s, i, g, sep, w);
      if WordAt(s, i, g, w) {
        NotEmpty(s, i, g, w);
      } else {
        FindWordMeans(s, i, g, sep, from + 1);
      }
    }
  }

  lemma NotEmpty(s: string, i: nat, g: Group, w: string)
    ensures WordAt(s, i, g, w) ==> |w| > 0
  {
  }

  lemma GroupMeans(s: string, i: nat, g: Group, sep: bool)
    requires i <= |s|
    ensures var n := if !g.chars && !sep then 0 else FindWord(s, i, g, 0);
      && (n > 0 <==> GroupHere(g, s, i, sep)) && (n > 0 ==> FirstWordFrom(g, s, i, sep, 0, n))
  {
    hide WordHere, FindWord;
    if !g.chars && !sep { NoWords(s, i, g); } else { FindWordMeans(s, i, g, sep, 0); }
  }

  lemma NoWords(s: string, i: nat, g: Group)
    requires !g.chars
    ensures !GroupHere(g, s, i, false)
  {
  }

  lemma {:induction false} FindGroupMeans(L: Lang, s: string, i: nat, sep: bool, from: nat)
    requires from <= |L.groups| && i <= |s| && forall h :: 0 <= h < from ==> !GroupHere(L.groups[h], s, i, sep)
    ensures var (g, n) := FindGroup(s, i, L.groups, from, sep);
      && (n > 0 <==> AnyGroup(L, s, i, sep)) && (n > 0 ==> WordEnds(L, s, i, sep, g, i + n))
    decreases |L.groups| - from
  {
    hide GroupHere, FindWord, WordHere;
    if from < |L.groups| {
      GroupMeans(s, i, L.groups[from], sep);
      if !GroupHere(L.groups[from], s, i, sep) { FindGroupMeans(L, s, i, sep, from + 1); }
    }
  }

  // ----- runs of turns -----

  /** From inside a block comment to its end. */
  lemma {:induction false} CommentRun(L: Lang, s: string, st: Scan, text: nat) returns (closed: bool, end: Scan)
    requires Fits(s, st) && st.quote == '\0' && st.inComment && L.b0 != "" && text <= st.i
    requires L.b1 != "" ==> forall k :: text <= k < st.i ==> !Here(s, k, L.b1)
    ensures Fits(s, end) && Generic(L, s, st) == Generic(L, s, end) && st.i <= end.i
    ensures BlockEnds(L, s, text, end.i, closed) && end.quote == '\0' && end.inComment == !closed
    ensures closed ==> end.prevSep
    ensures forall j :: 0 <= j < |s| ==> end.hl[j] == if st.i <= j < end.i then MLCOMMENT else st.hl[j]
    decreases |s| - st.i
  {
    hide Here, StartsAt, FirstHere;
    if st.i == |s| {
      NoneBeyond(L, s, text);
      return false, st;
    }
    StartsMeans(s, st.i, L.b1);
    var next := Turn(L, s, st);
    if L.b1 != "" && StartsAt(s, st.i, L.b1) {
      CloseHere(L, s, text, st.i);
      return true, next;
    }
    closed, end := CommentRun(L, s, next, text);
  }

  lemma NoneBeyond(L: Lang, s: string, text: nat)
    requires L.b1 != "" ==> forall k :: text <= k < |s| ==> !Here(s, k, L.b1)
    ensures BlockEnds(L, s, text, |s|, false)
  {
  }

  lemma CloseHere(L: Lang, s: string, text: nat, i: nat)
    requires L.b1 != "" && text <= i && Here(s, i, L.b1) && forall k :: text <= k < i ==> !Here(s, k, L.b1)
    ensures BlockEnds(L, s, text, i + |L.b1|, true)
  {
  }

  /** One turn inside a string, at a character that no backslash takes. */
  lemma StringTurn(L: Lang, s: string, st: Scan, a: nat)
    requires Fits(s, st) && a < st.i < |s| && st.quote == s[a] && s[a] != '\0' && s[a] != '\\' && !Taken(s, a, st.i)
    ensures var next := Turn(L, s, st);
      && Generic(L, s, st) == Generic(L, s, next) && next.inComment == st.inComment
      && (forall j :: 0 <= j < |s| ==> next.hl[j] == if st.i <= j < next.i then QuoteShade(s, a, j) else st.hl[j])
      && (if s[st.i] == s[a] then next.i == st.i + 1 && Closes(s, a, st.i) && next.quote == '\0' && next.prevSep
          else
            && next.quote == st.quote && (next.i < |s| ==> !Taken(s, a, next.i))
            && forall q :: st.i <= q < next.i ==> !Closes(s, a, q))
  {
    InStringTurn(L, s, st);
    hide Taken, Turn, Generic;
    TakenNext(s, a, st.i);
  }

  /** A backslash that is not taken takes the next character, and no more. */
  lemma TakenNext(s: string, a: nat, i: nat)
    requires a < i < |s| && !Taken(s, a, i)
    ensures s[i] != '\\' ==> !Taken(s, a, i + 1)
    ensures s[i] == '\\' ==> Taken(s, a, i + 1) && (i + 1 < |s| ==> !Taken(s, a, i + 2))
  {
    hide Slashes;
    SlashesNext(s, a, i);
    if i + 1 < |s| { SlashesNext(s, a, i + 1); }
  }

  lemma InStringTurn(L: Lang, s: string, st: Scan)
    requires Fits(s, st) && st.i < |s| && st.quote != '\0'
    ensures Turn(L, s, st) == InString(s, st) && Generic(L, s, st) == Generic(L, s, InString(s, st))
  {
    hide InString;
  }

  /** From there to the end of the string. */
  lemma {:induction false} StringRun(L: Lang, s: string, st: Scan, a: nat) returns (end: Scan)
    requires Fits(s, st) && a < st.i && a < |s| && st.quote == s[a] && s[a] != '\0' && s[a] != '\\'
    requires (st.i < |s| ==> !Taken(s, a, st.i)) && forall q :: a < q < st.i ==> !Closes(s, a, q)
    ensures Fits(s, end) && Generic(L, s, st) == Generic(L, s, end) && st.i <= end.i && end.inComment == st.inComment
    ensures QuotedEnds(s, a, end.i) && (end.i < |s| ==> end.quote == '\0' && end.prevSep)
    ensures forall j :: 0 <= j < |s| ==> end.hl[j] == if st.i <= j < end.i then QuoteShade(s, a, j) else st.hl[j]
    decreases |s| - st.i
  {
    hide Turn, Generic, Taken, QuoteShade, Closes;
    if st.i == |s| {
      NotClosed(s, a);
      return st;
    }
    StringTurn(L, s, st, a);
    var next := Turn(L, s, st);
    if s[st.i] == s[a] { return next; }
    end := StringRun(L, s, next, a);
  }

  lemma NotClosed(s: string, a: nat)
    requires a < |s| && forall q :: a < q < |s| ==> !Closes(s, a, q)
    ensures QuotedEnds(s, a, |s|)
  {
    hide Taken;
  }

  lemma SlashesNext(s: string, a: nat, k: nat)
    requires a < k < |s|
    ensures Slashes(s, a, k + 1) == if s[k] == '\\' then 1 + Slashes(s, a, k) else 0
  {
  }

  // ----- from stretch to stretch -----

  /** Outside strings and comments; a comment that cannot be closed hides line comments. */
  ghost predicate Ready(L: Lang, s: string, st: Scan) {
    Fits(s, st) && st.quote == '\0' && (st.inComment ==> L.b0 == "")
  }

  /** Colours and comment state at the end of the row. */
  ghost function Final(L: Lang, s: string, st: Scan): (seq<nat>, bool)
    requires Fits(s, st)
  {
    var end := Generic(L, s, st);
    (end.hl, end.inComment)
  }

  /** Some turns paint one stretch. */
  ghost predicate Paints(L: Lang, s: string, st: Scan, sp: Span, end: Scan)
    requires Fits(s, st)
  {
    && Fits(s, end) && Final(L, s, st) == Final(L, s, end) && sp.from == st.i < sp.to == end.i
    && (forall j :: 0 <= j < |s| ==> end.hl[j] == if st.i <= j < sp.to then Shade(s, sp, j, st.hl[j]) else st.hl[j])
    && end.inComment == (st.inComment || sp.kind == Block(false))
    && (end.i < |s| ==> end.quote == '\0' && end.prevSep == SepAfter(s, sp) && sp.kind != Block(false))
  }

  lemma PaintsLine(L: Lang, s: string, st: Scan) returns (sp: Span, end: Scan)
    requires Ready(L, s, st) && st.i < |s| && !st.inComment && CommentHere(L, s, st.i)
    ensures Paints(L, s, st, sp, end) && sp == Span(Line, st.i, |s|)
  {
    hide Turn;
    StartsMeans(s, st.i, L.linec);
    sp := Span(Line, st.i, |s|);
    end := Generic(L, s, st).(i := |s|);
    assert LineComment(L, s, st);
  }

  lemma PaintsBlock(L: Lang, s: string, st: Scan) returns (sp: Span, end: Scan)
    requires Ready(L, s, st) && st.i < |s| && !(!st.inComment && CommentHere(L, s, st.i)) && BlockHere(L, s, st.i)
    ensures Paints(L, s, st, sp, end) && sp.kind.Block? && BlockEnds(L, s, st.i + |L.b0|, sp.to, sp.kind.closed)
  {
    hide CommentHere, BlockHere, BlockEnds;
    BlockTurn(L, s, st);
    var next := Turn(L, s, st);
    var closed;
    closed, end := CommentRun(L, s, next, next.i);
    sp := Span(Block(closed), st.i, end.i);
    hide Turn, Generic;
    NotPast(L, s, next.i, end.i, closed);
  }

  lemma NotPast(L: Lang, s: string, text: nat, to: nat, closed: bool)
    requires BlockEnds(L, s, text, to, closed) && text <= to
    ensures !closed ==> to == |s|
  {
  }

  /** The turn that opens a comment. */
  lemma BlockTurn(L: Lang, s: string, st: Scan)
    requires Ready(L, s, st) && st.i < |s| && !(!st.inComment && CommentHere(L, s, st.i)) && BlockHere(L, s, st.i)
    ensures var next := Turn(L, s, st);
      && Generic(L, s, st) == Generic(L, s, next) && next.i == st.i + |L.b0| && next.quote == '\0' && next.inComment
      && forall j :: 0 <= j < |s| ==> next.hl[j] == if st.i <= j < next.i then MLCOMMENT else st.hl[j]
  {
    hide Here, StartsAt, InComment, InString, Plain;
    StartsMeans(s, st.i, L.linec);
    StartsMeans(s, st.i, L.b0);
    var next := Turn(L, s, st);
    assert !LineComment(L, s, st);
    assert next.hl == Paint(st.hl, st.i, |L.b0|, MLCOMMENT);
  }

  lemma PaintsQuoted(L: Lang, s: string, st: Scan) returns (sp: Span, end: Scan)
    requires Ready(L, s, st) && st.i < |s| && !(!st.inComment && CommentHere(L, s, st.i)) && !BlockHere(L, s, st.i)
    requires QuoteHere(L, s, st.i)
    ensures Paints(L, s, st, sp, end) && sp.kind == Quoted && QuotedEnds(s, st.i, sp.to)
  {
    hide CommentHere, BlockHere, QuotedEnds, Closes;
    QuoteTurn(L, s, st);
    var next := Turn(L, s, st);
    end := StringRun(L, s, next, st.i);
    sp := Span(Quoted, st.i, end.i);
  }

  /** The turn that opens a string. */
  lemma QuoteTurn(L: Lang, s: string, st: Scan)
    requires Ready(L, s, st) && st.i < |s| && !(!st.inComment && CommentHere(L, s, st.i)) && !BlockHere(L, s, st.i)
    requires QuoteHere(L, s, st.i)
    ensures Generic(L, s, st) == Generic(L, s, Turn(L, s, st))
    ensures Turn(L, s, st) == st.(i := st.i + 1, quote := s[st.i], hl := st.hl[st.i := STRING])
    ensures !Taken(s, st.i, st.i + 1)
  {
    hide Here, StartsAt, InComment, InString, Plain;
    StartsMeans(s, st.i, L.linec);
    StartsMeans(s, st.i, L.b0);
    assert !LineComment(L, s, st);
  }

  /** A turn on plain text. */
  lemma PlainTurn(L: Lang, s: string, st: Scan)
    requires Ready(L, s, st) && st.i < |s| && !(!st.inComment && CommentHere(L, s, st.i)) && !BlockHere(L, s, st.i)
    requires !QuoteHere(L, s, st.i)
    ensures Turn(L, s, st) == Plain(L, s, st) && Generic(L, s, st) == Generic(L, s, Plain(L, s, st))
  {
    hide Here, StartsAt, InComment, InString, Plain;
    StartsMeans(s, st.i, L.linec);
    StartsMeans(s, st.i, L.b0);
    assert !LineComment(L, s, st);
  }

  lemma PaintsNum(L: Lang, s: string, st: Scan) returns (sp: Span)
    requires Fits(s, st) && st.i < |s| && st.quote == '\0' && NumHere(s, st.i, st.prevSep)
    requires Generic(L, s, st) == Generic(L, s, Plain(L, s, st))
    ensures Paints(L, s, st, sp, Plain(L, s, st)) && sp.kind == Num && NumEnds(s, st.i, sp.to)
  {
    hide Generic, NumEnds, NumberEnd, FindGroup;
    NumberEndMeans(s, st.i, st.i + 1);
    sp := Span(Num, st.i, NumberEnd(s, st.i + 1));
    assert Plain(L, s, st) == st.(i := sp.to, prevSep := false, hl := Paint(st.hl, st.i, sp.to - st.i, NUMBER));
    hide Plain;
  }

  lemma PaintsWord(L: Lang, s: string, st: Scan) returns (sp: Span)
    requires Fits(s, st) && st.i < |s| && st.quote == '\0' && !NumHere(s, st.i, st.prevSep) && AnyGroup(L, s, st.i, st.prevSep)
    requires Generic(L, s, st) == Generic(L, s, Plain(L, s, st))
    ensures Paints(L, s, st, sp, Plain(L, s, st)) && sp.kind.Word? && WordEnds(L, s, st.i, st.prevSep, sp.kind.group, sp.to)
  {
    hide Generic, AnyGroup, WordEnds, NumberEnd, FindGroup;
    FindGroupMeans(L, s, st.i, st.prevSep, 0);
    var (g, n) := FindGroup(s, st.i, L.groups, 0, st.prevSep);
    sp := Span(Word(g), st.i, st.i + n);
    assert Plain(L, s, st) == st.(i := sp.to, prevSep := false, hl := Paint(st.hl, st.i, n, GROUP0 + g));
    hide Plain;
  }

  lemma PaintsOther(L: Lang, s: string, st: Scan)
    requires Fits(s, st) && st.i < |s| && st.quote == '\0' && !NumHere(s, st.i, st.prevSep) && !AnyGroup(L, s, st.i, st.prevSep)
    requires Generic(L, s, st) == Generic(L, s, Plain(L, s, st))
    ensures Paints(L, s, st, Span(Other, st.i, st.i + 1), Plain(L, s, st))
  {
    hide Generic, AnyGroup, WordEnds, NumberEnd, FindGroup, IsSep, Separates;
    FindGroupMeans(L, s, st.i, st.prevSep, 0);
    SepMeans(s[st.i]);
    assert Plain(L, s, st) == st.(i := st.i + 1, prevSep := IsSep(s[st.i]));
    hide Plain;
  }

  lemma PaintsPlain(L: Lang, s: string, st: Scan) returns (sp: Span, end: Scan)
    requires Ready(L, s, st) && st.i < |s| && !(!st.inComment && CommentHere(L, s, st.i)) && !BlockHere(L, s, st.i)
    requires !QuoteHere(L, s, st.i)
    ensures Paints(L, s, st, sp, end) && IsSpan(L, s, !st.inComment, st.i, st.prevSep, sp)
  {
    PlainTurn(L, s, st);
    end := Plain(L, s, st);
    hide CommentHere, BlockHere, QuoteHere, Generic, AnyGroup, WordEnds, NumEnds, NumHere, Plain, Paints;
    if NumHere(s, st.i, st.prevSep) {
      sp := PaintsNum(L, s, st);
    } else if AnyGroup(L, s, st.i, st.prevSep) {
      sp := PaintsWord(L, s, st);
    } else {
      PaintsOther(L, s, st);
      sp := Span(Other, st.i, st.i + 1);
    }
    PaintsSpan(L, s, st, sp, end);
  }

  lemma PaintsNext(L: Lang, s: string, st: Scan) returns (sp: Span, end: Scan)
    requires Ready(L, s, st) && st.i < |s|
    ensures Paints(L, s, st, sp, end) && IsSpan(L, s, !st.inComment, st.i, st.prevSep, sp)
  {
    hide Paints, CommentHere, BlockHere, QuoteHere, BlockEnds, QuotedEnds;
    if !st.inComment && CommentHere(L, s, st.i) {
      sp, end := PaintsLine(L, s, st);
    } else if BlockHere(L, s, st.i) {
      sp, end := PaintsBlock(L, s, st);
      PaintsSpan(L, s, st, sp, end);
    } else if QuoteHere(L, s, st.i) {
      sp, end := PaintsQuoted(L, s, st);
      PaintsSpan(L, s, st, sp, end);
    } else {
      sp, end := PaintsPlain(L, s, st);
    }
  }

  lemma PaintsSpan(L: Lang, s: string, st: Scan, sp: Span, end: Scan)
    requires Fits(s, st) && Paints(L, s, st, sp, end)
    ensures sp.from == st.i < sp.to <= |s|
  {
  }

  lemma {:induction false} TiledFrom(L: Lang, s: string, lines: bool, i: nat, sep: bool, spans: seq<Span>)
    requires Tiled(L, s, lines, i, sep, spans)
    ensures forall k :: 0 <= k < |spans| ==> i <= spans[k].from < spans[k].to <= |s|
    decreases |spans|
  {
    if spans != [] {
      var next := spans[0].to;
      TiledFrom(L, s, lines, next, SepAfter(s, spans[0]), spans[1..]);
      hide Tiled;
      forall k | 0 <= k < |spans| ensures i <= spans[k].from < spans[k].to <= |s| {
        if k > 0 { assert spans[k] == spans[1..][k - 1]; }
      }
    }
  }

  ghost predicate Behind(s: string, i: nat, spans: seq<Span>) {
    forall k :: 0 <= k < |spans| ==> i <= spans[k].from < spans[k].to <= |s|
  }

  lemma ShadedMore(s: string, sp: Span, spans: seq<Span>, hl: seq<nat>, mid: seq<nat>, hl': seq<nat>)
    requires sp.from < sp.to <= |s| == |hl| == |mid| && Behind(s, sp.to, spans)
    requires forall j :: 0 <= j < |s| ==> mid[j] == if sp.from <= j < sp.to then Shade(s, sp, j, hl[j]) else hl[j]
    requires Shaded(s, sp.to, spans, mid, hl')
    ensures Shaded(s, sp.from, [sp] + spans, hl, hl')
  {
    hide Shade;
    var all := [sp] + spans;
    forall k, j | 0 <= k < |all| && all[k].from <= j < all[k].to <= |s| ensures hl'[j] == Shade(s, all[k], j, hl[j]) {
      if k > 0 { assert all[k] == spans[k - 1]; }
    }
  }

  lemma ShadedNone(s: string, i: nat, hl: seq<nat>)
    requires |hl| == |s|
    ensures Shaded(s, i, [], hl, hl)
  {
  }

  lemma FinalAtEnd(L: Lang, s: string, st: Scan)
    requires Fits(s, st) && st.i == |s|
    ensures Final(L, s, st) == (st.hl, st.inComment)
  {
  }

  ghost predicate Plainly(L: Lang, s: string, st: Scan, spans: seq<Span>)
    requires Fits(s, st)
  {
    && Tiled(L, s, !st.inComment, st.i, st.prevSep, spans)
    && Shaded(s, st.i, spans, st.hl, Final(L, s, st).0)
    && Final(L, s, st).1 == (st.inComment || LastOpen(spans))
  }

  /** From plain text to the end of the row. */
  lemma {:induction false} PaintsRest(L: Lang, s: string, st: Scan) returns (spans: seq<Span>)
    requires Ready(L, s, st)
    ensures Plainly(L, s, st, spans)
    decreases |s| - st.i
  {
    hide IsSpan, Shade, Generic, Final;
    if st.i == |s| {
      FinalAtEnd(L, s, st);
      ShadedNone(s, st.i, st.hl);
      return [];
    }
    var sp, end := PaintsNext(L, s, st);
    if end.i == |s| {
      FinalAtEnd(L, s, end);
      ShadedNone(s, |s|, end.hl);
      hide Shaded;
      ShadedMore(s, sp, [], st.hl, end.hl, end.hl);
      OneSpan(L, s, !st.inComment, st.i, st.prevSep, sp);
      spans := [sp] + [];
    } else {
      hide Shaded, Tiled;
      var rest := PaintsRest(L, s, end);
      TiledFrom(L, s, !end.inComment, end.i, end.prevSep, rest);
      ShadedMore(s, sp, rest, st.hl, end.hl, Final(L, s, st).0);
      spans := [sp] + rest;
      MoreSpans(L, s, !st.inComment, st.i, st.prevSep, sp, rest);
    }
  }

  lemma OneSpan(L: Lang, s: string, lines: bool, i: nat, sep: bool, sp: Span)
    requires IsSpan(L, s, lines, i, sep, sp) && sp.to == |s|
    ensures Tiled(L, s, lines, i, sep, [sp] + [])
  {
    hide IsSpan;
    SpanFits(L, s, lines, i, sep, sp);
    assert ([sp] + [])[1..] == [];
  }

  lemma SpanFits(L: Lang, s: string, lines: bool, i: nat, sep: bool, sp: Span)
    requires IsSpan(L, s, lines, i, sep, sp)
    ensures i < sp.to <= |s|
  {
  }

  lemma MoreSpans(L: Lang, s: string, lines: bool, i: nat, sep: bool, sp: Span, rest: seq<Span>)
    requires IsSpan(L, s, lines, i, sep, sp) && i < sp.to <= |s| && Tiled(L, s, lines, sp.to, SepAfter(s, sp), rest)
    requires sp.to < |s|
    ensures Tiled(L, s, lines, i, sep, [sp] + rest) && LastOpen([sp] + rest) == LastOpen(rest)
  {
    hide IsSpan;
    var all := [sp] + rest;
    assert all[1..] == rest;
    if rest != [] { assert all[|all| - 1] == rest[|rest| - 1]; }
  }

  // ----- whole rows -----

  ghost function StartOf(before: int, hl: seq<nat>): Scan { Scan(0, true, '\0', before == 1, hl) }

  /** A row that begins inside a comment. */
  lemma ContinuedShows(L: Lang, s: string, before: int, hl: seq<nat>) returns (spans: seq<Span>)
    requires |hl| == |s| && before == 1 && L.b0 != "" && s != ""
    ensures Stretches(L, s, before, spans)
    ensures var st := StartOf(before, hl);
      Shaded(s, 0, spans, hl, Final(L, s, st).0) && Final(L, s, st).1 == LastOpen(spans) && spans != []
  {
    hide Here, Shade, IsSpan, BlockEnds;
    var st := StartOf(before, hl);
    var closed, end := CommentRun(L, s, st, 0);
    var sp := Span(Block(closed), 0, end.i);
    EndsBehind(L, s, end.i, closed);
    hide Generic;
    if end.i == |s| {
      FinalAtEnd(L, s, end);
      ShadedNone(s, |s|, end.hl);
      hide Shaded;
      BlockMore(s, sp, [], hl, end.hl, end.hl);
      spans := [sp] + [];
      assert spans[1..] == [];
    } else {
      var rest := PaintsRest(L, s, end);
      hide Shaded, Tiled;
      TiledFrom(L, s, true, end.i, true, rest);
      BlockMore(s, sp, rest, hl, end.hl, Final(L, s, end).0);
      spans := [sp] + rest;
      assert spans[1..] == rest;
      LastOfMore(L, s, end.i, rest, sp);
    }
  }

  lemma EndsBehind(L: Lang, s: string, to: nat, closed: bool)
    requires BlockEnds(L, s, 0, to, closed) && s != ""
    ensures 0 < to && (!closed ==> to == |s|)
  {
  }

  lemma BlockMore(s: string, sp: Span, spans: seq<Span>, hl: seq<nat>, mid: seq<nat>, hl': seq<nat>)
    requires sp.kind.Block? && sp.from < sp.to <= |s| == |hl| == |mid| && Behind(s, sp.to, spans)
    requires forall j :: 0 <= j < |s| ==> mid[j] == if sp.from <= j < sp.to then MLCOMMENT else hl[j]
    requires Shaded(s, sp.to, spans, mid, hl')
    ensures Shaded(s, sp.from, [sp] + spans, hl, hl')
  {
    hide Shaded;
    ShadedMore(s, sp, spans, hl, mid, hl');
  }

  lemma LastOfMore(L: Lang, s: string, i: nat, rest: seq<Span>, sp: Span)
    requires Tiled(L, s, true, i, true, rest) && i < |s|
    ensures LastOpen([sp] + rest) == LastOpen(rest)
  {
    var all := [sp] + rest;
    assert all[|all| - 1] == rest[|rest| - 1];
  }

  /** Every row of every ordinary language, from any open state: its colours are those of its stretches. */
  lemma GenericShows(L: Lang, s: string, before: int, hl: seq<nat>)
    requires |hl| == |s|
    ensures var end := Generic(L, s, StartOf(before, hl));
      Shows(L, s, before, hl, end.hl, if end.inComment then 1 else 0)
  {
    hide Generic, Tiled, Shaded, Stretches;
    var st := StartOf(before, hl);
    var spans;
    if before == 1 && L.b0 != "" && s != "" {
      spans := ContinuedShows(L, s, before, hl);
    } else if before == 1 && L.b0 != "" {
      FinalAtEnd(L, s, st);
      ShadedNone(s, 0, hl);
      spans := [];
      EmptyRow(L, s, before);
    } else {
      spans := PaintsRest(L, s, st);
      FromStart(L, s, before, spans);
    }
    assert Stretches(L, s, before, spans);
  }

  lemma EmptyRow(L: Lang, s: string, before: int)
    requires s == ""
    ensures Stretches(L, s, before, [])
  {
  }

  lemma FromStart(L: Lang, s: string, before: int, spans: seq<Span>)
    requires Tiled(L, s, before != 1, 0, true, spans) && !(before == 1 && L.b0 != "" && s != "")
    ensures Stretches(L, s, before, spans)
  {
    hide Tiled;
  }

  // ----- the stretches of a row are unique -----

  lemma FirstOnce(s: string, from: nat, w: string, k: nat, k': nat)
    requires FirstHere(s, from, w, k) && FirstHere(s, from, w, k')
    ensures k == k'
  {
    hide Here;
  }

  lemma BlockOnce(L: Lang, s: string, text: nat, to: nat, closed: bool, to': nat, closed': bool)
    requires BlockEnds(L, s, text, to, closed) && BlockEnds(L, s, text, to', closed')
    ensures to == to' && closed == closed'
  {
    hide Here;
  }

  lemma QuotedOnce(s: string, i: nat, to: nat, to': nat)
    requires i < |s| && QuotedEnds(s, i, to) && QuotedEnds(s, i, to')
    ensures to == to'
  {
    hide Taken;
  }

  lemma NumOnce(s: string, i: nat, to: nat, to': nat)
    requires i < to && i < to' && NumEnds(s, i, to) && NumEnds(s, i, to')
    ensures to == to'
  {
    hide NumChar;
  }

  lemma WordOnce(L: Lang, s: string, i: nat, sep: bool, g: nat, to: nat, g': nat, to': nat)
    requires WordEnds(L, s, i, sep, g, to) && WordEnds(L, s, i, sep, g', to')
    ensures g == g' && to == to'
  {
    hide WordHere;
    FirstInGroup(L.groups[g], s, i, sep, to - i);
    FirstInGroup(L.groups[g'], s, i, sep, to' - i);
  }

  lemma FirstInGroup(g: Group, s: string, i: nat, sep: bool, n: nat)
    requires FirstWordFrom(g, s, i, sep, 0, n)
    ensures GroupHere(g, s, i, sep)
  {
    hide WordHere;
  }

  lemma SpanOnce(L: Lang, s: string, lines: bool, i: nat, sep: bool, a: Span, b: Span)
    requires IsSpan(L, s, lines, i, sep, a) && IsSpan(L, s, lines, i, sep, b)
    ensures a == b
  {
    hide CommentHere, BlockHere, QuoteHere, NumHere, AnyGroup, BlockEnds, QuotedEnds, NumEnds, WordEnds;
    if lines && CommentHere(L, s, i) {
    } else if BlockHere(L, s, i) {
      BlockOnce(L, s, i + |L.b0|, a.to, a.kind.closed, b.to, b.kind.closed);
    } else if QuoteHere(L, s, i) {
      QuotedOnce(s, i, a.to, b.to);
    } else if NumHere(s, i, sep) {
      NumOnce(s, i, a.to, b.to);
    } else if AnyGroup(L, s, i, sep) {
      WordOnce(L, s, i, sep, a.kind.group, a.to, b.kind.group, b.to);
    }
  }

  lemma {:induction false} TiledOnce(L: Lang, s: string, lines: bool, i: nat, sep: bool, a: seq<Span>, b: seq<Span>)
    requires Tiled(L, s, lines, i, sep, a) && Tiled(L, s, lines, i, sep, b)
    ensures a == b
    decreases |a|
  {
    hide IsSpan;
    if a == [] {
      NoSpanAtEnd(L, s, lines, i, sep, b);
    } else {
      SpanFits(L, s, lines, i, sep, a[0]);
      SpanOnce(L, s, lines, i, sep, a[0], b[0]);
      TiledOnce(L, s, lines, a[0].to, SepAfter(s, a[0]), a[1..], b[1..]);
      assert a == [a[0]] + a[1..] && b == [b[0]] + b[1..];
    }
  }

  lemma NoSpanAtEnd(L: Lang, s: string, lines: bool, i: nat, sep: bool, b: seq<Span>)
    requires i == |s| && Tiled(L, s, lines, i, sep, b)
    ensures b == []
  {
  }

  /** So there is one way to read a row. */
  lemma StretchesOnce(L: Lang, s: string, before: int, a: seq<Span>, b: seq<Span>)
    requires Stretches(L, s, before, a) && Stretches(L, s, before, b)
    ensures a == b
  {
    hide Tiled, BlockEnds;
    if before == 1 && L.b0 != "" && s != "" {
      BlockOnce(L, s, 0, a[0].to, a[0].kind.closed, b[0].to, b[0].kind.closed);
      TiledOnce(L, s, true, a[0].to, true, a[1..], b[1..]);
      assert a == [a[0]] + a[1..] && b == [b[0]] + b[1..];
    } else {
      TiledOnce(L, s, before != 1, 0, true, a, b);
    }
  }

  /** The stretches leave no place out. */
  lemma {:induction false} TiledCovers(L: Lang, s: string, lines: bool, i: nat, sep: bool, spans: seq<Span>, j: nat) returns (k: nat)
    requires Tiled(L, s, lines, i, sep, spans) && i <= j < |s|
    ensures k < |spans| && spans[k].from <= j < spans[k].to <= |s|
    decreases |spans|
  {
    var sp := spans[0];
    if j < sp.to { return 0; }
    var n := TiledCovers(L, s, lines, sp.to, SepAfter(s, sp), spans[1..], j);
    assert spans[n + 1] == spans[1..][n];
    return n + 1;
  }

  lemma StretchesCover(L: Lang, s: string, before: int, spans: seq<Span>, j: nat) returns (k: nat)
    requires Stretches(L, s, before, spans) && j < |s|
    ensures k < |spans| && spans[k].from <= j < spans[k].to <= |s|
  {
    hide Tiled, BlockEnds;
    if before == 1 && L.b0 != "" {
      if j < spans[0].to { return 0; }
      var n := TiledCovers(L, s, true, spans[0].to, true, spans[1..], j);
      assert spans[n + 1] == spans[1..][n];
      return n + 1;
    }
    k := TiledCovers(L, s, before != 1, 0, true, spans, j);
  }

  /** On a fresh row every colour tells the stretch: a group's colour stands exactly on words of that group,
      NUMBER on numbers, COMMENT on line comments, MLCOMMENT on block comments, STRING and ESCAPE in strings. */
  lemma ColourTells(L: Lang, s: string, before: int, spans: seq<Span>, hl: seq<nat>, j: nat) returns (k: nat)
    requires Stretches(L, s, before, spans) && Shaded(s, 0, spans, Unpainted(|s|), hl) && j < |s|
    ensures k < |spans| && spans[k].from <= j < spans[k].to
    ensures forall g: nat :: hl[j] == GROUP0 + g <==> spans[k].kind == Word(g)
    ensures hl[j] == NUMBER <==> spans[k].kind == Num
    ensures hl[j] == COMMENT <==> spans[k].kind == Line
    ensures hl[j] == MLCOMMENT <==> spans[k].kind.Block?
    ensures hl[j] == STRING || hl[j] == ESCAPE <==> spans[k].kind == Quoted
    ensures hl[j] == NORMAL <==> spans[k].kind == Other
  {
    hide Stretches, Taken;
    k := StretchesCover(L, s, before, spans, j);
    assert hl[j] == Shade(s, spans[k], j, NORMAL);
  }
}
