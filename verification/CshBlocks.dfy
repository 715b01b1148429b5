/** The block pass of csh (`parse_block_structure`): which line sequences it
    accepts and what its end table means, stated by counting block lines. */
module CshBlocks {
  import opened CshMachine

  predicate IsSpace(c: char) {
    c == ' ' || c == '\t' || c == '\n' || c == '\r' || c as int == 11 || c as int == 12
  }

  function TrimRight(s: string): string {
    if s != [] && IsSpace(s[|s| - 1]) then TrimRight(s[..|s| - 1]) else s
  }

  function TrimLeft(s: string): string {
    if s != [] && IsSpace(s[0]) then TrimLeft(s[1..]) else s
  }

  /** The buffer holds LINE_MAX - 1 characters of the line, trimmed at both ends. */
  function Trimmed(line: string): string {
    TrimLeft(TrimRight(if |line| < LINE_MAX then line else line[..LINE_MAX - 1]))
  }

  predicate StartsWithWord(s: string, w: string) {
    w <= s && (|s| == |w| || IsSpace(s[|w|]))
  }

  /** The block word a line starts with, as the block pass reads it; `Command` for any other line. */
  function BlockWord(line: string): Word { WordOf(Trimmed(line)) }

  function WordOf(s: string): Word {
    if s == "" || s[0] == '#' then Command
    else if StartsWithWord(s, "if") then If
    else if StartsWithWord(s, "else") then Else
    else if StartsWithWord(s, "endif") then Endif
    else if StartsWithWord(s, "foreach") then Foreach
    else if StartsWithWord(s, "while") then While
    else if StartsWithWord(s, "end") then End
    else Command
  }

  // ----- what the pass reads in a line -----

  ghost predicate White(c: char) { 9 <= c as int <= 13 || c as int == 32 }

  /** Between the white space at both ends of t. */
  ghost predicate Core(t: string, i: nat, j: nat) {
    && i <= j <= |t| && (forall k :: 0 <= k < i || j <= k < |t| ==> White(t[k]))
    && (i < j ==> !White(t[i]) && !White(t[j - 1]))
  }

  /** The first word of t is w. */
  ghost predicate FirstWord(t: string, w: string) {
    exists i: nat :: WordFrom(t, i, w)
  }

  ghost predicate WordFrom(t: string, i: nat, w: string) {
    && i + |w| <= |t| && (forall k :: 0 <= k < i ==> White(t[k])) && t[i..i + |w|] == w
    && (i + |w| == |t| || White(t[i + |w|]))
  }

  lemma {:induction false} TrimRightMeans(t: string)
    ensures var j := |TrimRight(t)|;
      && j <= |t| && TrimRight(t) == t[..j] && (j > 0 ==> !White(t[j - 1])) && forall k :: j <= k < |t| ==> White(t[k])
  {
    if t != [] && IsSpace(t[|t| - 1]) { TrimRightMeans(t[..|t| - 1]); }
  }

  lemma {:induction false} TrimLeftMeans(t: string) returns (i: nat)
    ensures i <= |t| && TrimLeft(t) == t[i..] && (i < |t| ==> !White(t[i])) && forall k :: 0 <= k < i ==> White(t[k])
  {
    if t != [] && IsSpace(t[0]) {
      var n := TrimLeftMeans(t[1..]);
      i := n + 1;
      assert t[1..][n..] == t[i..];
      forall k | 0 <= k < i ensures White(t[k]) {
        if k > 0 { assert t[k] == t[1..][k - 1]; }
      }
    } else {
      i := 0;
    }
  }

  lemma TrimMeans(t: string) returns (i: nat, j: nat)
    ensures Core(t, i, j) && TrimLeft(TrimRight(t)) == t[i..j]
  {
    TrimRightMeans(t);
    var s := TrimRight(t);
    j := |s|;
    i := TrimLeftMeans(s);
    assert s[i..] == t[i..j];
  }

  /** A word stands first in a line just when the trimmed line starts with it. */
  lemma StartsMeans(t: string, i: nat, j: nat, w: string)
    requires Core(t, i, j) && w != "" && forall k :: 0 <= k < |w| ==> !White(w[k])
    ensures StartsWithWord(t[i..j], w) <==> FirstWord(t, w)
  {
    var s := t[i..j];
    if StartsWithWord(s, w) {
      assert t[i..i + |w|] == s[..|w|];
      assert WordFrom(t, i, w);
    }
    if FirstWord(t, w) {
      var n: nat :| WordFrom(t, n, w);
      WordInCore(t, i, j, n, w);
      assert s[..|w|] == t[i..i + |w|];
    }
  }

  lemma WordInCore(t: string, i: nat, j: nat, n: nat, w: string)
    requires Core(t, i, j) && WordFrom(t, n, w) && w != "" && forall k :: 0 <= k < |w| ==> !White(w[k])
    ensures n == i && i + |w| <= j && (i + |w| < j ==> White(t[i + |w|]))
  {
    var part := t[n..n + |w|];
    assert part[0] == t[n] && part[|w| - 1] == t[n + |w| - 1];
    assert !White(t[n]) && !White(t[n + |w| - 1]);
  }

  ghost predicate PlainWord(w: string) { w != "" && w[0] != '#' && forall k :: 0 <= k < |w| ==> !White(w[k]) }

  /** No line starts with two words. */
  lemma OneFirst(s: string, w: string, v: string)
    requires PlainWord(w) && PlainWord(v)
    ensures StartsWithWord(s, w) && StartsWithWord(s, v) ==> w == v
    ensures StartsWithWord(s, w) ==> s != "" && s[0] != '#'
  {
    NotLonger(s, w, v);
    NotLonger(s, v, w);
  }

  lemma NotLonger(s: string, w: string, v: string)
    requires PlainWord(v)
    ensures StartsWithWord(s, w) && v <= s ==> |v| <= |w|
  {
  }

  ghost predicate BlockText(w: Word, text: string) {
    match w
    case If => text == "if"
    case Else => text == "else"
    case Endif => text == "endif"
    case Foreach => text == "foreach"
    case While => text == "while"
    case End => text == "end"
    case _ => false
  }

  lemma BlockTextsPlain()
    ensures PlainWord("if") && PlainWord("else") && PlainWord("endif") && PlainWord("foreach") && PlainWord("while") && PlainWord("end")
  {
  }

  lemma BlockWordOf(s: string, w: Word, text: string)
    requires BlockText(w, text)
    ensures WordOf(s) == w <==> StartsWithWord(s, text)
  {
    BlockTextsPlain();
    hide StartsWithWord, PlainWord;
    OneFirst(s, text, "if");
    OneFirst(s, text, "else");
    OneFirst(s, text, "endif");
    OneFirst(s, text, "foreach");
    OneFirst(s, text, "while");
    OneFirst(s, text, "end");
  }

  /** A line is a block line of its kind exactly when that word is its first one, within 4095 characters. */
  lemma BlockWordMeans(line: string, w: Word, text: string)
    requires BlockText(w, text)
    ensures BlockWord(line) == w <==> FirstWord(if |line| <= 4095 then line else line[..4095], text)
  {
    var t := if |line| <= 4095 then line else line[..4095];
    BlockTextsPlain();
    hide StartsWithWord, WordOf, FirstWord, Core, White;
    var i, j := TrimMeans(t);
    TextPlain(w, text);
    BlockWordOf(t[i..j], w, text);
    StartsMeans(t, i, j, text);
  }

  lemma TextPlain(w: Word, text: string)
    requires BlockText(w, text)
    ensures text != "" && forall k :: 0 <= k < |text| ==> !White(text[k])
  {
    hide White;
    BlockTextsPlain();
  }

  /** A line with none of these is no block line. */
  lemma OtherLines(line: string)
    ensures BlockWord(line) == Command || exists w, text :: BlockText(w, text) && BlockWord(line) == w
  {
    hide Trimmed, StartsWithWord;
    var w := BlockWord(line);
    assert BlockText(If, "if") && BlockText(Else, "else") && BlockText(Endif, "endif");
    assert BlockText(Foreach, "foreach") && BlockText(While, "while") && BlockText(End, "end");
  }

  function Words(lines: seq<string>): (ws: seq<Word>) {
    seq(|lines|, i requires 0 <= i < |lines| => BlockWord(lines[i]))
  }

  predicate Opens(w: Word) { w.If? || w.Foreach? || w.While? }

  predicate Closes(w: Word) { w.Endif? || w.End? }

  /** Opening lines less closing lines before line i. */
  function Depth(ws: seq<Word>, i: nat): int
    requires i <= |ws|
  {
    if i == 0 then 0
    else Depth(ws, i - 1) + (if Opens(ws[i - 1]) then 1 else if Closes(ws[i - 1]) then -1 else 0)
  }

  /** No closing line and no `else` outside every block. */
  ghost predicate Guarded(ws: seq<Word>, n: nat)
    requires n <= |ws|
  {
    forall i :: 0 <= i < n && (Closes(ws[i]) || ws[i].Else?) ==> Depth(ws, i) > 0
  }

  ghost predicate Balanced(ws: seq<Word>) {
    Guarded(ws, |ws|) && Depth(ws, |ws|) == 0
  }

  /** Line e closes the block opened at o: the first return to the depth before o. */
  ghost predicate Matches(ws: seq<Word>, o: int, e: int) {
    && 0 <= o < e < |ws| && Opens(ws[o]) && Closes(ws[e])
    && Depth(ws, e + 1) == Depth(ws, o)
    && forall k :: o < k <= e ==> Depth(ws, k) > Depth(ws, o)
  }

  ghost predicate EndTable(ws: seq<Word>, t: seq<int>) {
    && |t| == |ws|
    && forall o :: 0 <= o < |ws| ==> if Opens(ws[o]) then Matches(ws, o, t[o]) else t[o] == -1
  }

  // ----- the stack of open lines -----

  /** The opening lines that are still open before line i, outermost first. */
  function OpenLines(ws: seq<Word>, i: nat): seq<nat>
    requires i <= |ws|
  {
    if i == 0 then []
    else
      var st := OpenLines(ws, i - 1);
      if Opens(ws[i - 1]) then st + [i - 1]
      else if Closes(ws[i - 1]) && st != [] then st[..|st| - 1]
      else st
  }

  ghost predicate OpenAt(ws: seq<Word>, o: nat, k: nat, i: nat)
    requires i <= |ws|
  {
    && o < i && Opens(ws[o]) && Depth(ws, o) == k
    && forall j :: o < j <= i ==> Depth(ws, j) > k
  }

  /** The stack has one entry per level of depth, and each entry has stayed open. */
  lemma {:induction false} OpenLinesShape(ws: seq<Word>, i: nat)
    requires i <= |ws| && Guarded(ws, i)
    ensures |OpenLines(ws, i)| == Depth(ws, i)
    ensures forall k :: 0 <= k < |OpenLines(ws, i)| ==> OpenAt(ws, OpenLines(ws, i)[k], k, i)
  {
    if i > 0 {
      OpenLinesShape(ws, i - 1);
      var before, now := OpenLines(ws, i - 1), OpenLines(ws, i);
      forall k | 0 <= k < |now| ensures OpenAt(ws, now[k], k, i) {
        assert k < |before| ==> now[k] == before[k] && OpenAt(ws, before[k], k, i - 1);
      }
    }
  }

  lemma MatchUnique(ws: seq<Word>, o: int, e: int, e': int)
    requires Matches(ws, o, e) && Matches(ws, o, e')
    ensures e == e'
  {
  }

  /** The innermost open line is the one that a closing line closes. */
  lemma TopMatches(ws: seq<Word>, i: nat)
    requires i < |ws| && Guarded(ws, i + 1) && Closes(ws[i])
    ensures OpenLines(ws, i) != [] && Matches(ws, OpenLines(ws, i)[|OpenLines(ws, i)| - 1], i)
  {
    OpenLinesShape(ws, i);
    var o := OpenLines(ws, i)[|OpenLines(ws, i)| - 1];
    assert OpenAt(ws, o, |OpenLines(ws, i)| - 1, i);
  }

  /** Two blocks are one inside the other or apart. */
  lemma Laminar(ws: seq<Word>, t: seq<int>, o: nat, o': nat)
    requires EndTable(ws, t) && o < o' < |ws| && Opens(ws[o]) && Opens(ws[o'])
    ensures t[o] < o' || t[o'] < t[o]
  {
    assert Matches(ws, o, t[o]) && Matches(ws, o', t[o']);
    assert Depth(ws, t[o]) == Depth(ws, o) + 1;
    assert o' <= t[o] ==> Depth(ws, o') > Depth(ws, o);
  }

  lemma Apart(ws: seq<Word>, t: seq<int>, o: nat, o': nat)
    requires EndTable(ws, t) && o < |ws| && o' < |ws| && Opens(ws[o]) && Opens(ws[o']) && t[o] == t[o']
    ensures o == o'
  {
    assert Matches(ws, o, t[o]) && Matches(ws, o', t[o]);
  }

  /** Every closing line of a balanced script ends exactly one block. */
  lemma EndsOneBlock(ws: seq<Word>, t: seq<int>, e: nat) returns (o: nat)
    requires Balanced(ws) && EndTable(ws, t) && e < |ws| && Closes(ws[e])
    ensures o < |ws| && Opens(ws[o]) && t[o] == e
    ensures forall o' :: 0 <= o' < |ws| && Opens(ws[o']) && t[o'] == e ==> o' == o
  {
    assert Guarded(ws, e + 1);
    TopMatches(ws, e);
    o := OpenLines(ws, e)[|OpenLines(ws, e)| - 1];
    assert Matches(ws, o, t[o]);
    MatchUnique(ws, o, t[o], e);
    forall o' | 0 <= o' < |ws| && Opens(ws[o']) && t[o'] == e ensures o' == o {
      assert Matches(ws, o', e);
      Apart(ws, t, o, o');
    }
  }

  lemma {:induction false} DepthNonNegative(ws: seq<Word>, i: nat)
    requires i <= |ws| && Guarded(ws, i)
    ensures Depth(ws, i) >= 0
  {
    if i > 0 {
      DepthNonNegative(ws, i - 1);
    }
  }
}
