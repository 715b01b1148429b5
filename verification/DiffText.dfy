/** diff's output (usr/bin/diff.c) as lines of text, and a reader of it that
    knows only the text: hunk headers, and a `patch` for the normal format. */
module DiffText {
  import opened Numbers
  import opened Options

  type Line = string

  /** Lines a1..a2 of the first file replaced by lines b1..b2 of the second. */
  datatype Hunk = Hunk(a1: nat, a2: nat, b1: nat, b2: nat)

  function Show(n: nat): (s: string)
    ensures s != [] && forall i :: 0 <= i < |s| ==> '0' <= s[i] <= '9'
  {
    var d := ['0' + (n % 10) as char];
    if n < 10 then d else Show(n / 10) + d
  }

  ghost function Tens(k: nat): (p: nat)
    ensures p > 0
  {
    if k == 0 then 1 else 10 * Tens(k - 1)
  }

  /** Numbers are shown in base ten: digit k from the end, */
  lemma {:induction false} ShowAt(n: nat, k: nat)
    requires k < |Show(n)|
    ensures Show(n)[|Show(n)| - 1 - k] as int == 48 + n / Tens(k) % 10
  {
    if n >= 10 && k > 0 {
      var d := Show(n / 10);
      assert Show(n)[|Show(n)| - 1 - k] == d[|d| - 1 - (k - 1)];
      hide Show;
      ShowAt(n / 10, k - 1);
      DivTwice(n, 10, Tens(k - 1));
    }
  }

  /** and no zero too many in front. */
  lemma {:induction false} ShowFront(n: nat)
    ensures n < Tens(|Show(n)|) && (n > 0 ==> Show(n)[0] != '0')
  {
    if n >= 10 { ShowFront(n / 10); }
  }

  /** One side of a header, 1-based: the line before an empty range, a line, or first and last. */
  function Range(from: nat, to: nat): (s: string)
    requires from <= to
  {
    if to == from then Show(from)
    else if to == from + 1 then Show(from + 1)
    else Show(from + 1) + "," + Show(to)
  }

  function Header(h: Hunk): (s: string)
    requires h.a1 <= h.a2 && h.b1 <= h.b2
  {
    var op := if h.a1 == h.a2 then "a" else if h.b1 == h.b2 then "d" else "c";
    Range(h.a1, h.a2) + (op + Range(h.b1, h.b2))
  }

  function Block(prefix: string, lines: seq<Line>): (out: seq<string>)
    ensures |out| == |lines|
    ensures forall i :: 0 <= i < |lines| ==> out[i] == prefix + lines[i]
  {
    seq(|lines|, i requires 0 <= i < |lines| => prefix + lines[i])
  }

  function Bar(h: Hunk): seq<string> {
    if h.a1 < h.a2 && h.b1 < h.b2 then ["---"] else []
  }

  ghost predicate Inside(a: seq<Line>, b: seq<Line>, h: Hunk) {
    h.a1 <= h.a2 <= |a| && h.b1 <= h.b2 <= |b|
  }

  function Printed(a: seq<Line>, b: seq<Line>, h: Hunk): (out: seq<string>)
    requires Inside(a, b, h)
    ensures |out| > h.a2 - h.a1 + h.b2 - h.b1
  {
    [Header(h)] + Block("< ", a[h.a1..h.a2]) + Bar(h) + Block("> ", b[h.b1..h.b2])
  }

  function PrintedAll(a: seq<Line>, b: seq<Line>, hs: seq<Hunk>): (out: seq<string>)
    requires forall h :: h in hs ==> Inside(a, b, h)
  {
    if hs == [] then [] else Printed(a, b, hs[0]) + PrintedAll(a, b, hs[1..])
  }

  // The reader.

  function Read(s: string, v: nat): (r: (nat, string))
    ensures |r.1| <= |s|
  {
    if s != [] && '0' <= s[0] <= '9' then Read(s[1..], 10 * v + (s[0] - '0') as nat) else (v, s)
  }

  /** First, last, and the text after the range. */
  function ReadRange(s: string): (r: (nat, nat, string)) {
    var (first, rest) := Read(s, 0);
    if rest != [] && rest[0] == ',' then
      var (last, tail) := Read(rest[1..], 0);
      (first, last, tail)
    else (first, first, rest)
  }

  /** The ranges a header stands for. */
  function ReadHeader(s: string): (h: (int, int, int, int)) {
    var (l1, l2, rest) := ReadRange(s);
    var op := if rest == [] then 'c' else rest[0];
    var (r1, r2, _) := ReadRange(if rest == [] then [] else rest[1..]);
    (if op == 'a' then l1 else l1 - 1, l2, if op == 'd' then r1 else r1 - 1, r2)
  }

  /** Applies a script to lines `i` onward of `a`, having written `j` lines so far. It
      refuses a hunk out of place, or one whose lines are not those of the file. */
  function Patch(a: seq<Line>, script: seq<string>, i: nat, j: nat): (r: Option<seq<Line>>)
    requires i <= |a|
    decreases |script|
  {
    if script == [] then Some(a[i..])
    else
      var (a1, a2, b1, b2) := ReadHeader(script[0]);
      if !(i <= a1 <= a2 <= |a| && b1 <= b2 && b1 - j == a1 - i) then None
      else
        var bar := if a1 < a2 && b1 < b2 then 1 else 0;
        var p := 1 + (a2 - a1);
        var q := p + bar;
        var e := q + (b2 - b1);
        if e > |script| then None
        else if script[1..p] != Block("< ", a[a1..a2]) then None
        else if bar == 1 && script[p] != "---" then None
        else
          var added := Unprefixed(script[q..e]);
          var after := Patch(a, script[e..], a2, b2);
          if added.None? || after.None? then None
          else Some(a[i..a1] + added.value + after.value)
  }

  function Stripped(lines: seq<string>): (r: seq<Line>)
    requires forall i :: 0 <= i < |lines| ==> "> " <= lines[i]
    ensures |r| == |lines| && forall i :: 0 <= i < |lines| ==> r[i] == lines[i][2..]
  {
    seq(|lines|, i requires 0 <= i < |lines| => lines[i][2..])
  }

  function Unprefixed(lines: seq<string>): (r: Option<seq<Line>>) {
    if forall i :: 0 <= i < |lines| ==> "> " <= lines[i] then Some(Stripped(lines)) else None
  }

  // What was printed is what is read.

  predicate Stops(s: string) { s == [] || !('0' <= s[0] <= '9') }

  lemma {:induction false} ReadShow(n: nat, rest: string)
    ensures Read(Show(n) + rest, 0) == Read(rest, n)
  {
    var d := ['0' + (n % 10) as char];
    if n >= 10 {
      ReadShow(n / 10, d + rest);
      assert Show(n) + rest == Show(n / 10) + (d + rest);
    }
    assert (d + rest)[1..] == rest;
  }

  lemma ReadRangeOf(from: nat, to: nat, rest: string)
    requires from <= to && Stops(rest) && (rest == [] || rest[0] != ',')
    ensures ReadRange(Range(from, to) + rest) == (if from == to then from else from + 1, to, rest)
  {
    hide ReadRange, Show;
    if to == from {
      ReadSingle(from, rest);
    } else if to == from + 1 {
      ReadSingle(from + 1, rest);
    } else {
      assert Range(from, to) + rest == Show(from + 1) + ("," + (Show(to) + rest));
      ReadPair(from + 1, to, rest);
    }
  }

  lemma ReadSingle(n: nat, rest: string)
    requires Stops(rest) && (rest == [] || rest[0] != ',')
    ensures ReadRange(Show(n) + rest) == (n, n, rest)
  {
    hide Show;
    ReadShow(n, rest);
  }

  lemma ReadPair(m: nat, n: nat, rest: string)
    requires Stops(rest)
    ensures ReadRange(Show(m) + ("," + (Show(n) + rest))) == (m, n, rest)
  {
    hide Show;
    var tail := "," + (Show(n) + rest);
    assert tail[0] == ',' && tail[1..] == Show(n) + rest;
    ReadShow(m, tail);
    ReadShow(n, rest);
  }

  lemma ReadHeaderOf(h: Hunk)
    requires h.a1 <= h.a2 && h.b1 <= h.b2 && h.a2 - h.a1 + h.b2 - h.b1 > 0
    ensures ReadHeader(Header(h)) == (h.a1, h.a2, h.b1, h.b2)
  {
    hide Range, ReadRange;
    var op := if h.a1 == h.a2 then "a" else if h.b1 == h.b2 then "d" else "c";
    var right := Range(h.b1, h.b2);
    ReadRangeOf(h.a1, h.a2, op + right);
    ReadRangeOf(h.b1, h.b2, []);
    assert right + [] == right && (op + right)[1..] == right;
  }
}
