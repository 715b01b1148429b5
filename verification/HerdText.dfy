/** What herd's comparisons read in the texts of versions and build times. */
module HerdText {
  import opened Options
  import opened HerdVersion

  // ----- numbers in a version -----

  ghost function Power10(n: nat): nat { if n == 0 then 1 else 10 * Power10(n - 1) }

  /** The place value of a digit text. */
  ghost function Decimal(s: string): int {
    if s == [] then 0 else (s[0] as int - 48) * Power10(|s| - 1) + Decimal(s[1..])
  }

  ghost predicate AllDigits(s: string) { forall i :: 0 <= i < |s| ==> '0' <= s[i] <= '9' }

  ghost predicate NoDigits(s: string) { forall i :: 0 <= i < |s| ==> !('0' <= s[i] <= '9') }

  ghost predicate StartsPlain(s: string) { s == [] || !('0' <= s[0] <= '9') }

  /** A text without digits, and a number behind it. */
  datatype Part = Part(text: string, digits: string)

  ghost function Joined(parts: seq<Part>, tail: string): string {
    if parts == [] then tail else parts[0].text + parts[0].digits + Joined(parts[1..], tail)
  }

  /** Digits stand only in the numbers, and some text between any two of them. */
  ghost predicate Apart(parts: seq<Part>, tail: string) {
    && NoDigits(tail)
    && (forall k :: 0 <= k < |parts| ==> NoDigits(parts[k].text) && AllDigits(parts[k].digits) && parts[k].digits != [])
    && (forall k :: 0 < k < |parts| ==> parts[k].text != [])
  }

  ghost function Values(parts: seq<Part>): (v: seq<int>)
    ensures |v| == |parts|
  {
    seq(|parts|, k requires 0 <= k < |parts| => Decimal(parts[k].digits))
  }

  lemma {:induction false} SkipsText(t: string, rest: string)
    requires NoDigits(t)
    ensures SkipText(t + rest) == SkipText(rest)
  {
    if t == [] {
      assert t + rest == rest;
    } else {
      assert (t + rest)[1..] == t[1..] + rest;
      SkipsText(t[1..], rest);
    }
  }

  lemma {:induction false} ReadsNumber(d: string, rest: string, v: nat)
    requires AllDigits(d) && StartsPlain(rest)
    ensures Number(d + rest, v) == v * Power10(|d|) + Decimal(d) && SkipNumber(d + rest) == rest
  {
    if d == [] {
      assert d + rest == rest;
    } else {
      var x := d[0] as int - 48;
      assert (d + rest)[1..] == d[1..] + rest;
      ReadsNumber(d[1..], rest, 10 * v + x);
      Scaled(v, x, Power10(|d| - 1));
    }
  }

  lemma Scaled(v: int, x: int, p: int)
    ensures (10 * v + x) * p == v * (10 * p) + x * p
  {
  }

  lemma JoinedPlain(parts: seq<Part>, tail: string)
    requires Apart(parts, tail) && (parts != [] ==> parts[0].text != [])
    ensures StartsPlain(Joined(parts, tail))
  {
  }

  lemma {:induction false} NoRunsIn(tail: string)
    requires NoDigits(tail)
    ensures Runs(tail) == []
  {
    SkipsText(tail, []);
    assert tail + [] == tail;
    assert SkipText([]) == [];
  }

  /** The numbers of a version are its digit runs, read in base ten, in their order. */
  lemma {:induction false} RunsMean(parts: seq<Part>, tail: string)
    requires Apart(parts, tail)
    ensures Runs(Joined(parts, tail)) == Values(parts)
    decreases |parts|
  {
    hide Decimal, Power10;
    if parts == [] {
      NoRunsIn(tail);
    } else {
      var p, rest := parts[0], Joined(parts[1..], tail);
      var s := p.digits + rest;
      assert p.text + p.digits + rest == p.text + s;
      SkipsText(p.text, s);
      assert s[0] == p.digits[0];
      assert SkipText(s) == s;
      JoinedPlain(parts[1..], tail);
      ReadsNumber(p.digits, rest, 0);
      RunsMean(parts[1..], tail);
      hide Runs;
      FirstRun(p.text + s, s, rest);
      assert Values(parts) == [Decimal(p.digits)] + Values(parts[1..]);
    }
  }

  lemma FirstRun(s: string, t: string, rest: string)
    requires SkipText(s) == t != [] && SkipNumber(t) == rest
    ensures Runs(s) == [Number(t, 0)] + Runs(rest)
  {
  }

  /** Every version is such a text. */
  lemma {:induction false} VersionParts(s: string) returns (parts: seq<Part>, tail: string)
    ensures Apart(parts, tail) && s == Joined(parts, tail)
    decreases |s|
  {
    var i := FirstDigit(s, true);
    if i == |s| { return [], s; }
    var rest := s[i..];
    var j := FirstDigit(rest, false);
    var ps;
    ps, tail := VersionParts(rest[j..]);
    parts := [Part(s[..i], rest[..j])] + ps;
    assert parts[1..] == ps;
    assert s == s[..i] + rest[..j] + rest[j..];
    if ps != [] { TextFirst(ps, tail); }
  }

  lemma JoinedHead(ps: seq<Part>, tail: string)
    requires ps != [] && ps[0].digits != []
    ensures Joined(ps, tail) != [] && (ps[0].text == [] ==> Joined(ps, tail)[0] == ps[0].digits[0])
  {
  }

  lemma TextFirst(ps: seq<Part>, tail: string)
    requires Apart(ps, tail) && ps != [] && StartsPlain(Joined(ps, tail))
    ensures ps[0].text != []
  {
    JoinedHead(ps, tail);
  }

  /** The first digit, or the first other character. */
  lemma {:induction false} FirstDigit(s: string, want: bool) returns (i: nat)
    ensures i <= |s| && (i < |s| ==> ('0' <= s[i] <= '9') == want)
    ensures forall k :: 0 <= k < i ==> ('0' <= s[k] <= '9') != want
  {
    if s == [] || ('0' <= s[0] <= '9') == want { return 0; }
    var k := FirstDigit(s[1..], want);
    i := k + 1;
    forall j | 0 <= j < i ensures ('0' <= s[j] <= '9') != want {
      if j > 0 { assert s[j] == s[1..][j - 1]; }
    }
  }

  // ----- build times -----

  /** The digits of a text, in order. */
  ghost function DigitsOf(s: string): string {
    if s == [] then [] else DigitsOf(s[..|s| - 1]) + if '0' <= s[|s| - 1] <= '9' then [s[|s| - 1]] else []
  }

  lemma {:induction false} DigitsFront(c: char, s: string)
    ensures DigitsOf([c] + s) == (if '0' <= c <= '9' then [c] else []) + DigitsOf(s)
  {
    if s == [] {
      assert [c] + s == [c];
      assert [c][..0] == [];
    } else {
      var n := |s| - 1;
      assert ([c] + s)[..n + 1] == [c] + s[..n];
      DigitsFront(c, s[..n]);
    }
  }

  lemma {:induction false} TakeMeans(s: string, n: nat)
    ensures var d := DigitsOf(s); TakeDigits(s, n) == if |d| <= n then d else d[..n]
  {
    if s != [] {
      assert s == [s[0]] + s[1..];
      DigitsFront(s[0], s[1..]);
      if n > 0 { TakeMeans(s[1..], if '0' <= s[0] <= '9' then n - 1 else n); }
    }
  }

  /** A key is 14 characters: the first digits of the stamp, and zeros. */
  lemma KeyMeans(s: Option<string>)
    ensures var d := if s.Some? then DigitsOf(s.value) else "";
      |Key(s)| == 14 && forall i :: 0 <= i < 14 ==> Key(s)[i] == if i < |d| then d[i] else '0'
  {
    if s.Some? { TakeMeans(s.value, 14); }
  }

  ghost predicate TextsDifferAt(a: string, b: string, k: nat)
    requires |a| == |b|
  {
    k < |a| && a[k] != b[k] && forall j :: 0 <= j < k ==> a[j] == b[j]
  }

  /** The first place where two texts differ decides. */
  lemma {:induction false} CmpTextMeans(a: string, b: string) returns (k: nat)
    requires |a| == |b|
    ensures CmpText(a, b) == 0 <==> a == b
    ensures CmpText(a, b) != 0 ==> TextsDifferAt(a, b, k) && (CmpText(a, b) < 0 <==> a[k] < b[k])
  {
    k := 0;
    if a != [] && a[0] == b[0] {
      var i := CmpTextMeans(a[1..], b[1..]);
      assert a == [a[0]] + a[1..] && b == [b[0]] + b[1..];
      k := i + 1;
    }
  }

  // ----- newer -----

  /** An absent version is older than any other; otherwise the first number that differs decides. */
  ghost predicate OlderVersion(a: Option<string>, b: Option<string>) {
    && b.Some?
    && (a.None? || exists k: nat :: DifferAt(Runs(a.value), Runs(b.value), k) && Padded(Runs(a.value), k) < Padded(Runs(b.value), k))
  }

  ghost predicate SameVersion(a: Option<string>, b: Option<string>) {
    && (a.None? <==> b.None?)
    && (a.Some? ==> forall k: nat :: Padded(Runs(a.value), k) == Padded(Runs(b.value), k))
  }

  ghost predicate EarlierText(a: string, b: string)
    requires |a| == |b|
  {
    exists k: nat :: TextsDifferAt(a, b, k) && a[k] < b[k]
  }

  lemma CmpMeans(a: Option<string>, b: Option<string>)
    ensures (Cmp(a, b) < 0 <==> OlderVersion(a, b)) && (Cmp(a, b) == 0 <==> SameVersion(a, b))
  {
    hide Runs, CmpRuns;
    if a.Some? && b.Some? { RunsDecide(Runs(a.value), Runs(b.value)); }
  }

  lemma RunsDecide(a: seq<nat>, b: seq<nat>)
    ensures CmpRuns(a, b) == 0 <==> forall k: nat :: Padded(a, k) == Padded(b, k)
    ensures CmpRuns(a, b) < 0 <==> exists k: nat :: DifferAt(a, b, k) && Padded(a, k) < Padded(b, k)
  {
    hide Padded;
    var k := CmpRunsMeans(a, b);
  }

  lemma TextDecides(a: string, b: string)
    requires |a| == |b|
    ensures CmpText(a, b) < 0 <==> EarlierText(a, b)
  {
    hide CmpText;
    var k := CmpTextMeans(a, b);
  }

  /** `is_newer`: an older version, or the same one with a build time that is known and later. */
  lemma NewerMeans(have: Stamp, want: Stamp)
    ensures IsNewer(have, want) <==>
      (OlderVersion(have.version, want.version)
       || (SameVersion(have.version, want.version) && want.built.Some? && EarlierText(Key(have.built), Key(want.built))))
  {
    hide Cmp, CmpText, Key, OlderVersion, SameVersion, EarlierText;
    CmpMeans(have.version, want.version);
    TextDecides(Key(have.built), Key(want.built));
  }
}
