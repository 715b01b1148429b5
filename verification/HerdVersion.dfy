/** herd's version order (`version_cmp`, `built_key`, `is_newer` in usr/bin/herd.c). */
module HerdVersion {
  import opened Options
  import opened Seqs

  predicate IsDigit(c: char) { '0' <= c <= '9' }

  function DigitOf(c: char): nat
    requires IsDigit(c)
  {
    c as int - '0' as int
  }

  // ----- the numbers in a version -----

  function SkipText(s: string): (t: string)
    ensures |t| <= |s| && (t != [] ==> IsDigit(t[0]))
  {
    if s == [] || IsDigit(s[0]) then s else SkipText(s[1..])
  }

  /** The number at the start of s, on top of v. */
  function Number(s: string, v: nat): nat {
    if s == [] || !IsDigit(s[0]) then v else Number(s[1..], 10 * v + DigitOf(s[0]))
  }

  function SkipNumber(s: string): (t: string)
    ensures |t| <= |s| && (s != [] && IsDigit(s[0]) ==> |t| < |s|)
  {
    if s == [] || !IsDigit(s[0]) then s else SkipNumber(s[1..])
  }

  /** The digit runs of a version as numbers, in order. */
  function Runs(s: string): seq<nat>
    decreases |s|
  {
    var t := SkipText(s);
    if t == [] then [] else [Number(t, 0)] + Runs(SkipNumber(t))
  }

  function Head(r: seq<nat>): nat { if r == [] then 0 else r[0] }

  function Tail(r: seq<nat>): (t: seq<nat>)
    ensures r != [] ==> |t| < |r|
  {
    if r == [] then [] else r[1..]
  }

  /** Number by number, a missing number counting as zero. */
  function CmpRuns(a: seq<nat>, b: seq<nat>): (c: int)
    ensures c == -1 || c == 0 || c == 1
    decreases |a| + |b|
  {
    if a == [] && b == [] then 0
    else if Head(a) != Head(b) then (if Head(a) < Head(b) then -1 else 1)
    else CmpRuns(Tail(a), Tail(b))
  }

  /** An absent version is older than any other. */
  function Cmp(a: Option<string>, b: Option<string>): (c: int)
    ensures c == -1 || c == 0 || c == 1
  {
    if a.None? then (if b.None? then 0 else -1)
    else if b.None? then 1
    else CmpRuns(Runs(a.value), Runs(b.value))
  }

  // ----- what the comparison means -----

  function Padded(r: seq<nat>, k: nat): nat { if k < |r| then r[k] else 0 }

  /** The first place where two padded sequences differ decides. */
  ghost predicate DifferAt(a: seq<nat>, b: seq<nat>, k: nat) {
    Padded(a, k) != Padded(b, k) && forall j :: 0 <= j < k ==> Padded(a, j) == Padded(b, j)
  }

  lemma PaddedTail(r: seq<nat>, k: nat)
    ensures Padded(Tail(r), k) == Padded(r, k + 1) && Padded(r, 0) == Head(r)
  {
  }

  lemma {:induction false} CmpRunsMeans(a: seq<nat>, b: seq<nat>) returns (k: nat)
    ensures CmpRuns(a, b) == 0 ==> forall j: nat :: Padded(a, j) == Padded(b, j)
    ensures CmpRuns(a, b) != 0 ==> DifferAt(a, b, k) && (CmpRuns(a, b) < 0 <==> Padded(a, k) < Padded(b, k))
    decreases |a| + |b|
  {
    k := 0;
    if a == [] && b == [] {
    } else if Head(a) == Head(b) {
      var i := CmpRunsMeans(Tail(a), Tail(b));
      k := i + 1;
      forall j: nat
        ensures j > 0 ==> Padded(a, j) == Padded(Tail(a), j - 1) && Padded(b, j) == Padded(Tail(b), j - 1)
      {
        if j > 0 {
          PaddedTail(a, j - 1);
          PaddedTail(b, j - 1);
        }
      }
    }
  }

  lemma {:induction false} RunsReflexive(a: seq<nat>)
    ensures CmpRuns(a, a) == 0
    decreases |a|
  {
    if a != [] { RunsReflexive(Tail(a)); }
  }

  lemma {:induction false} RunsAntisymmetric(a: seq<nat>, b: seq<nat>)
    ensures CmpRuns(a, b) == -CmpRuns(b, a)
    decreases |a| + |b|
  {
    if !(a == [] && b == []) && Head(a) == Head(b) { RunsAntisymmetric(Tail(a), Tail(b)); }
  }

  lemma {:induction false} RunsTransitive(a: seq<nat>, b: seq<nat>, c: seq<nat>)
    requires CmpRuns(a, b) <= 0 && CmpRuns(b, c) <= 0
    ensures CmpRuns(a, c) <= 0 && (CmpRuns(a, b) < 0 || CmpRuns(b, c) < 0 ==> CmpRuns(a, c) < 0)
    decreases |a| + |b| + |c|
  {
    if a == [] && b == [] && c == [] {
    } else if Head(a) == Head(b) && Head(b) == Head(c) {
      assert CmpRuns(a, b) == CmpRuns(Tail(a), Tail(b));
      assert CmpRuns(b, c) == CmpRuns(Tail(b), Tail(c));
      assert CmpRuns(a, c) == CmpRuns(Tail(a), Tail(c));
      RunsTransitive(Tail(a), Tail(b), Tail(c));
    }
  }

  /** `version_cmp` is a total preorder. */
  lemma CmpOrder(a: Option<string>, b: Option<string>, c: Option<string>)
    ensures Cmp(a, a) == 0 && Cmp(a, b) == -Cmp(b, a)
    ensures Cmp(a, b) <= 0 && Cmp(b, c) <= 0 ==> Cmp(a, c) <= 0 && (Cmp(a, b) < 0 || Cmp(b, c) < 0 ==> Cmp(a, c) < 0)
  {
    hide CmpRuns, Runs;
    if a.Some? {
      RunsReflexive(Runs(a.value));
      if b.Some? {
        RunsAntisymmetric(Runs(a.value), Runs(b.value));
        if c.Some? && Cmp(a, b) <= 0 && Cmp(b, c) <= 0 {
          RunsTransitive(Runs(a.value), Runs(b.value), Runs(c.value));
        }
      }
    }
  }

  // ----- build stamps -----

  const KEY := 14

  /** The first n digits of a stamp. */
  function TakeDigits(s: string, n: nat): (t: string)
    ensures |t| <= n && forall i :: 0 <= i < |t| ==> IsDigit(t[i])
  {
    if s == [] || n == 0 then []
    else if IsDigit(s[0]) then [s[0]] + TakeDigits(s[1..], n - 1)
    else TakeDigits(s[1..], n)
  }

  predicate IsKey(k: string) { |k| == KEY && forall i :: 0 <= i < KEY ==> IsDigit(k[i]) }

  function Key(s: Option<string>): (k: string)
    ensures IsKey(k)
  {
    var d := if s.None? then [] else TakeDigits(s.value, KEY);
    d + seq(KEY - |d|, _ => '0')
  }

  /** `strcmp` on strings of equal length. */
  function CmpText(a: string, b: string): (c: int)
    requires |a| == |b|
    ensures c == -1 || c == 0 || c == 1
  {
    if a == [] then 0
    else if a[0] != b[0] then (if a[0] < b[0] then -1 else 1)
    else CmpText(a[1..], b[1..])
  }

  lemma {:induction false} TextOrder(a: string, b: string, c: string)
    requires |a| == |b| == |c|
    ensures CmpText(a, a) == 0 && CmpText(a, b) == -CmpText(b, a)
    ensures CmpText(a, b) <= 0 && CmpText(b, c) <= 0 ==>
      CmpText(a, c) <= 0 && (CmpText(a, b) < 0 || CmpText(b, c) < 0 ==> CmpText(a, c) < 0)
    decreases |a|
  {
    if a != [] { TextOrder(a[1..], b[1..], c[1..]); }
  }

  lemma {:induction false} ZerosLeast(k: string)
    requires forall i :: 0 <= i < |k| ==> IsDigit(k[i])
    ensures CmpText(k, seq(|k|, _ => '0')) >= 0
    decreases |k|
  {
    if k != [] {
      var z := seq(|k|, _ => '0');
      assert z[1..] == seq(|k| - 1, _ => '0');
      ZerosLeast(k[1..]);
    }
  }

  /** What is compared: a version and the time it was built. */
  datatype Stamp = Stamp(version: Option<string>, built: Option<string>)

  /** `is_newer`. */
  predicate IsNewer(have: Stamp, want: Stamp) {
    var c := Cmp(have.version, want.version);
    if c != 0 then c < 0
    else want.built.Some? && CmpText(Key(have.built), Key(want.built)) < 0
  }

  /** Version first, then the build time with an absent one counting as all zeros. */
  function CmpStamp(a: Stamp, b: Stamp): int {
    var c := Cmp(a.version, b.version);
    if c != 0 then c else CmpText(Key(a.built), Key(b.built))
  }

  lemma NewerIsLess(a: Stamp, b: Stamp)
    ensures IsNewer(a, b) <==> CmpStamp(a, b) < 0
  {
    hide CmpText, Cmp;
    if b.built.None? {
      ZerosLeast(Key(a.built));
      assert Key(b.built) == seq(KEY, _ => '0');
    }
  }

  lemma StampOrder(a: Stamp, b: Stamp, c: Stamp)
    ensures CmpStamp(a, a) == 0 && CmpStamp(a, b) == -CmpStamp(b, a)
    ensures CmpStamp(a, b) <= 0 && CmpStamp(b, c) <= 0 ==>
      CmpStamp(a, c) <= 0 && (CmpStamp(a, b) < 0 || CmpStamp(b, c) < 0 ==> CmpStamp(a, c) < 0)
  {
    hide CmpText, Cmp, Key;
    CmpOrder(a.version, b.version, c.version);
    CmpOrder(b.version, c.version, a.version);
    CmpOrder(c.version, a.version, b.version);
    TextOrder(Key(a.built), Key(b.built), Key(c.built));
  }

  /** `is_newer` is a strict weak order: irreflexive, transitive, and "not newer" is transitive too. */
  lemma NewerStrictWeakOrder(a: Stamp, b: Stamp, c: Stamp)
    ensures !IsNewer(a, a)
    ensures IsNewer(a, b) && IsNewer(b, c) ==> IsNewer(a, c)
    ensures !IsNewer(a, b) && !IsNewer(b, c) ==> !IsNewer(a, c)
  {
    hide CmpStamp, IsNewer;
    NewerIsLess(a, a);
    NewerIsLess(a, b);
    NewerIsLess(b, c);
    NewerIsLess(a, c);
    StampOrder(a, b, c);
    StampOrder(c, b, a);
    StampOrder(a, c, b);
    StampOrder(b, c, a);
  }

  // ----- the program's loops -----

  /** Past the text and over the digits in front of a cursor, to the number and the new cursor. */
  method TakeNumber(s: string) returns (n: nat, rest: string)
    ensures n == Number(SkipText(s), 0) && rest == SkipNumber(SkipText(s))
  {
    rest := s;
    while rest != [] && !IsDigit(rest[0])
      invariant SkipText(rest) == SkipText(s)
    {
      rest := rest[1..];
    }
    n := 0;
    while rest != [] && IsDigit(rest[0])
      invariant Number(rest, n) == Number(SkipText(s), 0) && SkipNumber(rest) == SkipNumber(SkipText(s))
    {
      n := 10 * n + DigitOf(rest[0]);
      rest := rest[1..];
    }
  }

  /** `version_cmp` with its two cursors. */
  method VersionCmp(a: Option<string>, b: Option<string>) returns (r: int)
    ensures r == Cmp(a, b)
  {
    hide Number, SkipNumber, SkipText;
    if a.None? { return if b.Some? then -1 else 0; }
    if b.None? { return 1; }
    var s, t := a.value, b.value;
    while s != [] || t != []
      invariant CmpRuns(Runs(s), Runs(t)) == Cmp(a, b)
      decreases |s| + |t|
    {
      RunsStep(s);
      RunsStep(t);
      var na, nb;
      na, s := TakeNumber(s);
      nb, t := TakeNumber(t);
      if na != nb { return if na < nb then -1 else 1; }
      if s == [] && t == [] { break; }
    }
    NoRuns();
    return 0;
  }

  lemma NoRuns()
    ensures Runs([]) == []
  {
  }

  lemma TakeMore(k: string, rest: string)
    requires rest != [] && |k| < KEY
    ensures k + TakeDigits(rest, KEY - |k|)
         == if IsDigit(rest[0]) then k + [rest[0]] + TakeDigits(rest[1..], KEY - |k| - 1) else k + TakeDigits(rest[1..], KEY - |k|)
  {
    hide TakeDigits;
    TakeStep(rest, KEY - |k|);
    if IsDigit(rest[0]) {
      Regroup(k, [rest[0]], TakeDigits(rest[1..], KEY - |k| - 1));
    }
  }

  lemma TakeStep(s: string, n: nat)
    requires s != [] && n > 0
    ensures TakeDigits(s, n) == if IsDigit(s[0]) then [s[0]] + TakeDigits(s[1..], n - 1) else TakeDigits(s[1..], n)
  {
  }

  lemma TakeNone(s: string, n: nat)
    requires s == [] || n == 0
    ensures TakeDigits(s, n) == []
  {
  }

  /** `built_key`: digits copied until the key is full, then zeros. */
  method BuiltKey(s: Option<string>) returns (k: string)
    ensures k == Key(s)
  {
    hide TakeDigits;
    k := [];
    var rest := if s.Some? then s.value else [];
    ghost var all := TakeDigits(rest, KEY);
    if s.None? { TakeNone([], KEY); }
    assert [] + all == all;
    while rest != [] && |k| < KEY
      invariant |k| <= KEY && k + TakeDigits(rest, KEY - |k|) == all
      decreases |rest|
    {
      TakeMore(k, rest);
      if IsDigit(rest[0]) {
        k := k + [rest[0]];
      }
      rest := rest[1..];
    }
    TakeNone(rest, KEY - |k|);
    assert k + [] == k;
    while |k| < KEY
      invariant |all| <= |k| <= KEY && k == all + seq(|k| - |all|, _ => '0')
    {
      k := k + ['0'];
    }
  }

  /** One number taken off the front of a version. */
  lemma RunsStep(s: string)
    ensures var t := SkipText(s);
      && Number(t, 0) == Head(Runs(s)) && Runs(SkipNumber(t)) == Tail(Runs(s))
      && (s != [] ==> |SkipNumber(t)| < |s|)
  {
    var t := SkipText(s);
    if t == [] { assert Runs(SkipNumber(t)) == []; }
    SkipTextShrinks(s);
  }

  lemma {:induction false} SkipTextShrinks(s: string)
    ensures s != [] && !IsDigit(s[0]) ==> |SkipText(s)| < |s|
  {
    if s != [] && !IsDigit(s[0]) { SkipTextShrinks(s[1..]); }
  }
}
