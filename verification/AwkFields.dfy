/** How awk takes a record apart into fields and puts it together again
    (`split_record` without its regular expressions, `rebuild_record` in usr/bin/awk.c). */
module AwkFields {
  import opened Seqs

  predicate IsBlank(c: char) { c == ' ' || c == '\t' || c == '\n' }

  // ----- on blanks -----

  function SkipBlanks(s: string): (t: string)
    ensures |t| <= |s| && (t != [] ==> !IsBlank(t[0]))
  {
    if s != [] && IsBlank(s[0]) then SkipBlanks(s[1..]) else s
  }

  /** The length of the word at the start of s. */
  function WordLen(s: string): (n: nat)
    ensures n <= |s| && (s != [] && !IsBlank(s[0]) ==> n > 0)
  {
    if s == [] || IsBlank(s[0]) then 0 else 1 + WordLen(s[1..])
  }

  function SplitBlank(s: string): seq<string>
    decreases |s|
  {
    var t := SkipBlanks(s);
    if t == [] then [] else [t[..WordLen(t)]] + SplitBlank(t[WordLen(t)..])
  }

  // ----- on a character -----

  /** The length of s up to the first c. */
  function Before(s: string, c: char): (n: nat)
    ensures n <= |s| && c !in s[..n] && (n < |s| ==> s[n] == c)
  {
    if s == [] || s[0] == c then 0
    else
      var n := Before(s[1..], c);
      assert s[..1 + n] == [s[0]] + s[1..][..n];
      1 + n
  }

  function SplitChar(s: string, c: char): (fs: seq<string>)
    ensures fs != []
    decreases |s|
  {
    var n := Before(s, c);
    if n == |s| then [s] else [s[..n]] + SplitChar(s[n + 1..], c)
  }

  function SplitEach(s: string): seq<string> {
    seq(|s|, i requires 0 <= i < |s| => [s[i]])
  }

  /** The separators that need no regular expression. */
  predicate Simple(fs: string) { |fs| <= 1 && fs != "\\" }

  function Split(fs: string, s: string): seq<string>
    requires Simple(fs)
  {
    if fs == " " then SplitBlank(s) else if fs == "" then SplitEach(s) else SplitChar(s, fs[0])
  }

  function Join(fields: seq<string>, ofs: string): string {
    if fields == [] then ""
    else if |fields| == 1 then fields[0]
    else fields[0] + ofs + Join(fields[1..], ofs)
  }

  // ----- what splitting means -----

  /** Without a separator every character is a field. */
  lemma EachMeans(s: string)
    ensures var fields := Split("", s);
      |fields| == |s| && forall k :: 0 <= k < |s| ==> |fields[k]| == 1 && fields[k][0] == s[k]
  {
  }

  /** Joining two lists puts the separator between what they are joined to. */
  lemma {:induction false} JoinCat(a: seq<string>, b: seq<string>, ofs: string)
    requires a != [] && b != []
    ensures Join(a + b, ofs) == Join(a, ofs) + ofs + Join(b, ofs)
    decreases |a|
  {
    assert (a + b)[1..] == a[1..] + b;
    if |a| == 1 {
      assert a[1..] + b == b;
    } else {
      JoinCat(a[1..], b, ofs);
      assert a[0] + ofs + (Join(a[1..], ofs) + ofs + Join(b, ofs)) == a[0] + ofs + Join(a[1..], ofs) + ofs + Join(b, ofs);
    }
  }

  lemma SplitCharStep(s: string, c: char)
    ensures var n := Before(s, c);
      SplitChar(s, c) == if n == |s| then [s] else [s[..n]] + SplitChar(s[n + 1..], c)
  {
  }

  lemma {:induction false} SplitCharFields(s: string, c: char)
    ensures forall f :: f in SplitChar(s, c) ==> c !in f
    decreases |s|
  {
    hide Before, SplitChar;
    var n := Before(s, c);
    SplitCharStep(s, c);
    if n == |s| {
      assert s[..n] == s;
    } else {
      SplitCharFields(s[n + 1..], c);
    }
  }

  lemma JoinFirst(f: string, rest: seq<string>, ofs: string)
    requires rest != []
    ensures Join([f] + rest, ofs) == f + ofs + Join(rest, ofs)
  {
    assert ([f] + rest)[1..] == rest;
  }

  /** Joining what was split gives the record back. */
  lemma {:induction false} JoinOfSplit(s: string, c: char)
    ensures Join(SplitChar(s, c), [c]) == s
    decreases |s|
  {
    hide Before, SplitChar, Join;
    var n := Before(s, c);
    SplitCharStep(s, c);
    if n == |s| {
      JoinOne(s, [c]);
    } else {
      JoinOfSplit(s[n + 1..], c);
      JoinFirst(s[..n], SplitChar(s[n + 1..], c), [c]);
      assert s == s[..n] + [c] + s[n + 1..];
    }
  }

  lemma JoinOne(f: string, ofs: string)
    ensures Join([f], ofs) == f
  {
  }

  lemma {:induction false} BeforeOf(f: string, c: char, rest: string)
    requires c !in f
    ensures Before(f, c) == |f| && Before(f + [c] + rest, c) == |f|
  {
    var s := f + [c] + rest;
    if f != [] {
      assert s[1..] == f[1..] + [c] + rest;
      assert s[0] == f[0];
      assert f[0] in f;
      BeforeOf(f[1..], c, rest);
    } else {
      assert s[0] == c;
    }
  }

  /** Splitting what was joined gives the fields back, if there are any and none holds the separator. */
  lemma {:induction false} SplitOfJoin(fields: seq<string>, c: char)
    requires fields != [] && forall f :: f in fields ==> c !in f
    ensures SplitChar(Join(fields, [c]), c) == fields
    decreases fields
  {
    var f := fields[0];
    if |fields| == 1 {
      BeforeOf(f, c, "");
    } else {
      var rest := Join(fields[1..], [c]);
      var s := f + [c] + rest;
      BeforeOf(f, c, rest);
      assert s[..|f|] == f && s[|f| + 1..] == rest;
      SplitOfJoin(fields[1..], c);
    }
  }

  /** The condition is exact: without it the round trip is lost. */
  lemma SplitOfJoinExactly(fields: seq<string>, c: char)
    ensures SplitChar(Join(fields, [c]), c) == fields <==> fields != [] && forall f :: f in fields ==> c !in f
  {
    if fields != [] && forall f :: f in fields ==> c !in f {
      SplitOfJoin(fields, c);
    } else {
      SplitCharFields(Join(fields, [c]), c);
    }
  }

  function Squeeze(s: string): string {
    if s == [] then [] else if s[0] in [' ', '\t', '\n'] then Squeeze(s[1..]) else [s[0]] + Squeeze(s[1..])
  }

  function Concat(fields: seq<string>): string {
    if fields == [] then [] else fields[0] + Concat(fields[1..])
  }

  lemma {:induction false} SqueezeSkip(s: string)
    ensures Squeeze(SkipBlanks(s)) == Squeeze(s)
  {
    if s != [] && IsBlank(s[0]) { SqueezeSkip(s[1..]); }
  }

  lemma {:induction false} WordChars(s: string)
    ensures forall i :: 0 <= i < WordLen(s) ==> !IsBlank(s[i])
  {
    if s != [] && !IsBlank(s[0]) { WordChars(s[1..]); }
  }

  lemma {:induction false} SqueezeWord(s: string)
    ensures Squeeze(s) == s[..WordLen(s)] + Squeeze(s[WordLen(s)..])
  {
    if s == [] || IsBlank(s[0]) {
      assert s[..0] + Squeeze(s[0..]) == Squeeze(s);
    } else {
      var t := s[1..];
      SqueezeWord(t);
      var n := WordLen(t);
      assert s[1 + n..] == t[n..];
      assert s[..1 + n] == [s[0]] + t[..n];
      Regroup([s[0]], t[..n], Squeeze(t[n..]));
    }
  }

  /** Blank splitting keeps every other character in order, in words that are not empty and hold no blank. */
  lemma {:induction false} SplitBlankMeans(s: string)
    ensures Concat(SplitBlank(s)) == Squeeze(s)
    ensures forall f :: f in SplitBlank(s) ==> f != [] && forall i :: 0 <= i < |f| ==> f[i] != ' ' && f[i] != '\t' && f[i] != '\n'
    decreases |s|
  {
    var t := SkipBlanks(s);
    SqueezeSkip(s);
    if t != [] {
      SqueezeWord(t);
      WordChars(t);
      var n := WordLen(t);
      SplitBlankMeans(t[n..]);
      assert ([t[..n]] + SplitBlank(t[n..]))[1..] == SplitBlank(t[n..]);
    }
  }

  lemma {:induction false} SkipBlanksCat(s: string, t: string)
    ensures SkipBlanks(s + t) == if SkipBlanks(s) == [] then SkipBlanks(t) else SkipBlanks(s) + t
  {
    var u := s + t;
    if s == [] {
      assert u == t;
    } else if IsBlank(s[0]) {
      assert u[1..] == s[1..] + t;
      SkipBlanksCat(s[1..], t);
    }
  }

  lemma {:induction false} WordLenCat(s: string, c: char, t: string)
    requires IsBlank(c)
    ensures WordLen(s + [c] + t) == WordLen(s)
  {
    var u := s + [c] + t;
    if s != [] && !IsBlank(s[0]) {
      assert u[1..] == s[1..] + [c] + t;
      WordLenCat(s[1..], c, t);
    }
  }

  lemma SkipOne(c: char, t: string)
    requires IsBlank(c)
    ensures SkipBlanks([c] + t) == SkipBlanks(t)
  {
    assert ([c] + t)[1..] == t;
  }

  lemma SplitBlankStep(s: string, w: string)
    requires w == SkipBlanks(s)
    ensures SplitBlank(s) == if w == [] then [] else [w[..WordLen(w)]] + SplitBlank(w[WordLen(w)..])
  {
  }

  /** A blank separates: both sides are split on their own. */
  lemma {:induction false} SplitBlankCat(s: string, c: char, t: string)
    requires IsBlank(c)
    ensures SplitBlank(s + [c] + t) == SplitBlank(s) + SplitBlank(t)
    decreases |s|
  {
    hide SkipBlanks, WordLen, SplitBlank, IsBlank;
    var w, rest := SkipBlanks(s), [c] + t;
    assert s + [c] + t == s + rest;
    SkipBlanksCat(s, rest);
    SplitBlankStep(s, w);
    if w == [] {
      SkipOne(c, t);
      SplitBlankStep(s + rest, SkipBlanks(t));
      SplitBlankStep(t, SkipBlanks(t));
      assert [] + SplitBlank(t) == SplitBlank(t);
    } else {
      var n, u := WordLen(w), w + [c] + t;
      assert w + rest == u;
      SplitBlankStep(s + rest, u);
      WordLenCat(w, c, t);
      assert u[..n] == w[..n] && u[n..] == w[n..] + [c] + t;
      SplitBlankCat(w[n..], c, t);
      Regroup([w[..n]], SplitBlank(w[n..]), SplitBlank(t));
    }
  }

  /** A text without blanks is one field. */
  lemma {:induction false} SplitBlankWord(w: string)
    requires w != [] && forall i :: 0 <= i < |w| ==> !IsBlank(w[i])
    ensures WordLen(w) == |w| && SplitBlank(w) == [w]
  {
    if |w| > 1 { SplitBlankWord(w[1..]); }
    assert w[..|w|] == w;
  }

  // ----- the program's loops -----

  method SplitOnBlanks(s: string) returns (fields: seq<string>)
    ensures fields == SplitBlank(s)
  {
    fields := [];
    var p := s;
    while p != []
      invariant fields + SplitBlank(p) == SplitBlank(s)
      decreases |p|
    {
      ghost var before := p;
      while p != [] && IsBlank(p[0])
        invariant |p| <= |before| && SkipBlanks(p) == SkipBlanks(before)
      {
        p := p[1..];
      }
      if p == [] { break; }
      var n := 0;
      while n < |p| && !IsBlank(p[n])
        invariant n <= |p| && n + WordLen(p[n..]) == WordLen(p)
      {
        assert p[n..][1..] == p[n + 1..];
        n := n + 1;
      }
      Regroup(fields, [p[..n]], SplitBlank(p[n..]));
      fields := fields + [p[..n]];
      p := p[n..];
    }
  }

  method SplitOnChar(s: string, c: char) returns (fields: seq<string>)
    ensures fields == SplitChar(s, c)
  {
    hide SplitChar;
    fields := [];
    var st, p := 0, 0;
    assert s[0..] == s && [] + SplitChar(s, c) == SplitChar(s, c);
    while true
      invariant 0 <= st <= p <= |s|
      invariant fields + SplitChar(s[st..], c) == SplitChar(s, c)
      invariant c !in s[st..p]
      decreases |s| - p
    {
      if p == |s| || s[p] == c {
        FieldAt(s, st, p, c);
        if p == |s| {
          fields := fields + [s[st..p]];
          break;
        }
        Regroup(fields, [s[st..p]], SplitChar(s[p + 1..], c));
        fields := fields + [s[st..p]];
        p := p + 1;
        st := p;
      } else {
        assert s[st..p + 1] == s[st..p] + [s[p]];
        p := p + 1;
      }
    }
  }

  lemma FieldAt(s: string, st: nat, p: nat, c: char)
    requires st <= p <= |s| && c !in s[st..p] && (p < |s| ==> s[p] == c)
    ensures SplitChar(s[st..], c) == if p == |s| then [s[st..p]] else [s[st..p]] + SplitChar(s[p + 1..], c)
  {
    var t, f := s[st..], s[st..p];
    if p == |s| {
      assert t == f;
      BeforeOf(f, c, "");
    } else {
      var rest := s[p + 1..];
      assert t == f + [c] + rest;
      BeforeOf(f, c, rest);
      assert t[..|f|] == f && t[|f| + 1..] == rest;
    }
  }
}
