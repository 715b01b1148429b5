/** Which paths herd takes from an archive: relative ones without a ".." between slashes. */
module TarSafe {
  import opened TarBytes
  import opened TarFormat
  import opened TarArchive

  ghost predicate DotSlash(q: bytes) { |q| >= 2 && q[0] == 46 && q[1] == 47 }

  /** q is p behind n leading "./" pairs, and has no more of them. */
  ghost predicate Behind(p: bytes, n: nat, q: bytes) {
    && 2 * n <= |p| && q == p[2 * n..] && !DotSlash(q)
    && forall i :: 0 <= i < n ==> p[2 * i] == 46 && p[2 * i + 1] == 47
  }

  /** The bytes from i to j stand between slashes or ends of q, and are "..". */
  ghost predicate DotsAt(q: bytes, i: nat, j: nat) {
    && i <= j <= |q| && (i == 0 || q[i - 1] == 47) && (j == |q| || q[j] == 47)
    && q[i..j] == [46, 46]
  }

  ghost predicate Escapes(q: bytes) { exists i: nat, j: nat :: DotsAt(q, i, j) }

  ghost predicate Safe(p: bytes) {
    exists n: nat, q :: Behind(p, n, q) && (q == [] || (q[0] != 47 && !Escapes(q)))
  }

  // ----- the program's test -----

  lemma {:induction false} StripBehind(p: bytes) returns (n: nat)
    ensures Behind(p, n, StripDots(p))
  {
    if DotSlash(p) {
      var m := StripBehind(p[2..]);
      hide StripDots;
      OnePairMore(p, m, StripDots(p[2..]));
      StripStep(p);
      n := m + 1;
    } else {
      n := 0;
    }
  }

  lemma StripStep(p: bytes)
    requires DotSlash(p)
    ensures StripDots(p) == StripDots(p[2..])
  {
  }

  lemma OnePairMore(p: bytes, m: nat, q: bytes)
    requires DotSlash(p) && Behind(p[2..], m, q)
    ensures Behind(p, m + 1, q)
  {
    var r := p[2..];
    assert r[2 * m..] == p[2 * m + 2..];
    forall i | 0 <= i < m + 1 ensures p[2 * i] == 46 && p[2 * i + 1] == 47 {
      if i > 0 { PairBelow(p, r, i); }
    }
  }

  lemma PairBelow(p: bytes, r: bytes, i: nat)
    requires |p| >= 2 && r == p[2..] && 1 <= i && 2 * i + 2 <= |p| && r[2 * (i - 1)] == 46 && r[2 * (i - 1) + 1] == 47
    ensures p[2 * i] == 46 && p[2 * i + 1] == 47
  {
  }

  lemma NotBefore(p: bytes, m: nat, q: bytes, n: nat)
    requires Behind(p, m, q) && 2 * n <= |p| && forall i :: 0 <= i < n ==> p[2 * i] == 46 && p[2 * i + 1] == 47
    ensures n <= m
  {
  }

  lemma BehindOnce(p: bytes, m: nat, q: bytes, n: nat, r: bytes)
    requires Behind(p, m, q) && Behind(p, n, r)
    ensures m == n && q == r
  {
    NotBefore(p, m, q, n);
    NotBefore(p, n, r, m);
  }

  /** The first segment runs to the first slash. */
  lemma {:induction false} SegmentMeans(s: bytes)
    ensures var n := |Segment(s)|;
      n <= |s| && Segment(s) == s[..n] && (n == |s| || s[n] == 47) && forall i :: 0 <= i < n ==> s[i] != 47
  {
    if s != [] && s[0] != SLASH {
      SegmentMeans(s[1..]);
      var n := |Segment(s[1..])|;
      assert s[..n + 1] == [s[0]] + s[1..][..n];
    }
  }

  lemma DotsShift(q: bytes, k: nat, i: nat, j: nat)
    requires k < |q| && q[k] == 47
    ensures DotsAt(q[k + 1..], i, j) <==> DotsAt(q, i + k + 1, j + k + 1)
  {
    if i <= j <= |q| - k - 1 {
      assert q[k + 1..][i..j] == q[i + k + 1..j + k + 1];
    }
  }

  /** A ".." is the first segment, or stands behind its slash. */
  lemma EscapesNext(q: bytes)
    ensures var n := |Segment(q)|;
      n <= |q| && (Escapes(q) <==> Segment(q) == [46, 46] || (n < |q| && Escapes(q[n + 1..])))
  {
    SegmentMeans(q);
    var n := |Segment(q)|;
    if Segment(q) == [46, 46] { assert DotsAt(q, 0, 2); }
    hide DotsAt, Segment;
    if n < |q| && Escapes(q[n + 1..]) {
      var i: nat, j: nat :| DotsAt(q[n + 1..], i, j);
      DotsShift(q, n, i, j);
    }
    if Escapes(q) {
      var i: nat, j: nat :| DotsAt(q, i, j);
      DotsPlace(q, n, i, j);
      if i == 0 { FirstSlash(q, n, j); } else { DotsShift(q, n, i - n - 1, j - n - 1); }
    }
  }

  /** A ".." that does not begin a path begins behind its first slash. */
  lemma DotsPlace(q: bytes, n: nat, i: nat, j: nat)
    requires DotsAt(q, i, j) && n <= |q| && forall k :: 0 <= k < n ==> q[k] != 47
    requires n == |q| || q[n] == 47
    ensures i == 0 || (n < i <= j && n < |q|)
  {
  }

  lemma FirstSlash(q: bytes, n: nat, j: nat)
    requires DotsAt(q, 0, j) && n <= |q| && Segment(q) == q[..n] && (n == |q| || q[n] == 47)
    requires forall i :: 0 <= i < n ==> q[i] != 47
    ensures Segment(q) == [46, 46]
  {
    assert j == 2 && q[0..2][0] == q[0] && q[0..2][1] == q[1];
  }

  lemma {:induction false} NoDotDotMeans(q: bytes)
    ensures NoDotDot(q) <==> !Escapes(q)
    decreases |q|
  {
    EscapesNext(q);
    var n := |Segment(q)|;
    if n < |q| { NoDotDotMeans(q[n + 1..]); }
  }

  /** `safe_rel` is that condition. */
  lemma SafeRelMeans(p: bytes)
    ensures SafeRel(p) <==> Safe(p)
  {
    hide Behind, NoDotDot, Escapes, StripDots;
    var n := StripBehind(p);
    var q := StripDots(p);
    NoDotDotMeans(q);
    if Safe(p) {
      var m: nat, r :| Behind(p, m, r) && (r == [] || (r[0] != 47 && !Escapes(r)));
      BehindOnce(p, n, q, m, r);
    }
  }

  // ----- the entries of an archive -----

  /** The stored path is safe, or the first 511 bytes of a longer one that is. */
  ghost predicate FromSafe(path: bytes) {
    Safe(path) || (|path| == 511 && exists more :: Safe(path + more))
  }

  ghost predicate AllSafe(r: Reading) {
    match r
    case Got(es) => forall i :: 0 <= i < |es| ==> FromSafe(es[i].path)
    case Unsafe(p) => !Safe(p)
    case _ => true
  }

  lemma ClipSafe(name: bytes)
    requires Safe(name)
    ensures FromSafe(Clip(name, PATH_MAX))
  {
    hide Safe;
    if |name| >= PATH_MAX { assert name[..511] + name[511..] == name; }
  }

  /** A path cut to its first 511 bytes stays safe exactly unless the cut leaves ".." behind a slash. */
  lemma CutStaysSafe(name: bytes)
    requires Safe(name) && |name| >= 512
    ensures Safe(name[..511]) <==> name[508..511] != [47, 46, 46]
  {
    assert name[..511][508..511] == name[508..511];
    hide Escapes, Behind;
    var n: nat, q :| Behind(name, n, q) && (q == [] || (q[0] != 47 && !Escapes(q)));
    if name[508..511] == [47, 46, 46] {
      CutUnsafe(name[..511]);
    } else {
      CutSafe(name, n, q);
    }
  }

  lemma BehindCut(name: bytes, n: nat, q: bytes, k: nat)
    requires Behind(name, n, q) && 2 * n <= k <= |name|
    ensures Behind(name[..k], n, q[..k - 2 * n])
  {
    assert name[..k][2 * n..] == q[..k - 2 * n];
  }

  lemma AllPairs(name: bytes, n: nat, q: bytes)
    requires Behind(name, n, q) && 2 * n > 511
    ensures Behind(name[..511], 255, [46])
  {
    assert name[2 * 255] == 46;
    assert name[..511][510..] == [46];
  }

  lemma CutSafe(name: bytes, n: nat, q: bytes)
    requires |name| >= 512 && Behind(name, n, q) && (q == [] || (q[0] != 47 && !Escapes(q)))
    requires name[508..511] != [47, 46, 46]
    ensures Safe(name[..511])
  {
    if 2 * n <= 511 {
      var k := 511 - 2 * n;
      assert k >= 3 ==> q[..k][k - 3..] == name[508..511];
      hide Escapes, Behind;
      BehindCut(name, n, q, 511);
      CutEscapes(q, k);
    } else {
      AllPairs(name, n, q);
      OneByte(46);
      hide Escapes, Behind;
    }
  }

  lemma OneByte(c: byte)
    ensures !Escapes([c])
  {
  }

  /** A cut can only bring in a ".." at its end. */
  lemma CutEscapes(q: bytes, k: nat)
    requires k <= |q| && !Escapes(q) && k % 2 == 1 && (k >= 3 ==> q[..k][k - 3..] != [47, 46, 46])
    ensures !Escapes(q[..k])
  {
    var c := q[..k];
    if Escapes(c) {
      var i: nat, j: nat :| DotsAt(c, i, j);
      DotsLonger(q, k, i, j);
      LastThree(c, i);
    }
  }

  lemma DotsLonger(q: bytes, k: nat, i: nat, j: nat)
    requires k <= |q|
    ensures DotsAt(q[..k], i, j) && j < k ==> DotsAt(q, i, j)
  {
    if i <= j < k { assert q[i..j] == q[..k][i..j]; }
  }

  lemma LastThree(c: bytes, i: nat)
    requires |c| % 2 == 1
    ensures DotsAt(c, i, |c|) ==> |c| >= 3 && c[|c| - 3..] == [47, 46, 46]
  {
    if DotsAt(c, i, |c|) { assert c[i..|c|][0] == c[i] && c[i..|c|][1] == c[i + 1]; }
  }

  lemma CutUnsafe(p: bytes)
    requires |p| == 511 && p[508..511] == [47, 46, 46]
    ensures !Safe(p)
  {
    assert p[508..511][0] == p[508] && p[508..511][1] == p[509] && p[508..511][2] == p[510];
    forall n: nat, q | Behind(p, n, q) ensures q != [] && Escapes(q) {
      if n >= 1 { assert p[2 * (n - 1)] == 46; }
      assert q[|q| - 2..|q|] == [46, 46];
      assert DotsAt(q, |q| - 2, |q|);
    }
  }

  /** Such a path: safe as it stands in the archive, not as it is stored. */
  lemma CutWitness()
    ensures var name := seq(508, _ => 97) + [47, 46, 46, 98];
      Safe(name) && !Safe(Clip(name, PATH_MAX))
  {
    var name: bytes := seq(508, _ => 97) + [47, 46, 46, 98];
    if Escapes(name) {
      var i: nat, j: nat :| DotsAt(name, i, j);
      FirstTwo(name, i, j);
    }
    assert Behind(name, 0, name);
    assert name[508..511] == [47, 46, 46];
    CutStaysSafe(name);
  }

  lemma FirstTwo(q: bytes, i: nat, j: nat)
    requires DotsAt(q, i, j)
    ensures j == i + 2 <= |q| && q[i] == 46 && q[i + 1] == 46
  {
    assert q[i..j][0] == q[i] && q[i..j][1] == q[i + 1];
  }

  lemma PrependSafe(e: Entry, r: Reading)
    requires FromSafe(e.path) && AllSafe(r)
    ensures AllSafe(Prepend(e, r))
  {
    hide FromSafe, Safe;
  }

  /** Every entry read has such a path, and a path complained about is not safe. */
  lemma {:induction false} ReadSafe(t: bytes, long: bytes, n: nat)
    ensures AllSafe(ReadFrom(t, long, n))
    decreases |t|
  {
    hide SafeRel, NameOf, LongOf, Oct, RoundUp, Safe, FromSafe, Prepend, Clip;
    if |t| < BLOCK || t[..BLOCK] == Zeros(BLOCK) { return; }
    var h, body := t[..BLOCK], t[BLOCK..];
    var size := Oct(h[124..136], 0);
    if h[257..262] != Ascii("ustar") || size > |body| { return; }
    var next := Rest(body, RoundUp(size));
    if h[156] == LONG {
      ReadSafe(next, LongOf(body, size), n);
    } else if h[156] == 120 || h[156] == 103 || h[156] == 75 {
      ReadSafe(next, long, n);
    } else {
      var name := NameOf(h, long);
      SafeRelMeans(name);
      if SafeRel(name) && n < MAX_FILES {
        ReadSafe(next, [], n + 1);
        ClipSafe(name);
        PrependSafe(EntryOf(h, name, body), ReadFrom(next, [], n + 1));
      }
    }
  }
}
