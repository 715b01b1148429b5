/** herd's tar writer and reader as the program has them: a growing buffer,
    a header block filled in place, and a loop over the bytes of an archive. */
module TarHerd {
  import opened Seqs
  import opened TarBytes
  import opened TarFormat
  import opened TarArchive
  import opened TarProof
  import opened TarSafe

  /** `memcpy` into a block. */
  method Copy(h: array<byte>, at: nat, bs: bytes)
    requires at + |bs| <= h.Length
    modifies h
    ensures h[..] == Put(old(h[..]), at, bs)
  {
    var i := 0;
    while i < |bs|
      invariant i <= |bs|
      invariant h[..] == Put(old(h[..]), at, bs[..i])
    {
      h[at + i] := bs[i];
      i := i + 1;
      assert bs[..i] == bs[..i - 1] + [bs[i - 1]];
      PutOneMore(old(h[..]), at, bs, i - 1);
    }
    assert bs[..i] == bs;
  }

  lemma PutOneMore(h: bytes, at: nat, bs: bytes, i: nat)
    requires at + |bs| <= |h| && i < |bs|
    ensures Put(h, at, bs[..i + 1]) == Put(h, at, bs[..i])[at + i := bs[i]]
  {
    var r, s := Put(h, at, bs[..i + 1]), Put(h, at, bs[..i])[at + i := bs[i]];
    forall k | 0 <= k < |h| ensures r[k] == s[k] {
    }
  }

  /** The search for a place to split a long name, from its end. */
  method FindCut(name: bytes) returns (c: nat)
    requires name != []
    ensures c == Cut(name, |name| - 1)
  {
    c := |name| - 1;
    while c > 0
      invariant c < |name| && Cut(name, c) == Cut(name, |name| - 1)
    {
      if name[c] == SLASH && c <= 155 && |name| - c - 1 <= 100 && c + 1 < |name| { return; }
      c := c - 1;
    }
  }

  method SumBlock(h: array<byte>) returns (sum: nat)
    ensures sum == Sum(h[..])
  {
    sum := 0;
    var i := 0;
    while i < h.Length
      invariant i <= h.Length && sum + Sum(h[i..]) == Sum(h[..])
    {
      assert h[i..][0] == h[i] && h[i..][1..] == h[i + 1..];
      sum := sum + h[i];
      i := i + 1;
    }
    assert h[i..] == [];
  }

  /** The header block itself, field after field. */
  method FillHeader(h: array<byte>, name: bytes, prefix: bytes, kind: byte, mode: nat, size: nat, link: bytes, mtime: nat)
    requires h.Length == BLOCK && h[..] == Zeros(BLOCK) && |name| <= 100 && |prefix| <= 155
    modifies h
    ensures h[..] == Header(name, prefix, kind, mode, size, link, mtime)
  {
    hide Put, OctField, Sum;
    Copy(h, 345, prefix);
    Copy(h, 0, name);
    assert h[..] == Named(name, prefix);
    FillNumbers(h, mode, size, mtime);
    FillType(h, kind, link);
    FillMagic(h);
    var sum := SumBlock(h);
    Copy(h, 148, OctField(sum, 6));
    Copy(h, 155, [32]);
  }

  method FillNumbers(h: array<byte>, mode: nat, size: nat, mtime: nat)
    requires h.Length == BLOCK
    modifies h
    ensures h[..] == Numbered(old(h[..]), mode, size, mtime)
  {
    hide Put, OctField;
    Copy(h, 100, OctField(mode % 4096, 7));
    Copy(h, 108, OctField(0, 7));
    Copy(h, 116, OctField(0, 7));
    Copy(h, 124, OctField(size, 11));
    Copy(h, 136, OctField(mtime, 11));
  }

  method FillType(h: array<byte>, kind: byte, link: bytes)
    requires h.Length == BLOCK
    modifies h
    ensures h[..] == Typed(old(h[..]), kind, link)
  {
    hide Put;
    Copy(h, 156, [kind]);
    if link != [] {
      Copy(h, 157, (if |link| < 100 then link else link[..99]) + [0]);
    }
  }

  method FillMagic(h: array<byte>)
    requires h.Length == BLOCK
    modifies h
    ensures h[..] == Signed(old(h[..]))
  {
    hide Put;
    Copy(h, 257, Magic());
    Copy(h, 263, Ascii("00"));
    Copy(h, 265, Ascii("root"));
    Copy(h, 297, Ascii("root"));
    Copy(h, 148, Ascii("        "));
  }

  const FIRST_CAP := 65536

  /** A capacity the buffer comes to: none, or the first one doubled some number of times. */
  predicate Doubled(cap: nat) {
    cap == 0 || cap == FIRST_CAP || (cap > FIRST_CAP && cap % 2 == 0 && Doubled(cap / 2))
  }

  /** The doubling in `buf_put`: from the present capacity on, until there is room. */
  method Grown(cap: nat, need: nat) returns (r: nat)
    requires Doubled(cap)
    ensures need <= r && cap <= r && Doubled(r) && r >= FIRST_CAP
    ensures r == cap || r == FIRST_CAP || r < 2 * need
  {
    r := if cap == 0 then FIRST_CAP else cap;
    while need > r
      invariant r >= FIRST_CAP && cap <= r && Doubled(r)
      invariant r == cap || r == FIRST_CAP || r < 2 * need
      decreases need - r
    {
      r := r * 2;
    }
  }

  /** `buf_t`: memory of which the first n bytes are in use, with a zero byte behind them. */
  class Buffer {
    var mem: array<byte>
    var n: nat
    ghost var data: bytes

    ghost predicate Valid()
      reads this, mem
    {
      && n == |data| <= mem.Length && mem[..n] == data && Doubled(mem.Length)
      && (mem.Length > 0 ==> n < mem.Length && mem[n] == 0)
    }

    constructor ()
      ensures Valid() && data == [] && fresh(mem)
    {
      mem := new byte[0];
      n, data := 0, [];
    }

    /** `buf_put`: the bytes go behind those in use, in the same memory or in memory that is
        large enough, at most twice as large as needed. */
    method Append(d: bytes)
      requires Valid()
      modifies this, mem
      ensures Valid() && data == old(data) + d && (mem == old(mem) || fresh(mem))
      ensures mem.Length > |data| && mem.Length >= old(mem.Length)
      ensures mem.Length == old(mem.Length) || mem.Length == FIRST_CAP || mem.Length < 2 * (|data| + 1)
    {
      if n + |d| + 1 > mem.Length {
        var cap := Grown(mem.Length, n + |d| + 1);
        var q := new byte[cap](_ => 0);
        forall i | 0 <= i < n { q[i] := mem[i]; }
        assert q[..n] == data;
        mem := q;
      }
      Place(d);
    }

    /** The copy at the end of `buf_put`. */
    method Place(d: bytes)
      requires n == |data| && n + |d| < mem.Length && mem[..n] == data && Doubled(mem.Length)
      modifies this`n, this`data, mem
      ensures Valid() && data == old(data) + d
    {
      forall i | 0 <= i < |d| { mem[n + i] := d[i]; }
      data := data + d;
      n := n + |d|;
      mem[n] := 0;
      assert mem[..n] == data;
    }

    method AppendHeader(name: bytes, prefix: bytes, kind: byte, mode: nat, size: nat, link: bytes, mtime: nat)
      requires Valid() && |name| <= 100 && |prefix| <= 155
      modifies this, mem
      ensures Valid() && (mem == old(mem) || fresh(mem)) && data == old(data) + Header(name, prefix, kind, mode, size, link, mtime)
    {
      hide Header, Valid;
      var h := new byte[BLOCK](_ => 0);
      assert h[..] == Zeros(BLOCK);
      FillHeader(h, name, prefix, kind, mode, size, link, mtime);
      Append(h[..]);
    }

    /** A long name in blocks of 512 bytes, its terminating zero included. */
    method AppendName(name: bytes)
      requires Valid()
      modifies this, mem
      ensures Valid() && (mem == old(mem) || fresh(mem)) && data == old(data) + Padded(name + [0])
    {
      hide Valid, Padded, RoundUp, Zeros;
      var text := name + [0];
      var off := 0;
      assert Padded(text)[..0] == [];
      while off < |text|
        invariant Valid() && (mem == old(mem) || fresh(mem))
        invariant 0 <= off <= |Padded(text)| && off % BLOCK == 0 && data == old(data) + Padded(text)[..off]
        decreases |text| - off
      {
        var k := if |text| - off < BLOCK then |text| - off else BLOCK;
        var pad := text[off..off + k] + Zeros(BLOCK - k);
        PaddedBlock(text, off);
        Regroup(old(data), Padded(text)[..off], pad);
        Append(pad);
        off := off + BLOCK;
      }
      PaddedEnd(text, off);
    }

    /** `tar_header`. */
    method TarHeader(name: bytes, kind: byte, mode: nat, size: nat, link: bytes, now: (nat, nat))
      requires Valid()
      modifies this, mem
      ensures Valid() && (mem == old(mem) || fresh(mem)) && data == old(data) + HeaderBytes(name, kind, mode, size, link, now)
    {
      hide Header, Padded, Cut, Valid;
      if |name| <= 100 {
        AppendHeader(name, [], kind, mode, size, link, now.1);
        return;
      }
      var c := FindCut(name);
      if c > 0 {
        AppendHeader(name[c + 1..], name[..c], kind, mode, size, link, now.1);
      } else {
        AppendHeader(LongLink(), [], LONG, 420, |name| + 1, [], now.0);
        AppendName(name);
        AppendHeader(name[..100], [], kind, mode, size, link, now.1);
      }
    }

    /** `tar_file` and the branch for every other kind of entry. */
    method AppendEntry(e: Entry, now: (nat, nat))
      requires Valid()
      modifies this, mem
      ensures Valid() && (mem == old(mem) || fresh(mem)) && data == old(data) + EntryBytes(e, now)
    {
      hide HeaderBytes, Valid, Padded, Zeros;
      PaddedParts(e.data);
      if e.kind == FILE {
        Regroup(data, HeaderBytes(e.path, FILE, e.mode, |e.data|, [], now), e.data);
        TarHeader(e.path, FILE, e.mode, |e.data|, [], now);
        Append(e.data);
        if |e.data| % BLOCK != 0 {
          Append(Zeros(BLOCK - |e.data| % BLOCK));
        }
      } else {
        var path := e.path + if e.kind == DIR then [SLASH] else [];
        assert path == Written(e).path;
        TarHeader(path, e.kind, e.mode, 0, if e.kind == SYMLINK || e.kind == HARD then e.link else [], now);
      }
    }

    /** The archive of a package, read back to the entries it was made from. */
    method WriteArchive(es: seq<Entry>, now: nat -> (nat, nat))
      requires Valid() && data == []
      modifies this, mem
      ensures Valid() && (mem == old(mem) || fresh(mem)) && data == Archive(es, now)
      ensures (forall i :: 0 <= i < |es| ==> Storable(es[i])) && |es| <= 4096 ==>
        ReadFrom(data, [], 0) == Got(WrittenAll(es)) && ReadBack(es, ReadFrom(data, [], 0))
    {
      hide EntryBytes, Storable, ReadFrom, Valid, ReadBack;
      var i := 0;
      while i < |es|
        invariant Valid() && (mem == old(mem) || fresh(mem))
        invariant i <= |es| && data + Bodies(es[i..], now, i) == Bodies(es, now, 0)
      {
        assert es[i..][0] == es[i] && es[i..][1..] == es[i + 1..];
        AppendEntry(es[i], now(i));
        i := i + 1;
      }
      assert es[i..] == [];
      Append(Zeros(1024));
      if (forall i :: 0 <= i < |es| ==> Storable(es[i])) && |es| <= 4096 {
        RoundTrip(es, now);
      }
    }
  }

  lemma PaddedBlock(text: bytes, off: nat)
    requires off < |text| && off % BLOCK == 0
    ensures off + BLOCK <= |Padded(text)| && (off + BLOCK) % BLOCK == 0
    ensures var k := if |text| - off < BLOCK then |text| - off else BLOCK;
      Padded(text)[..off + BLOCK] == Padded(text)[..off] + (text[off..off + k] + Zeros(BLOCK - k))
  {
  }

  lemma PaddedParts(d: bytes)
    ensures Padded(d) == if |d| % BLOCK != 0 then d + Zeros(BLOCK - |d| % BLOCK) else d
  {
  }

  lemma PaddedEnd(text: bytes, off: nat)
    requires |text| <= off <= |Padded(text)| && off % BLOCK == 0
    ensures Padded(text)[..off] == Padded(text)
  {
  }

  /** One turn of the reader at offset `off`, in terms of the whole archive. */
  lemma ReadTurn(tar: bytes, off: nat, long: bytes, n: nat)
    requires off + BLOCK <= |tar|
    ensures var h, body := tar[off..off + BLOCK], tar[off + BLOCK..];
      var size := Oct(h[124..136], 0);
      var next := Rest(tar, off + BLOCK + RoundUp(size));
      ReadFrom(Rest(tar, off), long, n) ==
        if h == Zeros(BLOCK) then Got([])
        else if h[257..262] != Ascii("ustar") || size > |body| then NotTar
        else if h[156] == LONG then ReadFrom(next, LongOf(body, size), n)
        else if h[156] == 120 || h[156] == 103 || h[156] == 75 then ReadFrom(next, long, n)
        else if !SafeRel(NameOf(h, long)) then Unsafe(NameOf(h, long))
        else if n >= MAX_FILES then TooMany
        else Prepend(EntryOf(h, NameOf(h, long), body), ReadFrom(next, [], n + 1))
  {
    hide SafeRel, NameOf, EntryOf, LongOf, Oct, RoundUp, Prepend, Rest;
    BlockAt(tar, off);
    RestAgain(tar, off + BLOCK, RoundUp(Oct(tar[off..off + BLOCK][124..136], 0)));
  }

  lemma ReadOver(tar: bytes, off: nat, long: bytes, n: nat)
    requires off + BLOCK > |tar|
    ensures ReadFrom(Rest(tar, off), long, n) == Got([])
  {
  }

  /** The segment from `s` on ends at the first slash. */
  method SegmentEnd(path: bytes, s: nat) returns (e: nat)
    requires s <= |path|
    ensures s <= e <= |path| && Segment(path[s..]) == path[s..e]
  {
    e := s;
    while e < |path| && path[e] != SLASH
      invariant s <= e <= |path| && forall k :: s <= k < e ==> path[k] != SLASH
    {
      e := e + 1;
    }
    SegmentIs(path[s..], e - s);
    assert path[s..][..e - s] == path[s..e];
  }

  lemma SegmentIs(q: bytes, n: nat)
    requires n <= |q| && (n == |q| || q[n] == SLASH) && forall k :: 0 <= k < n ==> q[k] != SLASH
    ensures Segment(q) == q[..n]
  {
    SegmentMeans(q);
  }

  /** The loop past leading "./" pairs. */
  method SkipDots(path: bytes) returns (p: nat)
    ensures p <= |path| && path[p..] == StripDots(path)
  {
    p := 0;
    assert path[0..] == path;
    while p + 1 < |path| && path[p] == 46 && path[p + 1] == SLASH
      invariant p <= |path| && StripDots(path[p..]) == StripDots(path)
    {
      assert path[p..][2..] == path[p + 2..];
      p := p + 2;
    }
  }

  /** What the segment from s to e says about the rest of a path. */
  lemma SegmentStep(path: bytes, s: nat, e: nat)
    requires s <= e <= |path| && Segment(path[s..]) == path[s..e]
    ensures e - s == 2 && path[s] == 46 && path[s + 1] == 46 ==> !NoDotDot(path[s..])
    ensures !(e - s == 2 && path[s] == 46 && path[s + 1] == 46) && e == |path| ==> NoDotDot(path[s..])
    ensures !(e - s == 2 && path[s] == 46 && path[s + 1] == 46) && e < |path| ==>
              NoDotDot(path[s..]) == NoDotDot(path[e + 1..])
  {
    hide Segment;
    var rest := path[s..];
    assert e < |path| ==> rest[e - s + 1..] == path[e + 1..];
    assert path[s..e] == [46, 46] <==> e - s == 2 && path[s] == 46 && path[s + 1] == 46;
  }

  /** The loop over segments. */
  method SegmentsSafe(path: bytes, p: nat) returns (ok: bool)
    requires p <= |path|
    ensures ok == NoDotDot(path[p..])
  {
    hide NoDotDot, Segment;
    var s := p;
    while s < |path|
      invariant p <= s <= |path| && NoDotDot(path[s..]) == NoDotDot(path[p..])
    {
      var e := SegmentEnd(path, s);
      SegmentStep(path, s, e);
      if e - s == 2 && path[s] == 46 && path[s + 1] == 46 { return false; }
      if e == |path| { return true; }
      s := e + 1;
    }
    assert path[s..] == [];
    EmptyPath();
    return true;
  }

  /** `safe_rel`. */
  method IsSafe(path: bytes) returns (ok: bool)
    ensures ok == SafeRel(path)
    ensures ok <==> Safe(path)
  {
    hide Safe, Segment, NoDotDot, StripDots;
    SafeRelMeans(path);
    var p := SkipDots(path);
    if p == |path| { return true; }
    if path[p] == SLASH { return false; }
    ok := SegmentsSafe(path, p);
  }

  lemma EmptyPath()
    ensures NoDotDot([])
  {
  }

  /** `read_tar_entries`. Every path it stores is safe, or cut to 511 bytes from a safe one, and it
      complains only about paths that are not. */
  method ReadEntries(tar: bytes) returns (r: Reading)
    ensures r == ReadFrom(tar, [], 0)
    ensures AllSafe(r)
  {
    r := CollectEntries(tar);
    ReadSafe(tar, [], 0);
  }

  /** Its loop over offsets. */
  method CollectEntries(tar: bytes) returns (r: Reading)
    ensures r == ReadFrom(tar, [], 0)
  {
    hide SafeRel, NameOf, EntryOf, LongOf, Oct, RoundUp, ReadFrom, Safe;
    var off := 0;
    var long: bytes := [];
    var es: seq<Entry> := [];
    ghost var answer := ReadFrom(tar, [], 0);
    assert Rest(tar, 0) == tar;
    StartEmpty(answer);
    while off + BLOCK <= |tar|
      invariant 0 <= off
      invariant PrependAll(es, ReadFrom(Rest(tar, off), long, |es|)) == answer
      decreases |tar| - off
    {
      hide Rest, PrependAll;
      var h := tar[off..off + BLOCK];
      ReadTurn(tar, off, long, |es|);
      EarlyEnd(es);
      if h == Zeros(BLOCK) { return Got(es); }
      if h[257..262] != Ascii("ustar") { return NotTar; }
      off := off + BLOCK;
      var size := Oct(h[124..136], 0);
      if size > |tar| - off { return NotTar; }
      var body := tar[off..];
      if h[156] == LONG {
        long := LongOf(body, size);
      } else if h[156] != 120 && h[156] != 103 && h[156] != 75 {
        var name := NameOf(h, long);
        long := [];
        var safe := IsSafe(name);
        if !safe { return Unsafe(name); }
        if |es| >= MAX_FILES { return TooMany; }
        PrependMore(es, EntryOf(h, name, body), ReadFrom(Rest(tar, off + RoundUp(size)), [], |es| + 1));
        es := es + [EntryOf(h, name, body)];
      }
      off := off + RoundUp(size);
    }
    ReadOver(tar, off, long, |es|);
    EarlyEnd(es);
    r := Got(es);
  }

  lemma StartEmpty(r: Reading)
    ensures PrependAll([], r) == r
  {
    if r.Got? { assert [] + r.entries == r.entries; }
  }

  lemma EarlyEnd(es: seq<Entry>)
    ensures PrependAll(es, Got([])) == Got(es) && PrependAll(es, NotTar) == NotTar && PrependAll(es, TooMany) == TooMany
    ensures forall p :: PrependAll(es, Unsafe(p)) == Unsafe(p)
  {
    assert es + [] == es;
  }

  function PrependAll(es: seq<Entry>, r: Reading): Reading {
    if r.Got? then Got(es + r.entries) else r
  }

  lemma PrependMore(es: seq<Entry>, e: Entry, r: Reading)
    ensures PrependAll(es, Prepend(e, r)) == PrependAll(es + [e], r)
  {
    if r.Got? {
      assert es + ([e] + r.entries) == es + [e] + r.entries;
    }
  }

  lemma BlockAt(tar: bytes, off: nat)
    requires off + BLOCK <= |tar|
    ensures var t := Rest(tar, off);
      |t| >= BLOCK && t[..BLOCK] == tar[off..off + BLOCK] && t[BLOCK..] == tar[off + BLOCK..]
  {
  }

  lemma RestAgain(tar: bytes, off: nat, k: nat)
    requires off <= |tar|
    ensures Rest(tar[off..], k) == Rest(tar, off + k)
  {
  }
}
