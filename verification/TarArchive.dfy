/** herd's archives: what `tar_header` and `tar_file` write for a list of
    entries, and what `read_tar_entries` makes of bytes. */
module TarArchive {
  import opened TarBytes
  import opened TarFormat

  const SLASH: byte := 47
  const FILE: byte := 48
  const HARD: byte := 49
  const SYMLINK: byte := 50
  const DIR: byte := 53
  const LONG: byte := 76
  const MAX_FILES := 4096
  const PATH_MAX := 512
  const LINK_MAX := 256
  const NAME_MAX := 1024

  datatype Entry = Entry(path: bytes, kind: byte, mode: nat, link: bytes, data: bytes)

  // ----- writing -----

  /** A slash with at most 155 bytes before it and 1 to 100 behind it. */
  predicate CutsAt(name: bytes, i: nat)
    requires i < |name|
  {
    name[i] == SLASH && i <= 155 && 1 <= |name| - i - 1 <= 100
  }

  /** The last slash that leaves at most 155 bytes before it and 1 to 100 behind it; 0 if there is none. */
  function Cut(name: bytes, i: nat): (c: nat)
    requires i < |name|
    ensures c <= i && (c > 0 ==> name[c] == 47 && c <= 155 && 1 <= |name| - c - 1 <= 100)
    ensures forall j :: c < j <= i ==> !(name[j] == 47 && j <= 155 && 1 <= |name| - j - 1 <= 100)
  {
    if i == 0 then 0
    else if CutsAt(name, i) then i
    else Cut(name, i - 1)
  }

  function RoundUp(n: nat): (r: nat)
    ensures n <= r < n + BLOCK && r % BLOCK == 0
  {
    (n + 511) / BLOCK * BLOCK
  }

  function Padded(data: bytes): (r: bytes)
    ensures |r| == RoundUp(|data|)
  {
    data + Zeros(RoundUp(|data|) - |data|)
  }

  function LongLink(): (s: bytes)
    ensures |s| == 13
  {
    Ascii("././@LongLink")
  }

  /** `tar_header`; `now` are the times its two headers are stamped with. */
  function HeaderBytes(name: bytes, kind: byte, mode: nat, size: nat, link: bytes, now: (nat, nat)): bytes {
    if |name| <= 100 then Header(name, [], kind, mode, size, link, now.1)
    else
      var c := Cut(name, |name| - 1);
      if c > 0 then Header(name[c + 1..], name[..c], kind, mode, size, link, now.1)
      else
        Header(LongLink(), [], LONG, 420, |name| + 1, [], now.0) + Padded(name + [0])
        + Header(name[..100], [], kind, mode, size, link, now.1)
  }

  /** Directories are written with a slash behind their path. */
  function Written(e: Entry): Entry {
    if e.kind == DIR then e.(path := e.path + [SLASH]) else e
  }

  function EntryBytes(e: Entry, now: (nat, nat)): bytes {
    if e.kind == FILE then HeaderBytes(e.path, FILE, e.mode, |e.data|, [], now) + Padded(e.data)
    else HeaderBytes(Written(e).path, e.kind, e.mode, 0, if e.kind == SYMLINK || e.kind == HARD then e.link else [], now)
  }

  function Bodies(es: seq<Entry>, now: nat -> (nat, nat), k: nat): bytes {
    if es == [] then [] else EntryBytes(es[0], now(k)) + Bodies(es[1..], now, k + 1)
  }

  function Archive(es: seq<Entry>, now: nat -> (nat, nat)): bytes {
    Bodies(es, now, 0) + Zeros(1024)
  }

  // ----- reading -----

  predicate DotDot(s: bytes) { s == [46, 46] }

  /** The bytes before the first slash. */
  function Segment(s: bytes): bytes {
    if s == [] || s[0] == SLASH then [] else [s[0]] + Segment(s[1..])
  }

  lemma {:induction false} SegmentFits(s: bytes)
    ensures |Segment(s)| <= |s|
  {
    if s != [] && s[0] != SLASH { SegmentFits(s[1..]); }
  }

  predicate NoDotDot(s: bytes)
    decreases |s|
  {
    SegmentFits(s);
    var seg := Segment(s);
    !DotDot(seg) && (|seg| < |s| ==> NoDotDot(s[|seg| + 1..]))
  }

  function StripDots(p: bytes): bytes {
    if |p| >= 2 && p[0] == 46 && p[1] == SLASH then StripDots(p[2..]) else p
  }

  /** `safe_rel`: a relative path without ".." segments. */
  predicate SafeRel(path: bytes) {
    var p := StripDots(path);
    p == [] || (p[0] != SLASH && NoDotDot(p))
  }

  datatype Reading = Got(entries: seq<Entry>) | NotTar | Unsafe(path: bytes) | TooMany

  function Prepend(e: Entry, r: Reading): Reading {
    if r.Got? then Got([e] + r.entries) else r
  }

  /** A string copied into a buffer of n bytes. */
  function Clip(s: bytes, n: nat): bytes
    requires n > 0
  {
    if |s| < n then s else s[..n - 1]
  }

  /** The path of a header, after a long name if one came before it. */
  function NameOf(h: bytes, long: bytes): bytes
    requires |h| == BLOCK
  {
    if long != [] then long
    else if h[345] != 0 then CStr(h[345..500]) + [SLASH] + CStr(h[0..100])
    else CStr(h[0..100])
  }

  /** The entry `add_entry` stores for a header and the bytes behind it. */
  function EntryOf(h: bytes, name: bytes, body: bytes): Entry
    requires |h| == BLOCK && Oct(h[124..136], 0) <= |body|
  {
    var kind := if h[156] == 0 then FILE else h[156];
    Entry(Clip(name, PATH_MAX), kind, Oct(h[100..108], 0) % 4096, Clip(CStr(h[157..257]), LINK_MAX),
          if kind == FILE then body[..Oct(h[124..136], 0)] else [])
  }

  function Rest(t: bytes, k: nat): bytes { if k <= |t| then t[k..] else [] }

  function LongOf(body: bytes, size: nat): bytes
    requires size <= |body|
  {
    CStr(body[..if size < NAME_MAX - 1 then size else NAME_MAX - 1])
  }

  /** `read_tar_entries` on the bytes not yet read, with the pending long name and the entries so far. */
  function ReadFrom(t: bytes, long: bytes, n: nat): Reading
    decreases |t|
  {
    if |t| < BLOCK || t[..BLOCK] == Zeros(BLOCK) then Got([])
    else
      var h, body := t[..BLOCK], t[BLOCK..];
      var size := Oct(h[124..136], 0);
      if h[257..262] != Ascii("ustar") || size > |body| then NotTar
      else
        var next := Rest(body, RoundUp(size));
        if h[156] == LONG then ReadFrom(next, LongOf(body, size), n)
        else if h[156] == 120 || h[156] == 103 || h[156] == 75 then ReadFrom(next, long, n)
        else
          var name := NameOf(h, long);
          if !SafeRel(name) then Unsafe(name)
          else if n >= MAX_FILES then TooMany
          else Prepend(EntryOf(h, name, body), ReadFrom(next, [], n + 1))
  }
}

/** Reading a written archive gives the entries that were written. */
module TarProof {
  import opened TarBytes
  import opened TarFormat
  import opened TarArchive

  /** What a header can carry: a safe path under 512 bytes, a link under 100, a size below 8^11. */
  predicate Carried(e: Entry) {
    && e.kind !in {0, 76, 120, 103, 75} && e.mode < 4096
    && NoZero(e.path) && |e.path| < 512 && SafeRel(e.path)
    && NoZero(e.link) && |e.link| < 100
    && |e.data| < Pow8(11) && (e.data != [] ==> e.kind == 48)
  }

  /** An entry as the writer takes it: links belong to link entries. */
  predicate Storable(e: Entry) {
    Carried(Written(e)) && (e.link != [] ==> e.kind == 50 || e.kind == 49)
  }

  lemma Digits7(mode: nat)
    requires mode < 4096
    ensures mode < Pow8(7)
  {
  }

  /** The start of a block read back: not empty, a tar block, its size and kind. */
  lemma BlockStart(h: bytes, name: bytes, prefix: bytes, kind: byte, mode: nat, size: nat, link: bytes)
    requires |name| <= 100 && |prefix| <= 155 && |link| < 100 && size < Pow8(11)
    requires Fields(h, name, prefix, kind, mode, size, link)
    ensures h != Zeros(BLOCK) && h[257..262] == Ascii("ustar") && Oct(h[124..136], 0) == size && h[156] == kind
  {
    hide OctField, Oct, Pow8;
    OctRoundTrip(size, 11);
    assert h[257..263][0] == h[257] == 117;
    assert h[257..262] == h[257..263][..5];
    assert Magic()[..5] == Ascii("ustar");
    assert h[156..157][0] == h[156];
  }

  lemma EntryRead(h: bytes, name: bytes, prefix: bytes, e: Entry, link: bytes, body: bytes, path: bytes)
    requires |name| <= 100 && |prefix| <= 155 && |link| < 100 && NoZero(link)
    requires e.mode < 4096 && e.kind != 0 && |e.data| < Pow8(11) && |path| < PATH_MAX
    requires Fields(h, name, prefix, e.kind, e.mode, |e.data|, link) && |e.data| <= |body| && e.data == body[..|e.data|]
    requires e.data != [] ==> e.kind == FILE
    ensures Oct(h[124..136], 0) <= |body|
    ensures EntryOf(h, path, body) == Entry(path, e.kind, e.mode, link, e.data)
  {
    hide OctField, Oct, Pow8, CStr;
    BlockStart(h, name, prefix, e.kind, e.mode, |e.data|, link);
    Digits7(e.mode);
    OctRoundTrip(e.mode, 7);
    CStrPadded(link, 100 - |link|);
  }

  /** The name of a header block without a pending long name. */
  lemma NameRead(h: bytes, name: bytes, prefix: bytes, kind: byte, mode: nat, size: nat, link: bytes)
    requires |name| <= 100 && |prefix| <= 155 && |link| < 100 && NoZero(name) && NoZero(prefix)
    requires Fields(h, name, prefix, kind, mode, size, link)
    ensures NameOf(h, []) == if prefix == [] then name else prefix + [SLASH] + name
  {
    hide OctField, CStr;
    CStrPadded(name, 100 - |name|);
    CStrPadded(prefix, 155 - |prefix|);
    assert h[345..500][0] == h[345];
  }

  lemma Pieces(h: bytes, data: bytes, rest: bytes)
    requires |h| == BLOCK
    ensures var t := h + Padded(data) + rest;
      && |t| >= BLOCK && t[..BLOCK] == h && t[BLOCK..] == Padded(data) + rest && |t[BLOCK..]| >= |data|
      && t[BLOCK..][..|data|] == data && Rest(t[BLOCK..], RoundUp(|data|)) == rest
  {
  }

  /** One entry block with its data is read as that entry. */
  lemma ReadBlock(h: bytes, name: bytes, prefix: bytes, e: Entry, rest: bytes, long: bytes, n: nat)
    requires |name| <= 100 && |prefix| <= 155 && Carried(e) && n < MAX_FILES
    requires Fields(h, name, prefix, e.kind, e.mode, |e.data|, e.link) && NameOf(h, long) == e.path
    ensures ReadFrom(h + Padded(e.data) + rest, long, n) == Prepend(e, ReadFrom(rest, [], n + 1))
  {
    hide OctField, Oct, Pow8, NameOf, EntryOf, SafeRel, RoundUp, Padded, Rest, LongOf;
    BlockStart(h, name, prefix, e.kind, e.mode, |e.data|, e.link);
    Pieces(h, e.data, rest);
    EntryRead(h, name, prefix, e, e.link, (h + Padded(e.data) + rest)[BLOCK..], e.path);
  }

  /** A long-name block leaves the name pending. */
  lemma ReadLong(h: bytes, name: bytes, rest: bytes, n: nat)
    requires NoZero(name) && |name| < PATH_MAX && Fields(h, LongLink(), [], LONG, 420, |name| + 1, [])
    ensures ReadFrom(h + Padded(name + [0]) + rest, [], n) == ReadFrom(rest, name, n)
  {
    hide OctField, Oct, Pow8, NameOf, EntryOf, SafeRel, RoundUp, Padded, Rest, CStr;
    LongSize(name);
    BlockStart(h, LongLink(), [], LONG, 420, |name| + 1, []);
    Pieces(h, name + [0], rest);
    CStrPadded(name, 1);
    assert name + [0] == name + Zeros(1);
  }

  lemma LongSize(name: bytes)
    requires |name| < PATH_MAX
    ensures |name| + 1 < Pow8(11)
  {
    assert Pow8(4) == 4096;
    PowGrows(4, 11);
  }

  lemma {:induction false} PowGrows(m: nat, n: nat)
    requires m <= n
    ensures Pow8(m) <= Pow8(n)
    decreases n
  {
    if m < n { PowGrows(m, n - 1); }
  }

  /** All three ways `tar_header` has to carry a name. */
  lemma ReadHeaderBytes(e: Entry, now: (nat, nat), rest: bytes, n: nat)
    requires Carried(e) && n < MAX_FILES
    ensures ReadFrom(HeaderBytes(e.path, e.kind, e.mode, |e.data|, e.link, now) + Padded(e.data) + rest, [], n)
         == Prepend(e, ReadFrom(rest, [], n + 1))
  {
    hide Header, Padded, ReadFrom, SafeRel, Fields, NameOf, Pow8, Cut;
    var name := e.path;
    if |name| <= 100 {
      HeaderFields(name, [], e.kind, e.mode, |e.data|, e.link, now.1);
      var h := Header(name, [], e.kind, e.mode, |e.data|, e.link, now.1);
      NameRead(h, name, [], e.kind, e.mode, |e.data|, e.link);
      ReadBlock(h, name, [], e, rest, [], n);
    } else if Cut(name, |name| - 1) > 0 {
      ReadSplit(e, now, rest, n);
    } else {
      ReadUnsplit(e, now, rest, n);
    }
  }

  lemma ReadSplit(e: Entry, now: (nat, nat), rest: bytes, n: nat)
    requires Carried(e) && |e.path| > 100 && n < MAX_FILES
    requires Cut(e.path, |e.path| - 1) > 0
    ensures var c := Cut(e.path, |e.path| - 1);
      ReadFrom(Header(e.path[c + 1..], e.path[..c], e.kind, e.mode, |e.data|, e.link, now.1) + Padded(e.data) + rest, [], n)
      == Prepend(e, ReadFrom(rest, [], n + 1))
  {
    hide Header, Padded, ReadFrom, SafeRel, Fields, NameOf, Pow8, Cut;
    var c := Cut(e.path, |e.path| - 1);
    var last, prefix := e.path[c + 1..], e.path[..c];
    HeaderFields(last, prefix, e.kind, e.mode, |e.data|, e.link, now.1);
    var h := Header(last, prefix, e.kind, e.mode, |e.data|, e.link, now.1);
    NameRead(h, last, prefix, e.kind, e.mode, |e.data|, e.link);
    assert prefix + [SLASH] + last == e.path;
    ReadBlock(h, last, prefix, e, rest, [], n);
  }

  lemma ReadUnsplit(e: Entry, now: (nat, nat), rest: bytes, n: nat)
    requires Carried(e) && |e.path| > 100 && n < MAX_FILES
    ensures ReadFrom(Header(LongLink(), [], LONG, 420, |e.path| + 1, [], now.0) + Padded(e.path + [0])
                     + Header(e.path[..100], [], e.kind, e.mode, |e.data|, e.link, now.1) + Padded(e.data) + rest, [], n)
         == Prepend(e, ReadFrom(rest, [], n + 1))
  {
    hide Header, Padded, ReadFrom, SafeRel, Fields, NameOf, Pow8;
    var first := Header(LongLink(), [], LONG, 420, |e.path| + 1, [], now.0);
    var h := Header(e.path[..100], [], e.kind, e.mode, |e.data|, e.link, now.1);
    HeaderFields(LongLink(), [], LONG, 420, |e.path| + 1, [], now.0);
    HeaderFields(e.path[..100], [], e.kind, e.mode, |e.data|, e.link, now.1);
    var tail := h + Padded(e.data) + rest;
    assert first + Padded(e.path + [0]) + h + Padded(e.data) + rest == first + Padded(e.path + [0]) + tail;
    ReadLong(first, e.path, tail, n);
    PendingName(h, e.path);
    ReadBlock(h, e.path[..100], [], e, rest, e.path, n);
  }

  lemma PendingName(h: bytes, long: bytes)
    requires |h| == BLOCK && long != []
    ensures NameOf(h, long) == long
  {
  }

  lemma ReadEntry(e: Entry, now: (nat, nat), rest: bytes, n: nat)
    requires Storable(e) && n < MAX_FILES
    ensures ReadFrom(EntryBytes(e, now) + rest, [], n) == Prepend(Written(e), ReadFrom(rest, [], n + 1))
  {
    hide HeaderBytes, ReadFrom, SafeRel, Pow8, NoZero;
    assert Padded([]) == [];
    var b := HeaderBytes(Written(e).path, e.kind, e.mode, |e.data|, e.link, now);
    assert e.kind != FILE ==> b + Padded([]) == b;
    ReadHeaderBytes(Written(e), now, rest, n);
  }

  lemma ReadTrailer(n: nat)
    ensures ReadFrom(Zeros(1024), [], n) == Got([])
  {
    assert Zeros(1024)[..BLOCK] == Zeros(BLOCK);
  }

  function WrittenAll(es: seq<Entry>): seq<Entry> {
    seq(|es|, i requires 0 <= i < |es| => Written(es[i]))
  }

  lemma {:induction false} ReadBodies(es: seq<Entry>, now: nat -> (nat, nat), k: nat, n: nat)
    requires (forall i :: 0 <= i < |es| ==> Storable(es[i])) && n + |es| <= MAX_FILES
    ensures ReadFrom(Bodies(es, now, k) + Zeros(1024), [], n) == Got(WrittenAll(es))
    decreases es
  {
    hide ReadFrom, EntryBytes, Storable, Written;
    if es == [] {
      assert [] + Zeros(1024) == Zeros(1024);
      ReadTrailer(n);
    } else {
      var rest := Bodies(es[1..], now, k + 1) + Zeros(1024);
      assert Bodies(es, now, k) + Zeros(1024) == EntryBytes(es[0], now(k)) + rest;
      ReadEntry(es[0], now(k), rest, n);
      ReadBodies(es[1..], now, k + 1, n + 1);
      assert WrittenAll(es) == [Written(es[0])] + WrittenAll(es[1..]);
    }
  }

  /** What was written, with a slash behind every directory. */
  ghost predicate ReadBack(es: seq<Entry>, r: Reading) {
    && r.Got? && |r.entries| == |es|
    && forall k :: 0 <= k < |es| ==> r.entries[k] == if es[k].kind == 53 then es[k].(path := es[k].path + [47]) else es[k]
  }

  /** Reading what was written gives every path, kind, mode, link and content back. */
  lemma RoundTrip(es: seq<Entry>, now: nat -> (nat, nat))
    requires (forall i :: 0 <= i < |es| ==> Storable(es[i])) && |es| <= 4096
    ensures ReadFrom(Archive(es, now), [], 0) == Got(WrittenAll(es))
    ensures ReadBack(es, ReadFrom(Archive(es, now), [], 0))
  {
    ReadBodies(es, now, 0, 0);
  }
  // ----- archives of other programs -----

  /** A string in a buffer ends at its first zero, or with the buffer. */
  lemma {:induction false} CStrMeans(s: bytes)
    ensures var n := |CStr(s)|;
      n <= |s| && CStr(s) == s[..n] && (n == |s| || s[n] == 0) && forall i :: 0 <= i < n ==> s[i] != 0
  {
    if s != [] && s[0] != 0 {
      CStrMeans(s[1..]);
      var n := |CStr(s[1..])|;
      assert s[..n + 1] == [s[0]] + s[1..][..n];
    }
  }

  ghost predicate CutTo(s: bytes, max: nat, r: bytes) { r <= s && |r| == if |s| <= max then |s| else max }

  /** What is kept of a header: 511 bytes of the path, the low twelve bits of the mode, the link, and the data of files. */
  lemma EntryMeans(h: bytes, name: bytes, body: bytes)
    requires |h| == BLOCK && Oct(h[124..136], 0) <= |body|
    ensures var e := EntryOf(h, name, body);
      && CutTo(name, 511, e.path) && e.mode < 4096 && (Oct(h[100..108], 0) - e.mode) % 4096 == 0
      && e.kind == (if h[156] == 0 then 48 else h[156]) && e.link == CStr(h[157..257])
      && e.data == if e.kind == 48 then body[..Oct(h[124..136], 0)] else []
  {
    hide Oct, CStr;
    CStrMeans(h[157..257]);
    var m := Oct(h[100..108], 0);
    assert m - m % 4096 == m / 4096 * 4096;
  }

  /** A long name is what stands before the first zero in at most 1023 bytes of its block. */
  lemma LongMeans(body: bytes, size: nat) returns (part: bytes)
    requires size <= |body|
    ensures CutTo(body[..size], 1023, part) && LongOf(body, size) == CStr(part)
  {
    part := body[..if size < 1023 then size else 1023];
    assert part <= body[..size];
  }

  /** The three sources of a name. */
  lemma NameMeans(h: bytes, long: bytes)
    requires |h| == BLOCK
    ensures long != [] ==> NameOf(h, long) == long
    ensures long == [] && h[345] == 0 ==> NameOf(h, long) == CStr(h[0..100])
    ensures long == [] && h[345] != 0 ==> NameOf(h, long) == CStr(h[345..500]) + [47] + CStr(h[0..100])
  {
  }

  /** A block of a tar archive of this size and kind. */
  ghost predicate TarBlock(h: bytes, kind: byte, size: nat) {
    && |h| == BLOCK && h != Zeros(BLOCK) && h[257..262] == Ascii("ustar")
    && Oct(h[124..136], 0) == size && h[156] == kind
  }

  /** Extended headers (x, g) and long link names (K) are passed over with their data. */
  lemma ReadSkips(h: bytes, kind: byte, data: bytes, rest: bytes, long: bytes, n: nat)
    requires TarBlock(h, kind, |data|) && kind in {120, 103, 75}
    ensures ReadFrom(h + Padded(data) + rest, long, n) == ReadFrom(rest, long, n)
  {
    hide Oct, NameOf, EntryOf, SafeRel, RoundUp, Padded, Rest, LongOf;
    Pieces(h, data, rest);
  }

  /** A file without a kind, as old programs write it, is a file. */
  lemma ReadOldFile(h: bytes, data: bytes, rest: bytes, n: nat)
    requires TarBlock(h, 0, |data|) && SafeRel(NameOf(h, [])) && n < 4096
    ensures var r := ReadFrom(h + Padded(data) + rest, [], n);
      exists e: Entry :: e.kind == 48 && e.data == data && r == Prepend(e, ReadFrom(rest, [], n + 1))
  {
    hide Oct, NameOf, SafeRel, RoundUp, Padded, Rest, LongOf, Clip, CStr;
    Pieces(h, data, rest);
    var t := h + Padded(data) + rest;
    var e := EntryOf(h, NameOf(h, []), t[BLOCK..]);
    assert e.kind == 48 && e.data == data;
  }

  /** Anything else in the place of a block is no archive. */
  lemma ReadRefuses(t: bytes, long: bytes, n: nat)
    requires |t| >= BLOCK && t[..BLOCK] != Zeros(BLOCK)
    requires t[257..262] != Ascii("ustar") || Oct(t[124..136], 0) > |t| - BLOCK
    ensures ReadFrom(t, long, n) == NotTar
  {
    hide Oct, Ascii;
    var h := t[..BLOCK];
    assert h[257..262] == t[257..262] && h[124..136] == t[124..136];
  }

  lemma PrependOne(e: Entry, r: Reading)
    ensures Prepend(e, r).Got? ==> r.Got? && |Prepend(e, r).entries| == |r.entries| + 1
  {
  }

  lemma RestShrinks(body: bytes, k: nat)
    ensures |Rest(body, k)| <= |body|
  {
  }

  /** No more entries than the reader keeps. */
  lemma {:induction false} ReadBounded(t: bytes, long: bytes, n: nat)
    requires n <= 4096
    ensures var r := ReadFrom(t, long, n); r.Got? ==> n + |r.entries| <= 4096
    decreases |t|
  {
    hide SafeRel, NameOf, EntryOf, LongOf, Oct, RoundUp, Rest, Prepend;
    if |t| < BLOCK || t[..BLOCK] == Zeros(BLOCK) { return; }
    var h, body := t[..BLOCK], t[BLOCK..];
    var size := Oct(h[124..136], 0);
    if h[257..262] != Ascii("ustar") || size > |body| { return; }
    var next := Rest(body, RoundUp(size));
    RestShrinks(body, RoundUp(size));
    if h[156] == LONG {
      ReadBounded(next, LongOf(body, size), n);
    } else if h[156] == 120 || h[156] == 103 || h[156] == 75 {
      ReadBounded(next, long, n);
    } else if n < MAX_FILES {
      ReadBounded(next, [], n + 1);
      if SafeRel(NameOf(h, long)) { PrependOne(EntryOf(h, NameOf(h, long), body), ReadFrom(next, [], n + 1)); }
    }
  }
}
