/** The 512-byte tar header that herd writes, built up write by write as
    `tar_header` does, and the fields that are in it afterwards. */
module TarFormat {
  import opened TarBytes

  const BLOCK := 512

  function Sum(h: bytes): nat {
    if h == [] then 0 else h[0] + Sum(h[1..])
  }

  /** Name and prefix into an empty block. */
  function Named(name: bytes, prefix: bytes): (h: bytes)
    requires |name| <= 100 && |prefix| <= 155
    ensures |h| == BLOCK
  {
    Put(Put(Zeros(BLOCK), 345, prefix), 0, name)
  }

  function Numbered(h: bytes, mode: nat, size: nat, mtime: nat): (r: bytes)
    requires |h| == BLOCK
    ensures |r| == BLOCK
  {
    var a := Put(h, 100, OctField(mode % 4096, 7));
    var b := Put(Put(a, 108, OctField(0, 7)), 116, OctField(0, 7));
    Put(Put(b, 124, OctField(size, 11)), 136, OctField(mtime, 11))
  }

  /** An absent link writes nothing; snprintf keeps 99 bytes of a longer one. */
  function Typed(h: bytes, kind: byte, link: bytes): (r: bytes)
    requires |h| == BLOCK
    ensures |r| == BLOCK
  {
    var a := Put(h, 156, [kind]);
    if link == [] then a else Put(a, 157, (if |link| < 100 then link else link[..99]) + [0])
  }

  function Magic(): (m: bytes)
    ensures |m| == 6
  {
    Ascii("ustar") + [0]
  }

  function Signed(h: bytes): (r: bytes)
    requires |h| == BLOCK
    ensures |r| == BLOCK
  {
    var a := Put(Put(h, 257, Magic()), 263, Ascii("00"));
    var b := Put(Put(a, 265, Ascii("root")), 297, Ascii("root"));
    Put(b, 148, Ascii("        "))
  }

  /** The checksum of the block with blanks in its place. */
  function Summed(h: bytes): (r: bytes)
    requires |h| == BLOCK
    ensures |r| == BLOCK
  {
    Put(Put(h, 148, SumField(h)), 155, [32])
  }

  function SumField(h: bytes): (s: bytes)
    ensures |s| == 7
  {
    OctField(Sum(h), 6)
  }

  function Header(name: bytes, prefix: bytes, kind: byte, mode: nat, size: nat, link: bytes, mtime: nat): (h: bytes)
    requires |name| <= 100 && |prefix| <= 155
    ensures |h| == BLOCK
  {
    Summed(Signed(Typed(Numbered(Named(name, prefix), mode, size, mtime), kind, link)))
  }

  // ----- what each write leaves alone and sets -----

  lemma NamedFields(name: bytes, prefix: bytes)
    requires |name| <= 100 && |prefix| <= 155
    ensures var h := Named(name, prefix);
      && h[0..100] == name + Zeros(100 - |name|) && h[345..500] == prefix + Zeros(155 - |prefix|)
      && h[157..257] == Zeros(100)
  {
    hide Put;
    var z := Zeros(BLOCK);
    var a := Put(z, 345, prefix);
    assert z[345..345 + 155] == Zeros(155) && z[0..100] == Zeros(100) && z[157..257] == Zeros(100);
    PutPadded(z, 345, prefix, 155);
    PutApart(z, 345, prefix, 0, 100);
    PutApart(z, 345, prefix, 157, 257);
    PutPadded(a, 0, name, 100);
    PutApart(a, 0, name, 345, 500);
    PutApart(a, 0, name, 157, 257);
  }

  /** The numbers stand in bytes 100 to 148 and disturb nothing else. */
  lemma NumberedApart(h: bytes, mode: nat, size: nat, mtime: nat, a: nat, b: nat)
    requires |h| == BLOCK && a <= b <= BLOCK && (b <= 100 || 148 <= a)
    ensures Numbered(h, mode, size, mtime)[a..b] == h[a..b]
  {
    hide Put, OctField;
    var h1 := Put(h, 100, OctField(mode % 4096, 7));
    PutApart(h, 100, OctField(mode % 4096, 7), a, b);
    var h2 := Put(h1, 108, OctField(0, 7));
    PutApart(h1, 108, OctField(0, 7), a, b);
    var h3 := Put(h2, 116, OctField(0, 7));
    PutApart(h2, 116, OctField(0, 7), a, b);
    var h4 := Put(h3, 124, OctField(size, 11));
    PutApart(h3, 124, OctField(size, 11), a, b);
    PutApart(h4, 136, OctField(mtime, 11), a, b);
  }

  lemma NumberedFields(h: bytes, mode: nat, size: nat, mtime: nat)
    requires |h| == BLOCK
    ensures var r := Numbered(h, mode, size, mtime);
      r[100..108] == OctField(mode % 4096, 7) && r[124..136] == OctField(size, 11)
  {
    hide Put, OctField;
    var h1 := Put(h, 100, OctField(mode % 4096, 7));
    PutHere(h, 100, OctField(mode % 4096, 7));
    var h2 := Put(h1, 108, OctField(0, 7));
    PutApart(h1, 108, OctField(0, 7), 100, 108);
    var h3 := Put(h2, 116, OctField(0, 7));
    PutApart(h2, 116, OctField(0, 7), 100, 108);
    var h4 := Put(h3, 124, OctField(size, 11));
    PutApart(h3, 124, OctField(size, 11), 100, 108);
    PutHere(h3, 124, OctField(size, 11));
    PutApart(h4, 136, OctField(mtime, 11), 100, 108);
    PutApart(h4, 136, OctField(mtime, 11), 124, 136);
  }

  lemma TypedApart(h: bytes, kind: byte, link: bytes, a: nat, b: nat)
    requires |h| == BLOCK && a <= b <= BLOCK && (b <= 156 || 257 <= a)
    ensures Typed(h, kind, link)[a..b] == h[a..b]
  {
    hide Put;
    PutApart(h, 156, [kind], a, b);
    if link != [] {
      PutApart(Put(h, 156, [kind]), 157, (if |link| < 100 then link else link[..99]) + [0], a, b);
    }
  }

  lemma TypedFields(h: bytes, kind: byte, link: bytes)
    requires |h| == BLOCK && |link| < 100 && h[157..257] == Zeros(100)
    ensures var r := Typed(h, kind, link);
      r[156..157] == [kind] && r[157..257] == link + Zeros(100 - |link|)
  {
    hide Put;
    var a := Put(h, 156, [kind]);
    PutHere(h, 156, [kind]);
    PutApart(h, 156, [kind], 157, 257);
    if link == [] {
      assert link + Zeros(100) == Zeros(100);
    } else {
      PutApart(a, 157, link + [0], 156, 157);
      PutPadded(a, 157, link + [0], 100);
      assert link + [0] + Zeros(99 - |link|) == link + Zeros(100 - |link|);
    }
  }

  /** Of a longer link 99 bytes are kept. */
  lemma TypedLong(h: bytes, kind: byte, link: bytes)
    requires |h| == BLOCK && |link| >= 100
    ensures Typed(h, kind, link)[157..257] == link[..99] + [0]
  {
    hide Put;
    PutHere(Put(h, 156, [kind]), 157, link[..99] + [0]);
  }

  lemma HeaderLongLink(name: bytes, prefix: bytes, kind: byte, mode: nat, size: nat, link: bytes, mtime: nat)
    requires |name| <= 100 && |prefix| <= 155 && |link| >= 100
    ensures Header(name, prefix, kind, mode, size, link, mtime)[157..257] == link[..99] + [0]
  {
    hide Named, Numbered, Typed, Signed, Summed;
    var b := Numbered(Named(name, prefix), mode, size, mtime);
    TypedLong(b, kind, link);
    TailKeeps(Typed(b, kind, link), 157, 257);
  }

  lemma SignedApart(h: bytes, a: nat, b: nat)
    requires |h| == BLOCK && a <= b <= BLOCK && (b <= 148 || (156 <= a && b <= 257) || 301 <= a)
    ensures Signed(h)[a..b] == h[a..b]
  {
    hide Put;
    var h1 := Put(h, 257, Magic());
    PutApart(h, 257, Magic(), a, b);
    var h2 := Put(h1, 263, Ascii("00"));
    PutApart(h1, 263, Ascii("00"), a, b);
    var h3 := Put(h2, 265, Ascii("root"));
    PutApart(h2, 265, Ascii("root"), a, b);
    var h4 := Put(h3, 297, Ascii("root"));
    PutApart(h3, 297, Ascii("root"), a, b);
    PutApart(h4, 148, Ascii("        "), a, b);
  }

  lemma SignedMagic(h: bytes)
    requires |h| == BLOCK
    ensures Signed(h)[257..263] == Magic() && Signed(h)[148..156] == Ascii("        ")
  {
    hide Put, Magic;
    var h1 := Put(h, 257, Magic());
    PutHere(h, 257, Magic());
    var h2 := Put(h1, 263, Ascii("00"));
    PutApart(h1, 263, Ascii("00"), 257, 263);
    var h3 := Put(h2, 265, Ascii("root"));
    PutApart(h2, 265, Ascii("root"), 257, 263);
    var h4 := Put(h3, 297, Ascii("root"));
    PutApart(h3, 297, Ascii("root"), 257, 263);
    PutApart(h4, 148, Ascii("        "), 257, 263);
    PutHere(h4, 148, Ascii("        "));
  }

  lemma SummedApart(h: bytes, a: nat, b: nat)
    requires |h| == BLOCK && a <= b <= BLOCK && (b <= 148 || 156 <= a)
    ensures Summed(h)[a..b] == h[a..b]
  {
    hide Put, SumField;
    PutApart(h, 148, SumField(h), a, b);
    PutApart(Put(h, 148, SumField(h)), 155, [32], a, b);
  }

  /** The fields a reader looks at. */
  ghost predicate Fields(h: bytes, name: bytes, prefix: bytes, kind: byte, mode: nat, size: nat, link: bytes)
    requires |name| <= 100 && |prefix| <= 155 && |link| < 100
  {
    && |h| == BLOCK
    && h[0..100] == name + Zeros(100 - |name|) && h[345..500] == prefix + Zeros(155 - |prefix|)
    && h[100..108] == OctField(mode % 4096, 7) && h[124..136] == OctField(size, 11)
    && h[156..157] == [kind] && h[157..257] == link + Zeros(100 - |link|)
    && h[257..263] == Magic()
  }

  lemma HeaderFields(name: bytes, prefix: bytes, kind: byte, mode: nat, size: nat, link: bytes, mtime: nat)
    requires |name| <= 100 && |prefix| <= 155 && |link| < 100
    ensures Fields(Header(name, prefix, kind, mode, size, link, mtime), name, prefix, kind, mode, size, link)
  {
    hide Named, Numbered, Typed, Signed, Summed, OctField, Magic;
    var a := Named(name, prefix);
    NamedFields(name, prefix);
    var b := Numbered(a, mode, size, mtime);
    NumberedFields(a, mode, size, mtime);
    NumberedApart(a, mode, size, mtime, 0, 100);
    NumberedApart(a, mode, size, mtime, 345, 500);
    NumberedApart(a, mode, size, mtime, 157, 257);
    var c := Typed(b, kind, link);
    TypedFields(b, kind, link);
    HeadersKeep(b, kind, link, 0, 100);
    HeadersKeep(b, kind, link, 100, 108);
    HeadersKeep(b, kind, link, 124, 136);
    HeadersKeep(b, kind, link, 345, 500);
    SignedMagic(c);
    TailKeeps(c, 156, 157);
    TailKeeps(c, 157, 257);
    SummedApart(Signed(c), 257, 263);
  }

  /** The fields for other programs: no user and group, the time, the version, and root as owner. */
  ghost predicate Stamped(h: bytes, mtime: nat) {
    && |h| == BLOCK
    && h[108..116] == OctField(0, 7) && h[116..124] == OctField(0, 7) && h[136..148] == OctField(mtime, 11)
    && h[263..265] == Ascii("00") && h[265..269] == Ascii("root") && h[297..301] == Ascii("root")
  }

  lemma NumberedStamp(h: bytes, mode: nat, size: nat, mtime: nat)
    requires |h| == BLOCK
    ensures var r := Numbered(h, mode, size, mtime);
      r[108..116] == OctField(0, 7) && r[116..124] == OctField(0, 7) && r[136..148] == OctField(mtime, 11)
  {
    hide Put, OctField;
    var h1 := Put(h, 100, OctField(mode % 4096, 7));
    var h2 := Put(h1, 108, OctField(0, 7));
    PutHere(h1, 108, OctField(0, 7));
    var h3 := Put(h2, 116, OctField(0, 7));
    PutApart(h2, 116, OctField(0, 7), 108, 116);
    PutHere(h2, 116, OctField(0, 7));
    var h4 := Put(h3, 124, OctField(size, 11));
    PutApart(h3, 124, OctField(size, 11), 108, 116);
    PutApart(h3, 124, OctField(size, 11), 116, 124);
    PutApart(h4, 136, OctField(mtime, 11), 108, 116);
    PutApart(h4, 136, OctField(mtime, 11), 116, 124);
    PutHere(h4, 136, OctField(mtime, 11));
  }

  lemma SignedOwner(h: bytes)
    requires |h| == BLOCK
    ensures var r := Signed(h);
      r[263..265] == Ascii("00") && r[265..269] == Ascii("root") && r[297..301] == Ascii("root")
  {
    hide Put, Magic;
    var h1 := Put(h, 257, Magic());
    var h2 := Put(h1, 263, Ascii("00"));
    PutHere(h1, 263, Ascii("00"));
    var h3 := Put(h2, 265, Ascii("root"));
    PutApart(h2, 265, Ascii("root"), 263, 265);
    PutHere(h2, 265, Ascii("root"));
    var h4 := Put(h3, 297, Ascii("root"));
    PutApart(h3, 297, Ascii("root"), 263, 265);
    PutApart(h3, 297, Ascii("root"), 265, 269);
    PutHere(h3, 297, Ascii("root"));
    PutApart(h4, 148, Ascii("        "), 263, 265);
    PutApart(h4, 148, Ascii("        "), 265, 269);
    PutApart(h4, 148, Ascii("        "), 297, 301);
  }

  lemma HeaderStamp(name: bytes, prefix: bytes, kind: byte, mode: nat, size: nat, link: bytes, mtime: nat)
    requires |name| <= 100 && |prefix| <= 155
    ensures Stamped(Header(name, prefix, kind, mode, size, link, mtime), mtime)
  {
    hide Named, Numbered, Typed, Signed, Summed, OctField;
    var a := Named(name, prefix);
    var b := Numbered(a, mode, size, mtime);
    NumberedStamp(a, mode, size, mtime);
    HeadersKeep(b, kind, link, 108, 116);
    HeadersKeep(b, kind, link, 116, 124);
    HeadersKeep(b, kind, link, 136, 148);
    var c := Typed(b, kind, link);
    SignedOwner(c);
    SummedApart(Signed(c), 263, 265);
    SummedApart(Signed(c), 265, 269);
    SummedApart(Signed(c), 297, 301);
  }

  lemma TailKeeps(c: bytes, a: nat, b: nat)
    requires |c| == BLOCK && a <= b <= BLOCK && (b <= 148 || (156 <= a && b <= 257) || 301 <= a)
    ensures Summed(Signed(c))[a..b] == c[a..b]
  {
    hide Signed, Summed;
    SignedApart(c, a, b);
    SummedApart(Signed(c), a, b);
  }

  lemma HeadersKeep(b: bytes, kind: byte, link: bytes, i: nat, j: nat)
    requires |b| == BLOCK && i <= j <= BLOCK && (j <= 148 || 301 <= i)
    ensures Summed(Signed(Typed(b, kind, link)))[i..j] == b[i..j]
  {
    hide Typed, Signed, Summed;
    TypedApart(b, kind, link, i, j);
    TailKeeps(Typed(b, kind, link), i, j);
  }

  // ----- the checksum -----

  lemma {:induction false} SumAppend(s: bytes, t: bytes)
    ensures Sum(s + t) == Sum(s) + Sum(t)
    decreases s
  {
    if s == [] {
      assert s + t == t;
    } else {
      assert (s + t)[1..] == s[1..] + t;
      SumAppend(s[1..], t);
    }
  }

  lemma {:induction false} SumBound(s: bytes)
    ensures Sum(s) <= 255 * |s|
    decreases s
  {
    if s != [] {
      SumBound(s[1..]);
    }
  }

  /** The number in the checksum field is the sum of the header's bytes with blanks in that field. */
  lemma Checksum(name: bytes, prefix: bytes, kind: byte, mode: nat, size: nat, link: bytes, mtime: nat)
    requires |name| <= 100 && |prefix| <= 155
    ensures var h := Header(name, prefix, kind, mode, size, link, mtime);
      Oct(h[148..156], 0) == Sum(h[..148] + Ascii("        ") + h[156..])
  {
    hide Typed, Numbered, Named, Put, Signed;
    var g := Signed(Typed(Numbered(Named(name, prefix), mode, size, mtime), kind, link));
    var h := Summed(g);
    SumFieldReads(g);
    SummedApart(g, 0, 148);
    SummedApart(g, 156, BLOCK);
    SignedMagic(Typed(Numbered(Named(name, prefix), mode, size, mtime), kind, link));
    assert g == g[0..148] + g[148..156] + g[156..BLOCK];
    assert h[..148] == h[0..148] && h[156..] == h[156..BLOCK];
  }

  /** The checksum field: six digits, a zero and a blank. */
  lemma SumFieldBytes(g: bytes)
    requires |g| == BLOCK
    ensures Summed(g)[148..156] == SumField(g) + [32]
  {
    hide Put, SumField;
    var field := SumField(g);
    var a := Put(g, 148, field);
    PutHere(g, 148, field);
    PutApart(a, 155, [32], 148, 155);
    PutHere(a, 155, [32]);
    var h := Summed(g);
    assert h[148..156] == h[148..155] + h[155..156];
  }

  lemma SumFieldReads(g: bytes)
    requires |g| == BLOCK
    ensures Oct(Summed(g)[148..156], 0) == Sum(g)
  {
    hide Summed, OctField, Sum, Oct, Pow8;
    SumFieldBytes(g);
    SumBound(g);
    SixDigits();
    OctRoundTrip(Sum(g), 6);
    OctPastZero(OctField(Sum(g), 6), [32], 0);
  }

  lemma SixDigits()
    ensures Pow8(6) == 262144
  {
  }

  /** Bytes behind the zero of a field do not count. */
  lemma {:induction false} OctPastZero(s: bytes, t: bytes, v: nat)
    requires s != [] && s[|s| - 1] == 0
    ensures Oct(s + t, v) == Oct(s, v)
    decreases s
  {
    if s[0] != 0 {
      assert (s + t)[1..] == s[1..] + t;
      OctPastZero(s[1..], t, if 48 <= s[0] <= 55 then 8 * v + (s[0] - 48) else v);
    }
  }
}
