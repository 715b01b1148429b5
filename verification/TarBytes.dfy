/** Bytes, C strings and octal fields of herd's tar code (usr/bin/herd.c). */
module TarBytes {
  import opened Numbers

  type byte = b: int | 0 <= b < 256

  type bytes = seq<byte>

  /** The bytes of a text literal. */
  function Ascii(s: string): (bs: bytes)
    requires forall i :: 0 <= i < |s| ==> s[i] as int < 128
    ensures |bs| == |s| && forall i :: 0 <= i < |s| ==> bs[i] == s[i] as int
  {
    seq(|s|, i requires 0 <= i < |s| => s[i] as int)
  }

  function Zeros(n: nat): (z: bytes)
    ensures |z| == n && forall i :: 0 <= i < n ==> z[i] == 0
  {
    seq(n, _ => 0)
  }

  /** `memcpy` into a buffer. */
  function Put(h: bytes, at: nat, bs: bytes): (r: bytes)
    requires at + |bs| <= |h|
    ensures |r| == |h|
  {
    h[..at] + bs + h[at + |bs|..]
  }

  lemma PutHere(h: bytes, at: nat, bs: bytes)
    requires at + |bs| <= |h|
    ensures Put(h, at, bs)[at..at + |bs|] == bs
  {
  }

  /** A field apart from the written one keeps its bytes. */
  lemma PutApart(h: bytes, at: nat, bs: bytes, a: nat, b: nat)
    requires at + |bs| <= |h| && a <= b <= |h| && (b <= at || at + |bs| <= a)
    ensures Put(h, at, bs)[a..b] == h[a..b]
  {
    var r := Put(h, at, bs);
    forall i | a <= i < b ensures r[i] == h[i] {
    }
  }

  /** Writing at the start of a zero field pads with zeros. */
  lemma PutPadded(h: bytes, at: nat, bs: bytes, n: nat)
    requires |bs| <= n && at + n <= |h| && h[at..at + n] == Zeros(n)
    ensures Put(h, at, bs)[at..at + n] == bs + Zeros(n - |bs|)
  {
    var r := Put(h, at, bs);
    var field, padded := r[at..at + n], bs + Zeros(n - |bs|);
    forall i | 0 <= i < n ensures field[i] == padded[i] {
      assert h[at..at + n][i] == h[at + i];
    }
  }

  // ----- C strings -----

  predicate NoZero(s: bytes) { forall i :: 0 <= i < |s| ==> s[i] != 0 }

  /** The string in a buffer: its bytes up to the first zero. */
  function CStr(s: bytes): bytes {
    if s == [] || s[0] == 0 then [] else [s[0]] + CStr(s[1..])
  }

  lemma {:induction false} CStrPadded(s: bytes, n: nat)
    requires NoZero(s)
    ensures CStr(s + Zeros(n)) == s
  {
    var t := s + Zeros(n);
    if s == [] {
      assert t == Zeros(n);
    } else {
      assert t[1..] == s[1..] + Zeros(n);
      CStrPadded(s[1..], n);
    }
  }

  // ----- octal -----

  function Pow8(n: nat): (p: nat)
    ensures p > 0
  {
    if n == 0 then 1 else 8 * Pow8(n - 1)
  }

  function OctDigits(v: nat): (s: bytes)
    ensures s != []
  {
    if v < 8 then [48 + v] else OctDigits(v / 8) + [48 + v % 8]
  }

  /** printf's "%0wo". */
  function OctText(v: nat, w: nat): (s: bytes)
    ensures |s| >= w
  {
    var d := OctDigits(v);
    if |d| < w then seq(w - |d|, _ => 48) + d else d
  }

  /** A number field: as many digits as fit, then a zero byte. */
  function OctField(v: nat, w: nat): (s: bytes)
    ensures |s| == w + 1 && s[w] == 0
  {
    OctText(v, w)[..w] + [0]
  }

  /** `oct`: other bytes than octal digits are passed over, a zero byte ends the field. */
  function Oct(s: bytes, v: nat): nat {
    if s == [] || s[0] == 0 then v
    else Oct(s[1..], if 48 <= s[0] <= 55 then 8 * v + (s[0] - 48) else v)
  }

  lemma {:induction false} OctAppend(s: bytes, d: byte, t: bytes, v: nat)
    requires NoZero(s) && d != 0
    ensures Oct(s + [d] + t, v) == Oct(t, if 48 <= d <= 55 then 8 * Oct(s, v) + (d - 48) else Oct(s, v))
    decreases s
  {
    var u := s + [d] + t;
    if s == [] {
      assert u[1..] == t;
    } else {
      assert u[1..] == s[1..] + [d] + t;
      OctAppend(s[1..], d, t, if 48 <= s[0] <= 55 then 8 * v + (s[0] - 48) else v);
    }
  }

  lemma {:induction false} OctDigitsNoZero(v: nat)
    ensures NoZero(OctDigits(v))
  {
    if v >= 8 {
      OctDigitsNoZero(v / 8);
    }
  }

  /** Numbers are written in base eight: digit k from the end, */
  lemma {:induction false} OctDigitsAt(v: nat, k: nat)
    requires k < |OctDigits(v)|
    ensures OctDigits(v)[|OctDigits(v)| - 1 - k] == 48 + v / Pow8(k) % 8
  {
    if v >= 8 && k > 0 {
      var d := OctDigits(v / 8);
      assert OctDigits(v)[|OctDigits(v)| - 1 - k] == d[|d| - 1 - (k - 1)];
      hide OctDigits;
      OctDigitsAt(v / 8, k - 1);
      DivTwice(v, 8, Pow8(k - 1));
    }
  }

  /** and no zero too many in front. */
  lemma {:induction false} OctDigitsFront(v: nat)
    ensures v < Pow8(|OctDigits(v)|) && (v > 0 ==> OctDigits(v)[0] != 48)
  {
    if v >= 8 { OctDigitsFront(v / 8); }
  }

  lemma {:induction false} OctOfDigits(v: nat)
    ensures Oct(OctDigits(v), 0) == v
  {
    if v < 8 {
      assert OctDigits(v)[1..] == [];
    } else {
      OctOfDigits(v / 8);
      OctDigitsNoZero(v / 8);
      var d := 48 + v % 8;
      assert OctDigits(v / 8) + [d] + [] == OctDigits(v);
      OctAppend(OctDigits(v / 8), d, [], 0);
    }
  }

  lemma {:induction false} OctLeadingZeros(n: nat, s: bytes)
    ensures Oct(seq(n, _ => 48) + s, 0) == Oct(s, 0)
    decreases n
  {
    var t: bytes := seq(n, _ => 48) + s;
    if n == 0 {
      assert t == s;
    } else {
      assert t[1..] == seq(n - 1, _ => 48) + s;
      OctLeadingZeros(n - 1, s);
    }
  }

  lemma {:induction false} OctStops(s: bytes, v: nat)
    requires NoZero(s)
    ensures Oct(s + [0], v) == Oct(s, v)
    decreases s
  {
    if s != [] {
      assert (s + [0])[1..] == s[1..] + [0];
      OctStops(s[1..], if 48 <= s[0] <= 55 then 8 * v + (s[0] - 48) else v);
    }
  }

  lemma {:induction false} OctDigitsFit(v: nat, w: nat)
    requires w > 0 && v < Pow8(w)
    ensures |OctDigits(v)| <= w
    decreases w
  {
    if v >= 8 {
      OctDigitsFit(v / 8, w - 1);
    }
  }

  /** A number that fits its field is read back from it. */
  lemma OctRoundTrip(v: nat, w: nat)
    requires w > 0 && v < Pow8(w)
    ensures Oct(OctField(v, w), 0) == v
  {
    OctDigitsFit(v, w);
    OctDigitsNoZero(v);
    OctOfDigits(v);
    var t := OctText(v, w);
    assert t[..w] == t;
    if |OctDigits(v)| < w { OctLeadingZeros(w - |OctDigits(v)|, OctDigits(v)); }
    assert NoZero(t);
    OctStops(t, 0);
  }
}
