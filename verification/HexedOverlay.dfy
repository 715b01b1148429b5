/** hexed's pending edits (usr/bin/hexed.c) as values: a list of changed bytes
    laid over the file, and what each command does to both. */
module HexedOverlay {

  const MAX_EDITS := 8192

  type Byte = b: int | 0 <= b < 256

  datatype Edit = Edit(off: int, val: Byte, orig: Byte)

  /** The index of the first edit at `off`, or -1. */
  function Find(edits: seq<Edit>, off: int): (e: int)
    ensures -1 <= e < |edits|
    ensures e >= 0 ==> edits[e].off == off
    ensures forall i :: 0 <= i < (if e < 0 then |edits| else e) ==> edits[i].off != off
  {
    if edits == [] then -1
    else
      var n := |edits| - 1;
      var e := Find(edits[..n], off);
      if e >= 0 then e else if edits[n].off == off then n else -1
  }

  /** The byte shown at `off`. */
  function ByteAt(file: seq<Byte>, edits: seq<Edit>, off: int): (b: Byte)
    requires 0 <= off < |file|
  {
    var e := Find(edits, off);
    if e >= 0 then edits[e].val else file[off]
  }

  /** The file as shown: every byte with the edits over it. */
  function View(file: seq<Byte>, edits: seq<Edit>): (view: seq<Byte>)
    ensures |view| == |file|
    ensures forall o :: 0 <= o < |file| ==> view[o] == ByteAt(file, edits, o)
  {
    seq(|file|, o requires 0 <= o < |file| => ByteAt(file, edits, o))
  }

  /** One edit per byte, all inside the file. */
  ghost predicate Distinct(file: seq<Byte>, edits: seq<Edit>) {
    && (forall i :: 0 <= i < |edits| ==> 0 <= edits[i].off < |file|)
    && (forall i, j :: 0 <= i < j < |edits| ==> edits[i].off != edits[j].off)
  }

  /** Each edit changes its byte, and remembers what the file has there. */
  ghost predicate Exact(file: seq<Byte>, edits: seq<Edit>) {
    && Distinct(file, edits)
    && forall i :: 0 <= i < |edits| ==> edits[i].orig == file[edits[i].off] != edits[i].val
  }

  lemma EditShows(file: seq<Byte>, edits: seq<Edit>, i: nat)
    requires Distinct(file, edits) && i < |edits|
    ensures Find(edits, edits[i].off) == i
    ensures View(file, edits)[edits[i].off] == edits[i].val
  {
    hide Find;
  }

  /** `put_edit`: the list after a byte is typed at `off`. */
  function Put(file: seq<Byte>, edits: seq<Edit>, off: int, val: Byte): (r: seq<Edit>)
    requires 0 <= off < |file|
  {
    var e := Find(edits, off);
    var n := |edits| - 1;
    if e >= 0 then
      if val == edits[e].orig then edits[e := edits[n]][..n] else edits[e := edits[e].(val := val)]
    else if |edits| >= MAX_EDITS || file[off] == val then edits
    else edits + [Edit(off, val, file[off])]
  }

  /** The message "edit buffer full": the byte has no edit yet, and there is no room for one. */
  predicate Full(edits: seq<Edit>, off: int) {
    Find(edits, off) < 0 && |edits| >= 8192
  }

  lemma PutExact(file: seq<Byte>, edits: seq<Edit>, off: int, val: Byte)
    requires Exact(file, edits) && |edits| <= 8192 && 0 <= off < |file|
    ensures Exact(file, Put(file, edits, off, val)) && |Put(file, edits, off, val)| <= 8192
  {
    hide Find;
  }

  /** Typing a byte changes the view there and nowhere else, unless the list is full. */
  lemma PutShows(file: seq<Byte>, edits: seq<Edit>, off: int, val: Byte)
    requires Exact(file, edits) && |edits| <= 8192 && 0 <= off < |file|
    ensures View(file, Put(file, edits, off, val)) ==
      if Full(edits, off) then View(file, edits) else View(file, edits)[off := val]
  {
    PutExact(file, edits, off, val);
    var after := Put(file, edits, off, val);
    forall o | 0 <= o < |file|
      ensures ByteAt(file, after, o) == if o == off && !Full(edits, off) then val else ByteAt(file, edits, o)
    {
      PutShowsAt(file, edits, off, val, o);
    }
  }

  lemma PutShowsAt(file: seq<Byte>, edits: seq<Edit>, off: int, val: Byte, o: int)
    requires Exact(file, edits) && |edits| <= 8192 && 0 <= off < |file| && 0 <= o < |file|
    requires Exact(file, Put(file, edits, off, val))
    ensures ByteAt(file, Put(file, edits, off, val), o) ==
      if o == off && !Full(edits, off) then val else ByteAt(file, edits, o)
  {
    hide Find;
    var after, e, n := Put(file, edits, off, val), Find(edits, off), |edits| - 1;
    var f := Find(edits, o);
    if f >= 0 && o != off {
      var g := if f == n && |after| == n then e else f;
      assert after[g] == edits[f];
      EditShows(file, after, g);
    } else if e >= 0 && o == off && |after| == |edits| {
      EditShows(file, after, e);
    } else if o == off && |after| > |edits| {
      EditShows(file, after, |edits|);
    }
  }

  /** The edits are there exactly when the view differs from the file. */
  lemma DirtyMeans(file: seq<Byte>, edits: seq<Edit>)
    requires Exact(file, edits)
    ensures edits == [] <==> View(file, edits) == file
  {
    if edits != [] {
      EditShows(file, edits, 0);
    } else {
      assert View(file, edits) == file;
    }
  }

  /** Dropping the last edit gives one byte its file value back. */
  lemma UndoShows(file: seq<Byte>, edits: seq<Edit>)
    requires Exact(file, edits) && edits != []
    ensures var n := |edits| - 1; var o := edits[n].off;
      && Exact(file, edits[..n])
      && View(file, edits[..n]) == View(file, edits)[o := file[o]] != View(file, edits)
  {
    hide Find;
    var n := |edits| - 1;
    var last := edits[n];
    EditShows(file, edits, n);
    forall o | 0 <= o < |file|
      ensures ByteAt(file, edits[..n], o) == if o == last.off then file[o] else ByteAt(file, edits, o)
    {
    }
  }

  /** One byte written: the view stays, and the file moves towards it. */
  lemma WriteShows(file: seq<Byte>, edits: seq<Edit>, i: nat)
    requires Distinct(file, edits) && i < |edits|
    ensures View(file[edits[i].off := edits[i].val], edits) == View(file, edits)
    ensures View(file, edits[..i + 1]) == View(file, edits[..i])[edits[i].off := edits[i].val]
  {
    var o := edits[i].off;
    EditShows(file, edits, i);
    assert Find(edits, o) == i;
    forall p | 0 <= p < |file|
      ensures ByteAt(file, edits[..i + 1], p) == if p == o then edits[i].val else ByteAt(file, edits[..i], p)
    {
      assert edits[..i + 1][..i] == edits[..i];
    }
  }

  /** A save that stops after `k` writes leaves edits whose remembered byte is out of date. */
  lemma StoppedSave(file: seq<Byte>, edits: seq<Edit>, k: nat)
    requires Exact(file, edits) && k <= |edits|
    ensures Exact(View(file, edits[..k]), edits) <==> k == 0
  {
    if k == 0 {
      assert View(file, edits[..0]) == file;
    } else {
      EditShows(file, edits[..k], 0);
      assert View(file, edits[..k])[edits[0].off] == edits[0].val;
    }
  }

  datatype Command = Type(off: int, val: Byte) | Undo | Save

  datatype Pending = Pending(file: seq<Byte>, edits: seq<Edit>)

  function Do(s: Pending, c: Command): (r: Pending) {
    match c
    case Type(off, val) => if 0 <= off < |s.file| then s.(edits := Put(s.file, s.edits, off, val)) else s
    case Undo => if s.edits == [] then s else s.(edits := s.edits[..|s.edits| - 1])
    case Save => Pending(View(s.file, s.edits), [])
  }

  function DoAll(s: Pending, commands: seq<Command>): (r: Pending) {
    if commands == [] then s else Do(DoAll(s, commands[..|commands| - 1]), commands[|commands| - 1])
  }

  /** After any run of commands on a freshly opened file the edits are exact, fit
      the list, and are none just when what is shown is what is on disk; without a
      save the disk is as it was. */
  lemma {:induction false} EveryRun(file: seq<Byte>, commands: seq<Command>)
    ensures var r := DoAll(Pending(file, []), commands);
      && Exact(r.file, r.edits) && |r.edits| <= 8192
      && (r.edits == [] <==> View(r.file, r.edits) == r.file)
      && |r.file| == |file|
      && (Save !in commands ==> r.file == file)
  {
    hide Find;
    var r := DoAll(Pending(file, []), commands);
    if commands != [] {
      var n := |commands| - 1;
      EveryRun(file, commands[..n]);
      var s := DoAll(Pending(file, []), commands[..n]);
      match commands[n]
      case Type(off, val) => if 0 <= off < |s.file| { PutExact(s.file, s.edits, off, val); }
      case Undo => if s.edits != [] { UndoShows(s.file, s.edits); }
      case Save =>
    }
    DirtyMeans(r.file, r.edits);
  }
}
