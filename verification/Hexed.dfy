/** hexed's state and commands (usr/bin/hexed.c): the edit array with its
    count, saving, and the search that reads the file in chunks. */
module Hexed {
  import opened HexedOverlay

  const CHUNK := 65536

  /** `pat` is shown at offset `o`. */
  ghost predicate MatchAt(view: seq<Byte>, pat: seq<Byte>, o: int) {
    0 <= o <= |view| - |pat| && forall k :: 0 <= k < |pat| ==> view[o + k] == pat[k]
  }

  /** `hit` is the first place at or after `start` where `pat` is shown; -1 when there is none. */
  ghost predicate FirstMatch(view: seq<Byte>, pat: seq<Byte>, start: int, hit: int) {
    && (hit >= 0 ==> start <= hit && MatchAt(view, pat, hit))
    && (hit < 0 ==> hit == -1)
    && forall o :: start <= o && (hit < 0 || o < hit) ==> !MatchAt(view, pat, o)
  }

  class Hexed {
    var file: seq<Byte>
    const rw: bool
    const edit: array<Edit>
    var n: nat
    var dirty: bool
    var cur: int

    ghost function Edits(): (e: seq<Edit>)
      requires n <= edit.Length
      reads this, edit
    {
      edit[..n]
    }

    ghost predicate Valid()
      reads this, edit
    {
      && n <= edit.Length == MAX_EDITS
      && Exact(file, Edits())
      && dirty == (n > 0)
    }

    ghost function Shown(): (view: seq<Byte>)
      requires n <= edit.Length
      reads this, edit
    {
      View(file, Edits())
    }

    /** Opening a file; an empty one is refused. */
    constructor (file: seq<Byte>, rw: bool)
      requires file != []
      ensures Valid() && this.file == file && this.rw == rw && cur == 0 && fresh(edit)
      ensures Shown() == file && !dirty
    {
      this.file, this.rw := file, rw;
      this.edit := new Edit[MAX_EDITS](_ => Edit(0, 0, 0));
      n, dirty, cur := 0, false, 0;
      new;
      DirtyMeans(file, []);
      assert Edits() == [];
    }

    method FindEdit(off: int) returns (e: int)
      requires n <= edit.Length
      ensures e == Find(Edits(), off)
    {
      hide Find;
      for i := 0 to n
        invariant forall j :: 0 <= j < i ==> edit[j].off != off
      {
        if edit[i].off == off { return i; }
      }
      return -1;
    }

    /** The byte at `off` of the edited file, and whether an edit covers it; none outside the file. */
    method ByteShown(off: int) returns (ok: bool, b: Byte, edited: bool)
      requires Valid()
      ensures ok == (0 <= off < |file|)
      ensures ok ==> b == Shown()[off] && edited == (b != file[off])
    {
      hide Find;
      b := 0;
      var e := FindEdit(off);
      if e >= 0 { return true, edit[e].val, true; }
      ok, edited := 0 <= off < |file|, false;
      if ok { b := file[off]; }
    }

    method PutEdit(off: int, val: Byte) returns (full: bool)
      requires Valid() && 0 <= off < |file|
      modifies this`n, this`dirty, edit
      ensures Valid()
      ensures Edits() == Put(file, old(Edits()), off, val)
      ensures full == Full(old(Edits()), off)
      ensures Shown() == if full then old(Shown()) else old(Shown())[off := val]
      ensures dirty == (Shown() != file)
    {
      hide Find;
      ghost var was := Edits();
      PutExact(file, was, off, val);
      PutShows(file, was, off, val);
      DirtyMeans(file, Put(file, was, off, val));
      full := false;
      var e := FindEdit(off);
      if e >= 0 {
        edit[e] := edit[e].(val := val);
        if edit[e].val == edit[e].orig {
          n := n - 1;
          edit[e] := edit[n];
        }
      } else {
        if n >= MAX_EDITS { return true; }
        var orig := file[off];
        if orig == val { return; }
        edit[n] := Edit(off, val, orig);
        n := n + 1;
      }
      dirty := n > 0;
      assert Edits() == Put(file, was, off, val);
    }

    /** Drops the last edit of the list and moves the cursor to its byte. */
    method UndoLast() returns (nothing: bool)
      requires Valid()
      modifies this`n, this`dirty, this`cur
      ensures Valid()
      ensures nothing == (old(Edits()) == [])
      ensures nothing ==> unchanged(this)
      ensures !nothing ==> 0 <= cur < |file| && old(Shown())[cur] != file[cur]
      ensures !nothing ==> Shown() == old(Shown())[cur := file[cur]]
      ensures dirty == (Shown() != file)
    {
      DirtyMeans(file, Edits());
      if n == 0 { return true; }
      UndoShows(file, Edits());
      EditShows(file, Edits(), n - 1);
      n := n - 1;
      cur := edit[n].off;
      dirty := n > 0;
      assert Edits() == old(Edits())[..n];
      DirtyMeans(file, Edits());
      return false;
    }

    /** Writes the edits in place; `good` is how many writes succeed before one fails. */
    method SaveFile(good: nat) returns (rc: int)
      requires Valid()
      modifies this`file, this`n, this`dirty
      ensures n <= edit.Length && Shown() == old(Shown())
      ensures rc == 0 <==> rw && good >= old(n)
      ensures rc == 0 ==> Valid() && file == old(Shown()) && !dirty
      ensures rc != 0 ==> rc == -1 && n == old(n) && dirty == old(dirty)
      ensures rc != 0 ==> file == if rw then View(old(file), old(Edits())[..good]) else old(file)
    {
      hide Find, Exact, Distinct, View;
      if !rw { return -1; }
      DirtyMeans(file, Edits());
      if n == 0 { return 0; }
      ghost var edits := Edits();
      SaveStart(file, edits);
      for i := 0 to n
        invariant file == View(old(file), edits[..i])
        invariant View(file, edits) == View(old(file), edits)
        invariant n == old(n) && dirty == old(dirty) && i <= good
      {
        if i >= good { return -1; }
        SaveStep(old(file), edits, i, file);
        file := file[edit[i].off := edit[i].val];
      }
      assert edits[..n] == edits;
      n, dirty := 0, false;
      assert Edits() == [];
      SaveStart(file, []);
      return 0;
    }

    /** The comparison at place `i` of a chunk read from `off`. */
    method SameAt(buf: seq<Byte>, off: int, i: nat, pat: seq<Byte>) returns (same: bool)
      requires Valid() && 0 <= off <= off + |buf| <= |file| && i + |pat| <= |buf|
      requires buf == file[off..off + |buf|]
      ensures same == MatchAt(Shown(), pat, off + i)
    {
      hide Find, Exact, Distinct;
      for k := 0 to |pat|
        invariant forall j :: 0 <= j < k ==> Shown()[off + i + j] == pat[j]
      {
        var b := buf[i + k];
        var e := FindEdit(off + i + k);
        if e >= 0 { b := edit[e].val; }
        assert b == Shown()[off + i + k];
        if b != pat[k] { return false; }
      }
      return true;
    }

    /** The chunked search; seeking to a negative offset fails and ends it. */
    method SearchFrom(start: int, pat: seq<Byte>) returns (hit: int)
      requires Valid()
      ensures pat == [] || start < 0 ==> hit == -1
      ensures pat != [] && start >= 0 ==> FirstMatch(Shown(), pat, start, hit)
    {
      hide Find, Exact, Distinct, View;
      if |pat| == 0 || start < 0 { return -1; }
      var off := start;
      while off < |file|
        invariant start <= off
        invariant forall o :: start <= o < off ==> !MatchAt(Shown(), pat, o)
      {
        var want := CHUNK + |pat| - 1;
        if off + want > |file| { want := |file| - off; }
        var buf := file[off..off + want];
        if want < |pat| { break; }
        var i := 0;
        while i + |pat| <= want
          invariant 0 <= i <= want - |pat| + 1
          invariant forall o :: start <= o < off + i ==> !MatchAt(Shown(), pat, o)
        {
          var same := SameAt(buf, off, i, pat);
          if same { return off + i; }
          i := i + 1;
        }
        off := off + want - |pat| + 1;
      }
      return -1;
    }

    /** Search forward from after the cursor, then once more from the start of the file.
        Drawing the screen keeps the cursor inside the file. */
    method DoSearch(pat: seq<Byte>) returns (found: bool)
      requires Valid() && 0 <= cur
      modifies this`cur
      ensures found <==> pat != [] && exists o :: MatchAt(Shown(), pat, o)
      ensures !found ==> cur == old(cur)
      ensures found ==>
        || FirstMatch(Shown(), pat, old(cur) + 1, cur)
        || (FirstMatch(Shown(), pat, old(cur) + 1, -1) && FirstMatch(Shown(), pat, 0, cur))
    {
      hide Find, Exact, Distinct, View;
      if |pat| == 0 { return false; }
      var hit := SearchFrom(cur + 1, pat);
      if hit < 0 { hit := SearchFrom(0, pat); }
      if hit < 0 { return false; }
      cur := hit;
      assert MatchAt(Shown(), pat, cur);
      return true;
    }
  }

  lemma SaveStart(file: seq<Byte>, edits: seq<Edit>)
    ensures View(file, edits[..0]) == file
    ensures Exact(file, [])
  {
    assert View(file, edits[..0]) == file;
  }

  /** One write of a save, `done` being the file so far. */
  lemma SaveStep(file: seq<Byte>, edits: seq<Edit>, i: nat, done: seq<Byte>)
    requires Exact(file, edits) && i < |edits|
    requires done == View(file, edits[..i])
    ensures 0 <= edits[i].off < |done|
    ensures done[edits[i].off := edits[i].val] == View(file, edits[..i + 1])
    ensures View(done[edits[i].off := edits[i].val], edits) == View(done, edits)
  {
    hide Find;
    WriteShows(file, edits, i);
    WriteShows(done, edits, i);
  }
}
