/** awk's current record: the record and its fields, each rebuilt from the
    other only when it is asked for (usr/bin/awk.c). */
module AwkRecord {
  import opened Options
  import opened Seqs
  import opened AwkFields

  // ----- the simple thing: both kept up to date -----

  datatype Eager = Eager(record: string, fields: seq<string>)

  datatype Op = SetRecord(text: string) | SetField(i: nat, text: string) | GetField(at: int) | AssignNF(n: nat) | ReadNF

  /** What an operation answers; the others answer nothing. */
  datatype Answer = Done | Text(text: string) | Count(n: nat)

  function Resize(fields: seq<string>, n: nat): (r: seq<string>)
    ensures |r| == n
  {
    if n <= |fields| then fields[..n] else fields + seq(n - |fields|, _ => "")
  }

  function WithFields(fields: seq<string>, ofs: string): Eager { Eager(Join(fields, ofs), fields) }

  function Apply(e: Eager, op: Op, fs: string, ofs: string): (Eager, Answer)
    requires Simple(fs)
  {
    match op
    case SetRecord(t) => (Eager(t, Split(fs, t)), Done)
    case SetField(i, t) =>
      if i == 0 then (Eager(t, Split(fs, t)), Done)
      else
        var wide := if i > |e.fields| then Resize(e.fields, i) else e.fields;
        (WithFields(wide[i - 1 := t], ofs), Done)
    case GetField(i) =>
      (e, Text(if i == 0 then e.record else if 1 <= i <= |e.fields| then e.fields[i - 1] else ""))
    case AssignNF(n) => (WithFields(Resize(e.fields, n), ofs), Done)
    case ReadNF => (e, Count(|e.fields|))
  }

  function ApplyAll(e: Eager, ops: seq<Op>, fs: string, ofs: string): seq<Answer>
    requires Simple(fs)
    decreases |ops|
  {
    if ops == [] then []
    else
      var (e', a) := Apply(e, ops[0], fs, ofs);
      [a] + ApplyAll(e', ops[1..], fs, ofs)
  }

  /** Fields that are kept stay, new ones are empty. */
  lemma ResizeMeans(fields: seq<string>, n: nat)
    ensures forall k :: 0 <= k < n ==> Resize(fields, n)[k] == if k < |fields| then fields[k] else ""
  {
  }

  /** Setting a field: that field reads as set, the others as before, new ones in between as empty; NF
      reaches it, and the record is the fields joined again. Setting $0 sets the record and splits it. */
  lemma SetFieldMeans(e: Eager, i: nat, t: string, fs: string, ofs: string)
    requires Simple(fs)
    ensures var (e', _) := Apply(e, SetField(i, t), fs, ofs);
      if i == 0 then e'.record == t && e'.fields == Split(fs, t)
      else
        && |e'.fields| == (if i > |e.fields| then i else |e.fields|) && e'.record == Join(e'.fields, ofs)
        && forall k :: 0 <= k < |e'.fields| ==>
             e'.fields[k] == if k == i - 1 then t else if k < |e.fields| then e.fields[k] else ""
  {
    hide Split, Join;
  }

  /** Setting NF: that many fields, the first ones kept, and the record joined again. */
  lemma AssignMeans(e: Eager, n: nat, fs: string, ofs: string)
    requires Simple(fs)
    ensures var (e', _) := Apply(e, AssignNF(n), fs, ofs);
      && |e'.fields| == n && e'.record == Join(e'.fields, ofs)
      && forall k :: 0 <= k < n ==> e'.fields[k] == if k < |e.fields| then e.fields[k] else ""
  {
    hide Split, Join;
  }

  // ----- the lazy thing, as a value -----

  function TextOf(f: Option<string>): string { if f.Some? then f.value else "" }

  type Slots = seq<Option<string>>

  /** Fields stand in the slots from 1 on. */
  datatype Lazy = Lazy(record: Option<string>, slots: Slots, nf: nat, fieldsValid: bool, recordValid: bool)

  /** The first n fields in the slots, empty where a slot is. */
  function FieldsOf(slots: Slots, n: nat): (f: seq<string>)
    ensures |f| == n
  {
    seq(n, i requires 0 <= i < n => if i + 1 < |slots| then TextOf(slots[i + 1]) else "")
  }

  /** Slots above n are empty. */
  predicate EmptyAbove(slots: Slots, n: nat) { forall i :: n < i < |slots| ==> slots[i].None? }

  /** One of the two sides is right, unless nothing was read yet. */
  predicate Fit(l: Lazy) {
    && (l.nf == 0 || l.nf < |l.slots|) && EmptyAbove(l.slots, l.nf)
    && (l.recordValid ==> l.record.Some?)
    && (l.recordValid || l.fieldsValid || (l.nf == 0 && l.record.None?))
  }

  /** What a program that uses the record sees. */
  function View(l: Lazy, fs: string, ofs: string): Eager
    requires Simple(fs)
  {
    var r := if l.recordValid then TextOf(l.record) else Join(FieldsOf(l.slots, l.nf), ofs);
    Eager(r, if l.fieldsValid then FieldsOf(l.slots, l.nf) else Split(fs, r))
  }

  lemma SameFields(a: Slots, b: Slots, n: nat)
    requires n < |a| && n < |b| && forall i :: 1 <= i <= n ==> TextOf(a[i]) == TextOf(b[i])
    ensures FieldsOf(a, n) == FieldsOf(b, n)
  {
    var f, g := FieldsOf(a, n), FieldsOf(b, n);
    forall i | 0 <= i < n ensures f[i] == g[i] {
      assert TextOf(a[i + 1]) == TextOf(b[i + 1]);
    }
  }

  lemma FieldsAre(slots: Slots, fields: seq<string>)
    requires |fields| < |slots| && forall i :: 1 <= i <= |fields| ==> slots[i] == Some(fields[i - 1])
    ensures FieldsOf(slots, |fields|) == fields
  {
    var f := FieldsOf(slots, |fields|);
    forall i | 0 <= i < |fields| ensures f[i] == fields[i] {
      assert slots[i + 1] == Some(fields[i]);
    }
  }

  lemma FieldPut(slots: Slots, n: nat, i: nat, text: string)
    requires 1 <= i <= n < |slots|
    ensures FieldsOf(slots[i := Some(text)], n) == FieldsOf(slots, n)[i - 1 := text]
  {
  }

  lemma FieldsWiden(a: Slots, b: Slots, m: nat, n: nat)
    requires m <= n < |b| && (m == 0 || m < |a|)
    requires forall i :: 1 <= i <= m ==> TextOf(b[i]) == TextOf(a[i])
    requires forall i :: m < i <= n ==> TextOf(b[i]) == ""
    ensures FieldsOf(b, n) == Resize(FieldsOf(a, m), n)
  {
    var f, g := FieldsOf(b, n), Resize(FieldsOf(a, m), n);
    forall i | 0 <= i < n ensures f[i] == g[i] {
      assert f[i] == TextOf(b[i + 1]);
    }
  }

  lemma FieldsNarrow(a: Slots, b: Slots, m: nat, n: nat)
    requires n <= m < |a| && n < |b| && forall i :: 1 <= i <= n ==> b[i] == a[i]
    ensures FieldsOf(b, n) == Resize(FieldsOf(a, m), n)
  {
    var f, g := FieldsOf(b, n), Resize(FieldsOf(a, m), n);
    forall i | 0 <= i < n ensures f[i] == g[i] {
      assert b[i + 1] == a[i + 1];
    }
  }

  // ----- the program -----

  /** Slots with room for slot n (`ensure_field_cap`). */
  method EnsureCap(slots: Slots, n: nat) returns (r: Slots)
    ensures |r| > n && |r| >= |slots| && r[..|slots|] == slots && forall i :: |slots| <= i < |r| ==> r[i].None?
  {
    r := slots;
    if n + 1 > |slots| {
      var cap := if |slots| > 0 then |slots| else 16;
      while cap < n + 1
        invariant cap > 0 && cap >= |slots|
        decreases n + 1 - cap
      {
        cap := cap * 2;
      }
      r := slots + seq(cap - |slots|, _ => None);
    }
  }

  /** The slots m + 1 to n as empty fields. */
  method Widen(slots: Slots, m: nat, n: nat) returns (r: Slots)
    requires m <= n < |slots| && EmptyAbove(slots, m)
    ensures |r| == |slots| && EmptyAbove(r, n) && FieldsOf(r, n) == Resize(FieldsOf(slots, m), n)
    ensures forall i :: m < i <= n ==> r[i] == Some("")
  {
    hide FieldsOf;
    r := slots;
    var k := m + 1;
    while k <= n
      invariant m < k <= n + 1 && |r| == |slots|
      invariant forall i :: 0 <= i < |r| ==> r[i] == if m < i < k then Some("") else slots[i]
    {
      r := r[k := Some("")];
      k := k + 1;
    }
    FieldsWiden(slots, r, m, n);
  }

  /** The slots n + 1 to m emptied. */
  method Narrow(slots: Slots, m: nat, n: nat) returns (r: Slots)
    requires n < m < |slots| && EmptyAbove(slots, m)
    ensures |r| == |slots| && EmptyAbove(r, n) && FieldsOf(r, n) == Resize(FieldsOf(slots, m), n)
  {
    hide FieldsOf;
    r := slots;
    var k := n + 1;
    while k <= m
      invariant n < k <= m + 1 && |r| == |slots|
      invariant forall i :: 0 <= i < |r| ==> r[i] == if n < i < k then None else slots[i]
    {
      r := r[k := None];
      k := k + 1;
    }
    FieldsNarrow(slots, r, m, n);
  }

  /** `clear_fields`: only the slots up to the field count are visited; the others are empty already. */
  method ClearFields(slots: Slots, nf: nat) returns (r: Slots)
    requires (nf == 0 || nf < |slots|) && EmptyAbove(slots, nf)
    ensures |r| == |slots| && forall i :: 0 <= i < |r| ==> r[i].None?
  {
    r := slots;
    if |slots| == 0 { return; }
    for i := 0 to nf + 1
      invariant |r| == |slots|
      invariant forall k :: 0 <= k < |r| ==> r[k] == if k < i then None else slots[k]
    {
      r := r[i := None];
    }
  }

  /** The fields into slots that are all empty, which grow as needed. */
  method Fill(fields: seq<string>, empty: Slots) returns (r: Slots)
    requires forall i :: 0 <= i < |empty| ==> empty[i].None?
    ensures |r| > |fields| && EmptyAbove(r, |fields|) && FieldsOf(r, |fields|) == fields
  {
    hide FieldsOf;
    r := EnsureCap(empty, 1);
    assert forall i :: 0 <= i < |empty| ==> r[i] == r[..|empty|][i];
    var nf := 0;
    while nf < |fields|
      invariant nf <= |fields| && nf < |r| && EmptyAbove(r, nf)
      invariant forall i :: 1 <= i <= nf ==> r[i] == Some(fields[i - 1])
    {
      ghost var before := r;
      r := EnsureCap(r, nf + 1);
      assert forall i :: 0 <= i < |before| ==> r[i] == r[..|before|][i];
      nf := nf + 1;
      r := r[nf := Some(fields[nf - 1])];
    }
    FieldsAre(r, fields);
  }

  class Record {
    const fs: string
    const ofs: string
    var record: Option<string>
    var slots: Slots
    var nf: nat
    var fieldsValid: bool
    var recordValid: bool

    constructor (fs: string, ofs: string)
      requires Simple(fs)
      ensures this.fs == fs && this.ofs == ofs && Valid() && Now() == Eager("", Split(fs, ""))
    {
      this.fs, this.ofs := fs, ofs;
      record, slots, nf, fieldsValid, recordValid := None, [], 0, false, false;
      new;
      assert FieldsOf([], 0) == [];
    }

    ghost function Held(): Lazy
      reads this
    {
      Lazy(record, slots, nf, fieldsValid, recordValid)
    }

    ghost predicate Valid()
      reads this
    {
      Simple(fs) && Fit(Held())
    }

    ghost function Now(): Eager
      requires Valid()
      reads this
    {
      View(Held(), fs, ofs)
    }

    /** `split_record`. */
    method SplitRecord()
      requires Valid() && !fieldsValid
      modifies this`slots, this`nf, this`fieldsValid
      ensures Valid() && fieldsValid && Now() == old(Now())
    {
      hide FieldsOf, SplitBlank, SplitChar, SplitEach;
      var text := TextOf(record);
      NoFields(slots, ofs);
      var fields;
      if fs == " " {
        fields := SplitOnBlanks(text);
      } else if fs == "" {
        fields := SplitEach(text);
      } else {
        fields := SplitOnChar(text, fs[0]);
      }
      var cleared := ClearFields(slots, nf);
      slots := Fill(fields, cleared);
      nf := |fields|;
      fieldsValid := true;
      if !recordValid { ResplitEmpty(fs, ofs); }
    }

    /** `rebuild_record`. */
    method RebuildRecord()
      requires Valid() && !recordValid
      modifies this`record, this`recordValid
      ensures Valid() && recordValid && Now() == old(Now())
    {
      hide Split;
      var r := "";
      var i := 1;
      ghost var fields := FieldsOf(slots, nf);
      JoinStart(fields, ofs);
      while i <= nf
        invariant 1 <= i <= nf + 1 && r == Join(fields[..i - 1], ofs)
      {
        hide Join;
        JoinMore(fields, i - 1, ofs);
        if i > 1 { r := r + ofs; }
        if slots[i].Some? { r := r + slots[i].value; }
        i := i + 1;
      }
      assert fields[..nf] == fields;
      record, recordValid := Some(r), true;
    }

    /** `get_field`. */
    method Get(i: int) returns (text: string)
      requires Valid()
      modifies this
      ensures Valid() && Now() == old(Now())
      ensures text == Apply(Now(), GetField(i), fs, ofs).1.text
    {
      hide Split, Join, FieldsOf, Resize;
      if i == 0 {
        if !recordValid { RebuildRecord(); }
        return TextOf(record);
      }
      if !fieldsValid { SplitRecord(); }
      if 1 <= i <= nf { FieldIn(slots, nf, i); }
      if i >= 1 && i <= nf && slots[i].Some? { return slots[i].value; }
      return "";
    }

    /** `set_record`. */
    method SetTo(text: string)
      requires Valid()
      modifies this`record, this`recordValid, this`fieldsValid
      ensures Valid() && Now() == Apply(old(Now()), SetRecord(text), fs, ofs).0
    {
      hide Split, Join, FieldsOf;
      record, recordValid, fieldsValid := Some(text), true, false;
    }

    /** `set_field`. */
    method Set(i: nat, text: string)
      requires Valid()
      modifies this
      ensures Valid() && Now() == Apply(old(Now()), SetField(i, text), fs, ofs).0
    {
      hide Split, Join, FieldsOf, Resize;
      if i == 0 {
        SetTo(text);
        return;
      }
      if !fieldsValid { SplitRecord(); }
      ghost var before := slots;
      slots := EnsureCap(slots, i);
      CapKeeps(before, slots, nf);
      if i > nf {
        slots := Widen(slots, nf, i);
        nf := i;
      }
      FieldPut(slots, nf, i, text);
      slots := slots[i := Some(text)];
      recordValid := false;
    }

    /** A plain assignment to NF. */
    method Assign(n: nat)
      requires Valid()
      modifies this
      ensures Valid() && Now() == Apply(old(Now()), AssignNF(n), fs, ofs).0
    {
      hide Split, Join, FieldsOf;
      if !fieldsValid { SplitRecord(); }
      if n < nf {
        slots := Narrow(slots, nf, n);
      } else if n > nf {
        ghost var before := slots;
        slots := EnsureCap(slots, n);
        CapKeeps(before, slots, nf);
        slots := Widen(slots, nf, n);
      } else {
        SameSize(FieldsOf(slots, nf));
      }
      nf := n;
      recordValid := false;
    }

    /** Reading NF. */
    method CountFields() returns (n: nat)
      requires Valid()
      modifies this
      ensures Valid() && Now() == old(Now()) && n == |Now().fields|
    {
      hide Split, Join, FieldsOf;
      if !fieldsValid { SplitRecord(); }
      return nf;
    }

    method Do(op: Op) returns (a: Answer)
      requires Valid()
      modifies this
      ensures Valid() && (Now(), a) == Apply(old(Now()), op, fs, ofs)
    {
      hide Split, Join, Resize, View, Fit;
      a := Done;
      match op
      case SetRecord(t) => SetTo(t);
      case SetField(i, t) => Set(i, t);
      case GetField(i) => var t := Get(i); a := Text(t);
      case AssignNF(n) => Assign(n);
      case ReadNF => var n := CountFields(); a := Count(n);
    }

    /** Any sequence of operations answers as if record and fields were kept up to date after each. */
    method Run(ops: seq<Op>) returns (answers: seq<Answer>)
      requires Valid()
      modifies this
      ensures Valid() && answers == ApplyAll(old(Now()), ops, fs, ofs)
    {
      hide Apply, View, Fit;
      answers := [];
      var i := 0;
      assert ops[0..] == ops;
      while i < |ops|
        invariant i <= |ops| && Valid()
        invariant answers + ApplyAll(Now(), ops[i..], fs, ofs) == ApplyAll(old(Now()), ops, fs, ofs)
      {
        ghost var before := Now();
        var a := Do(ops[i]);
        assert ops[i..][0] == ops[i] && ops[i..][1..] == ops[i + 1..];
        Regroup(answers, [a], ApplyAll(Now(), ops[i + 1..], fs, ofs));
        answers := answers + [a];
        i := i + 1;
      }
      assert ops[i..] == [];
    }
  }

  lemma FieldIn(slots: Slots, n: nat, i: nat)
    requires 1 <= i <= n < |slots|
    ensures FieldsOf(slots, n)[i - 1] == TextOf(slots[i])
  {
  }

  lemma SameSize(fields: seq<string>)
    ensures Resize(fields, |fields|) == fields
  {
  }

  lemma NoFields(slots: Slots, ofs: string)
    ensures FieldsOf(slots, 0) == [] && Join([], ofs) == ""
  {
  }

  /** Before the first record: splitting an empty record and joining it again changes nothing. */
  lemma ResplitEmpty(fs: string, ofs: string)
    requires Simple(fs)
    ensures Join(Split(fs, ""), ofs) == ""
  {
    if fs != " " && fs != "" {
      assert SplitChar("", fs[0]) == [""];
    }
  }

  lemma CapKeeps(a: Slots, b: Slots, n: nat)
    requires (n == 0 || n < |a|) && n < |b| && |b| >= |a| && b[..|a|] == a && EmptyAbove(a, n)
    requires forall i :: |a| <= i < |b| ==> b[i].None?
    ensures EmptyAbove(b, n) && FieldsOf(b, n) == FieldsOf(a, n)
  {
    assert forall i :: 0 <= i < |a| ==> b[i] == b[..|a|][i];
    if n > 0 { SameFields(a, b, n); } else { assert FieldsOf(b, 0) == FieldsOf(a, 0); }
  }

  lemma JoinStart(fields: seq<string>, ofs: string)
    ensures Join(fields[..0], ofs) == ""
  {
  }

  /** Joining grows at the end as `rebuild_record` writes it. */
  lemma {:induction false} JoinMore(fields: seq<string>, k: nat, ofs: string)
    requires k < |fields|
    ensures Join(fields[..k + 1], ofs) == Join(fields[..k], ofs) + (if k > 0 then ofs else "") + fields[k]
    decreases |fields|
  {
    if k == 0 {
      assert fields[..1] == [fields[0]] && fields[..0] == [];
      assert "" + "" + fields[0] == fields[0];
    } else {
      var rest := fields[1..];
      JoinMore(rest, k - 1, ofs);
      assert fields[..k + 1][1..] == rest[..k] && fields[..k][1..] == rest[..k - 1];
      assert rest[k - 1] == fields[k];
      JoinShift(fields, k, ofs);
    }
  }

  lemma JoinShift(fields: seq<string>, k: nat, ofs: string)
    requires 0 < k < |fields|
    requires var rest := fields[1..]; Join(rest[..k], ofs) == Join(rest[..k - 1], ofs) + (if k - 1 > 0 then ofs else "") + rest[k - 1]
    requires fields[..k + 1][1..] == fields[1..][..k] && fields[..k][1..] == fields[1..][..k - 1]
    ensures Join(fields[..k + 1], ofs) == Join(fields[..k], ofs) + ofs + fields[k]
  {
    var a, b := fields[..k + 1], fields[..k];
    var rest := fields[1..];
    var f := fields[0];
    assert Join(a, ofs) == f + ofs + Join(rest[..k], ofs);
    if k == 1 {
      assert Join(rest[..0], ofs) == "";
      assert Join(b, ofs) == f;
      assert "" + "" + fields[1] == fields[1];
    } else {
      assert Join(b, ofs) == f + ofs + Join(rest[..k - 1], ofs);
      var j := Join(rest[..k - 1], ofs);
      assert f + ofs + (j + ofs + fields[k]) == f + ofs + j + ofs + fields[k];
    }
  }
}
