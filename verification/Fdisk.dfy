/** fdisk's partition table in memory (usr/bin/fdisk.c): where a new partition
    goes, and what every command keeps true of the table. */
module Fdisk {

  const MBR_SLOTS := 4
  const GPT_SLOTS := 16
  const ALIGN := 2048

  datatype Part = Free | Used(first: nat, last: nat)

  ghost predicate Covers(p: Part, x: nat) { p.Used? && p.first <= x <= p.last }

  /** Sector `x` lies in no partition. */
  ghost predicate Open(parts: seq<Part>, x: nat) {
    forall i :: 0 <= i < |parts| ==> !Covers(parts[i], x)
  }

  /** At a multiple of a mebibyte of 512-byte sectors, the first one left out. */
  ghost predicate Aligned(x: nat) { x >= 2048 && x % 2048 == 0 }

  /** The least aligned sector in no partition. */
  ghost predicate FirstOpen(parts: seq<Part>, x: nat) {
    Aligned(x) && Open(parts, x) && forall y: nat :: Aligned(y) && y < x ==> !Open(parts, y)
  }

  /** The last sector up to `limit` that no partition starting after `start` reaches. */
  ghost predicate LastOpen(parts: seq<Part>, limit: int, start: nat, end: int) {
    && end <= limit
    && (forall i :: 0 <= i < |parts| && parts[i].Used? && parts[i].first > start ==> end < parts[i].first)
    && (end == limit || exists i :: 0 <= i < |parts| && parts[i].Used? && parts[i].first > start && end == parts[i].first - 1)
  }

  ghost predicate Apart(p: Part, q: Part) {
    p.Used? && q.Used? ==> p.last < q.first || q.last < p.first
  }

  /** Partitions are disjoint, not empty, and between `low` and `high`. */
  ghost predicate Sound(parts: seq<Part>, low: nat, high: int) {
    && (forall i :: 0 <= i < |parts| && parts[i].Used? ==> low <= parts[i].first <= parts[i].last <= high)
    && (forall i, j :: 0 <= i < j < |parts| ==> Apart(parts[i], parts[j]))
  }

  /** `end` is as far as free space goes: every sector from `start` to it is free, the next one is not. */
  lemma FreeRange(parts: seq<Part>, low: nat, limit: int, start: nat, end: int)
    requires Sound(parts, low, limit) && Open(parts, start) && LastOpen(parts, limit, start, end)
    ensures forall x: nat :: start <= x <= end ==> Open(parts, x)
    ensures start <= end < limit ==> !Open(parts, end + 1)
  {
    forall x: nat | start <= x <= end ensures Open(parts, x) {
      forall i | 0 <= i < |parts| ensures !Covers(parts[i], x) {
        assert !Covers(parts[i], start);
      }
    }
    if start <= end < limit {
      var i :| 0 <= i < |parts| && parts[i].Used? && parts[i].first > start && end == parts[i].first - 1;
      assert Covers(parts[i], end + 1);
    }
  }

  /** A partition put into free space keeps the table sound. */
  lemma AddSound(parts: seq<Part>, low: nat, limit: int, slot: nat, start: nat, end: nat, last: nat)
    requires Sound(parts, low, limit) && slot < |parts| && parts[slot].Free?
    requires low <= ALIGN && start <= last <= end && FirstOpen(parts, start) && LastOpen(parts, limit, start, end)
    ensures Sound(parts[slot := Used(start, last)], low, limit)
  {
    forall i | 0 <= i < |parts| && i != slot ensures Apart(parts[i], Used(start, last)) && Apart(Used(start, last), parts[i]) {
      assert !Covers(parts[i], start);
    }
  }

  lemma AddAligned(parts: seq<Part>, slot: nat, start: nat, last: nat)
    requires slot < |parts| && FirstOpen(parts, start)
    ensures StartsAligned(parts) ==> StartsAligned(parts[slot := Used(start, last)])
  {
  }

  lemma AddRange(parts: seq<Part>, limit: int, start: nat, end: int)
    requires FirstOpen(parts, start) && LastOpen(parts, limit, start, end)
    ensures start >= 2048 && end <= limit
  {
  }

  function Top(parts: seq<Part>): (top: nat)
    ensures forall i :: 0 <= i < |parts| && parts[i].Used? ==> parts[i].last <= top
  {
    if parts == [] then 0
    else
      var n := |parts| - 1;
      var t := Top(parts[..n]);
      assert forall i :: 0 <= i < n ==> parts[..n][i] == parts[i];
      if parts[n].Used? && parts[n].last > t then parts[n].last else t
  }

  function RoundUp(x: nat): (r: nat)
    ensures r % ALIGN == 0 && x <= r < x + ALIGN
  {
    if x % ALIGN == 0 then x else (x / ALIGN + 1) * ALIGN
  }

  /** No aligned sector lies between a sector and its rounding up. */
  lemma RoundUpLeast(x: nat, y: nat)
    requires y % ALIGN == 0 && x <= y
    ensures RoundUp(x) <= y
  {
  }

  /** Moving past partition `i` skips no free aligned sector. */
  lemma SkipPart(parts: seq<Part>, i: nat, start: nat)
    requires i < |parts| && Covers(parts[i], start)
    ensures start < RoundUp(parts[i].last + 1) <= Top(parts) + ALIGN
    ensures forall y: nat :: Aligned(y) && start <= y < RoundUp(parts[i].last + 1) ==> !Open(parts, y)
  {
    forall y: nat | Aligned(y) && start <= y < RoundUp(parts[i].last + 1) ensures !Open(parts, y) {
      if y > parts[i].last { RoundUpLeast(parts[i].last + 1, y); }
      assert Covers(parts[i], y);
    }
  }

  /** There is room at `x`: a free aligned sector, the last usable one included. */
  ghost predicate Room(parts: seq<Part>, limit: int, x: nat) {
    Aligned(x) && x <= limit && Open(parts, x)
  }

  ghost predicate AnyRoom(parts: seq<Part>, limit: int) {
    exists x: nat :: Room(parts, limit, x)
  }

  /** Room is what a partition needs: one can start at an aligned sector just when there is room there. */
  lemma RoomIsEnough(parts: seq<Part>, low: nat, limit: int, slot: nat, x: nat)
    requires Sound(parts, low, limit) && slot < |parts| && parts[slot].Free? && Aligned(x) && low <= x
    ensures Room(parts, limit, x) <==> exists last: nat :: Sound(parts[slot := Used(x, last)], low, limit)
  {
    if Room(parts, limit, x) {
      assert Sound(parts[slot := Used(x, x)], low, limit);
    }
    if last: nat :| Sound(parts[slot := Used(x, last)], low, limit) {
      SoundOpen(parts, low, limit, slot, x, last);
    }
  }

  lemma SoundOpen(parts: seq<Part>, low: nat, limit: int, slot: nat, x: nat, last: nat)
    requires slot < |parts| && parts[slot].Free? && Sound(parts[slot := Used(x, last)], low, limit)
    ensures x <= limit && Open(parts, x)
  {
    var more := parts[slot := Used(x, last)];
    assert more[slot] == Used(x, last);
    forall i | 0 <= i < |parts| ensures !Covers(parts[i], x) {
      assert i != slot ==> more[i] == parts[i];
    }
  }

  /** Room for two: the aligned sector and the one after it. */
  ghost predicate Pair(parts: seq<Part>, limit: int, x: nat) {
    Room(parts, limit, x) && x < limit && Open(parts, x + 1)
  }

  ghost predicate AnyPair(parts: seq<Part>, limit: int) {
    exists x: nat :: Pair(parts, limit, x)
  }

  /** A partition starts on the very next sector. */
  ghost predicate ShutIn(parts: seq<Part>, start: nat) {
    exists i :: 0 <= i < |parts| && parts[i].Used? && parts[i].first == start + 1
  }

  ghost predicate StartsAligned(parts: seq<Part>) {
    forall i :: 0 <= i < |parts| && parts[i].Used? ==> Aligned(parts[i].first)
  }

  /** When "no free space" is said: the first free aligned sector is at the limit, or shut in. */
  lemma NoSpaceMeans(parts: seq<Part>, low: nat, limit: int, start: nat, end: int)
    requires Sound(parts, low, limit) && FirstOpen(parts, start) && LastOpen(parts, limit, start, end)
    ensures start >= end <==> start >= limit || ShutIn(parts, start)
  {
    if start < limit && start >= end {
      var i :| 0 <= i < |parts| && parts[i].Used? && parts[i].first > start && end == parts[i].first - 1;
      assert parts[i].first == start + 1;
    }
  }

  /** The message is right exactly unless the first free aligned sector is the last usable
      one, or lies below it and is shut in: a partition of one sector would fit there. */
  lemma NoSpaceIsRight(parts: seq<Part>, low: nat, limit: int, start: nat, end: int)
    requires Sound(parts, low, limit) && FirstOpen(parts, start) && LastOpen(parts, limit, start, end)
    ensures start < end ==> Pair(parts, limit, start)
    ensures AnyRoom(parts, limit) <==> start <= limit
    ensures (start >= end <==> !AnyRoom(parts, limit))
      <==> !(start == limit || (start < limit && ShutIn(parts, start)))
  {
    NoSpaceMeans(parts, low, limit, start, end);
    RoomMeans(parts, limit, start);
    if start < end { FreeRange(parts, low, limit, start, end); }
  }

  lemma RoomMeans(parts: seq<Part>, limit: int, start: nat)
    requires FirstOpen(parts, start)
    ensures AnyRoom(parts, limit) <==> start <= limit
  {
    if start <= limit {
      assert Room(parts, limit, start);
    }
    if AnyRoom(parts, limit) {
      var x: nat :| Room(parts, limit, x);
      assert Aligned(x) && Open(parts, x);
      assert x >= start;
    }
  }

  /** Where every partition starts aligned, the message is right exactly unless the first
      free aligned sector is the last usable one. */
  lemma AlignedIsRight(parts: seq<Part>, low: nat, limit: int, start: nat, end: int)
    requires Sound(parts, low, limit) && FirstOpen(parts, start) && LastOpen(parts, limit, start, end)
    requires StartsAligned(parts)
    ensures (start >= end <==> !AnyRoom(parts, limit)) <==> start != limit
  {
    NotShutIn(parts, start);
    hide *;
    NoSpaceIsRight(parts, low, limit, start, end);
  }

  /** Read as "no two sectors", the message is right unless the first free aligned sector is
      shut in and there are two elsewhere; with aligned starts it is always right. */
  lemma NoPairIsRight(parts: seq<Part>, low: nat, limit: int, start: nat, end: int)
    requires Sound(parts, low, limit) && FirstOpen(parts, start) && LastOpen(parts, limit, start, end)
    ensures (start >= end <==> !AnyPair(parts, limit)) <==> !(ShutIn(parts, start) && AnyPair(parts, limit))
    ensures StartsAligned(parts) ==> (start >= end <==> !AnyPair(parts, limit))
  {
    hide Sound, LastOpen, StartsAligned, ShutIn;
    NoSpaceMeans(parts, low, limit, start, end);
    NoSpaceIsRight(parts, low, limit, start, end);
    if AnyPair(parts, limit) {
      var x: nat :| Pair(parts, limit, x);
      assert Aligned(x) && Open(parts, x);
      assert x >= start;
    }
    if StartsAligned(parts) { NotShutIn(parts, start); }
  }

  lemma NotShutIn(parts: seq<Part>, start: nat)
    requires StartsAligned(parts) && FirstOpen(parts, start)
    ensures !ShutIn(parts, start)
  {
    hide Open;
    assert !Aligned(start + 1);
  }

  /** A disk whose first gap is one sector wide and shut in, however much is free behind: the message is wrong. */
  lemma FirstGapOnly(last: nat, limit: int)
    requires 2049 <= last && last + ALIGN < limit
    ensures var parts := [Used(2049, last), Free, Free, Free];
      && Sound(parts, 1, limit) && FirstOpen(parts, 2048) && LastOpen(parts, limit, 2048, 2048)
      && Room(parts, limit, RoundUp(last + 1))
  {
    var parts := [Used(2049, last), Free, Free, Free];
    assert parts[0].Used?;
  }

  /** An empty table on a disk whose last usable sector is the first aligned one, such as an
      MBR disk of 2049 sectors: the message is given, and a partition of that sector fits. */
  lemma LastSectorOnly(parts: seq<Part>)
    requires |parts| > 0 && forall i :: 0 <= i < |parts| ==> parts[i].Free?
    ensures Sound(parts, 1, 2048) && FirstOpen(parts, 2048) && LastOpen(parts, 2048, 2048, 2048)
    ensures AnyRoom(parts, 2048) && Sound(parts[0 := Used(2048, 2048)], 1, 2048)
  {
    assert Room(parts, 2048, 2048);
  }

  datatype Size = Eof | Rest | Sectors(n: nat)

  /** The last sector of a partition of the size asked for, cut to the free range. */
  function LastSector(size: Size, start: nat, end: int): (last: nat)
    requires start < end
  {
    if size.Sectors? && 0 < size.n <= end - start then start + size.n - 1 else end
  }

  datatype Outcome = NoSlot | NoSpace | BadSize | Aborted | Added(slot: nat)

  datatype Command = New(size: Size, typed: bool) | Delete(slot: int) | Gpt | Mbr

  class Table {
    const total: nat
    const parts: array<Part>
    var nparts: nat
    var isGpt: bool
    var dirty: bool

    ghost function Slots(): (s: seq<Part>)
      requires nparts <= parts.Length
      reads this, parts
    {
      parts[..nparts]
    }

    /** The last sector a partition may use: a GPT keeps its backup in the last 33. */
    function Limit(): (r: int)
      reads this
    {
      if isGpt then total - 34 else total - 1
    }

    ghost predicate Shaped()
      reads this
    {
      nparts == (if isGpt then 16 else 4) && parts.Length == 16 && total >= 34
    }

    ghost predicate Valid()
      reads this, parts
    {
      Shaped() && Sound(Slots(), if isGpt then 34 else 1, Limit())
    }

    /** What that means sector by sector: partitions share none, and stay off the first 34 and last 33 sectors of
        a GPT disk, and off sector 0 of an MBR disk. */
    ghost predicate Laid()
      reads this, parts
    {
      && nparts <= parts.Length
      && (forall i :: 0 <= i < nparts && parts[i].Used? ==>
            if isGpt then 34 <= parts[i].first <= parts[i].last < total - 33 else 1 <= parts[i].first <= parts[i].last < total)
      && (forall i, j :: 0 <= i < j < nparts && parts[i].Used? && parts[j].Used? ==>
            parts[i].last < parts[j].first || parts[j].last < parts[i].first)
    }

    lemma ValidIsLaid()
      requires Valid()
      ensures Laid()
    {
      var s := Slots();
      assert forall i :: 0 <= i < nparts ==> s[i] == parts[i];
      forall i, j | 0 <= i < j < nparts ensures Apart(parts[i], parts[j]) {
        assert Apart(s[i], s[j]);
      }
    }

    /** A disk with the partitions read from it. */
    constructor (total: nat, isGpt: bool, found: seq<Part>)
      requires total >= 34 && |found| == if isGpt then GPT_SLOTS else MBR_SLOTS
      ensures Shaped() && Slots() == found && this.total == total && this.isGpt == isGpt && !dirty && fresh(parts)
    {
      this.total, this.isGpt, this.nparts, this.dirty := total, isGpt, |found|, false;
      this.parts := new Part[GPT_SLOTS](i => if 0 <= i < |found| then found[i] else Free);
    }

    /** Terminates on any table, and finds the first free aligned sector. */
    method FindFreeStart() returns (start: nat)
      requires nparts <= parts.Length
      ensures FirstOpen(Slots(), start)
    {
      start := ALIGN;
      ghost var slots := Slots();
      var progressed := true;
      while progressed
        invariant Aligned(start) && start <= Top(slots) + ALIGN
        invariant forall y: nat :: Aligned(y) && y < start ==> !Open(slots, y)
        invariant !progressed ==> Open(slots, start)
        decreases Top(slots) + ALIGN - start, progressed
      {
        progressed := false;
        ghost var before := start;
        for i := 0 to nparts
          invariant Aligned(start) && before <= start <= Top(slots) + ALIGN
          invariant progressed ==> before < start
          invariant forall y: nat :: Aligned(y) && y < start ==> !Open(slots, y)
          invariant !progressed ==> forall k :: 0 <= k < i ==> !Covers(slots[k], start)
        {
          if parts[i].Used? && parts[i].first <= start <= parts[i].last {
            SkipPart(slots, i, start);
            start := RoundUp(parts[i].last + 1);
            progressed := true;
          }
        }
      }
    }

    method FindFreeEnd(start: nat) returns (end: int)
      requires nparts <= parts.Length
      ensures LastOpen(Slots(), if isGpt then total - 34 else total - 1, start, end)
    {
      end := Limit();
      for i := 0 to nparts
        invariant LastOpen(parts[..i], Limit(), start, end)
      {
        if parts[i].Used? && parts[i].first > start && parts[i].first - 1 < end {
          end := parts[i].first - 1;
        }
      }
    }

    /** The free range that `n` offers; it is empty, or one sector, just when the range is shut in or at the limit. */
    method Offer() returns (start: nat, end: int)
      requires Valid()
      ensures FirstOpen(Slots(), start) && LastOpen(Slots(), Limit(), start, end)
      ensures start >= end <==> start >= Limit() || ShutIn(Slots(), start)
      ensures start < end ==> Pair(Slots(), Limit(), start)
      ensures (start >= end <==> !AnyRoom(Slots(), Limit()))
        <==> !(start == Limit() || (start < Limit() && ShutIn(Slots(), start)))
      ensures StartsAligned(Slots()) ==> ((start >= end <==> !AnyRoom(Slots(), Limit())) <==> start != Limit())
      ensures StartsAligned(Slots()) ==> (start >= end <==> !AnyPair(Slots(), Limit()))
    {
      hide FirstOpen, LastOpen, Sound, Room, AnyRoom, Pair, AnyPair, ShutIn, StartsAligned;
      start := FindFreeStart();
      end := FindFreeEnd(start);
      NoSpaceMeans(Slots(), if isGpt then 34 else 1, Limit(), start, end);
      NoSpaceIsRight(Slots(), if isGpt then 34 else 1, Limit(), start, end);
      NoPairIsRight(Slots(), if isGpt then 34 else 1, Limit(), start, end);
      if StartsAligned(Slots()) { AlignedIsRight(Slots(), if isGpt then 34 else 1, Limit(), start, end); }
    }

    /** The first free slot. */
    method FindSlot() returns (slot: int)
      requires nparts <= parts.Length
      ensures -1 <= slot < nparts
      ensures slot >= 0 ==> parts[slot].Free?
      ensures forall i :: 0 <= i < (if slot < 0 then nparts else slot) ==> parts[i].Used?
    {
      for i := 0 to nparts
        invariant forall k :: 0 <= k < i ==> parts[k].Used?
      {
        if parts[i].Free? { return i; }
      }
      return -1;
    }

    /** The `n` command: the answers to its prompts are `size` and whether a type was given.
        `start` and `end` are the free range it offers. */
    method New(size: Size, typed: bool) returns (r: Outcome, ghost start: nat, ghost end: int)
      requires Valid()
      modifies parts, this`dirty
      ensures Valid()
      ensures r == NoSlot <==> forall i :: 0 <= i < nparts ==> old(parts[i]).Used?
      ensures r != NoSlot ==> FirstOpen(old(Slots()), start) && LastOpen(old(Slots()), Limit(), start, end)
      ensures Limit() == if isGpt then total - 34 else total - 1
      ensures r == NoSpace <==> r != NoSlot && (start >= Limit() || ShutIn(old(Slots()), start))
      ensures r != NoSlot ==> ((r == NoSpace <==> !AnyRoom(old(Slots()), Limit())) <==>
        !(start == Limit() || (start < Limit() && ShutIn(old(Slots()), start))))
      ensures r != NoSlot && old(StartsAligned(Slots())) ==>
        ((r == NoSpace <==> !AnyRoom(old(Slots()), Limit())) <==> start != Limit())
      ensures r != NoSlot && old(StartsAligned(Slots())) ==>
        (r == NoSpace <==> !AnyPair(old(Slots()), Limit()))
      ensures r != NoSlot && r != NoSpace ==> start < end && Pair(old(Slots()), Limit(), start)
      ensures old(StartsAligned(Slots())) ==> StartsAligned(Slots())
      ensures r == BadSize ==> size == Sectors(0)
      ensures r == Aborted ==> size.Eof? || !typed
      ensures !r.Added? ==> Slots() == old(Slots()) && dirty == old(dirty)
      ensures r.Added? ==> dirty && typed && !size.Eof? && size != Sectors(0) && r.slot < nparts
      ensures r.Added? ==> old(parts[r.slot]).Free? && forall i :: 0 <= i < r.slot ==> old(parts[i]).Used?
      ensures r.Added? ==> Slots() == old(Slots())[r.slot := Used(start, LastSector(size, start, end))]
      ensures r.Added? ==> Slots()[r.slot].Used? && Slots()[r.slot].first == start
      ensures r.Added? ==>
        Slots()[r.slot].last == if size.Sectors? && size.n <= end - start + 1 then start + size.n - 1 else end
      ensures r.Added? ==> 2048 <= start <= LastSector(size, start, end) <= if isGpt then total - 34 else total - 1
    {
      hide FirstOpen, LastOpen, Sound, Room, AnyRoom, Pair, AnyPair, ShutIn, StartsAligned, Covers;
      start, end := 0, 0;
      var slot := FindSlot();
      if slot < 0 { return NoSlot, start, end; }
      var s, e := Offer();
      start, end := s, e;
      if s >= e { return NoSpace, start, end; }
      if size.Eof? { return Aborted, start, end; }
      var want := if size.Rest? then e - s + 1 else size.n;
      if want == 0 { return BadSize, start, end; }
      if want > e - s + 1 { want := e - s + 1; }
      if !typed { return Aborted, start, end; }
      AddAligned(Slots(), slot, s, s + want - 1);
      AddSound(Slots(), if isGpt then 34 else 1, Limit(), slot, s, e, s + want - 1);
      parts[slot] := Used(s, s + want - 1);
      dirty := true;
      assert Slots() == old(Slots())[slot := Used(s, s + want - 1)];
      AddRange(old(Slots()), Limit(), start, end);
      return Added(slot), start, end;
    }

    /** The `d` command; `slot` counts from 1. */
    method Delete(slot: int) returns (ok: bool)
      requires Valid()
      modifies parts, this`dirty
      ensures Valid()
      ensures ok <==> 1 <= slot <= nparts && old(parts[slot - 1]).Used?
      ensures Slots() == if ok then old(Slots())[slot - 1 := Free] else old(Slots())
      ensures dirty == (ok || old(dirty))
      ensures old(StartsAligned(Slots())) ==> StartsAligned(Slots())
    {
      var i := slot - 1;
      if i < 0 || i >= nparts { return false; }
      if parts[i].Free? { return false; }
      parts[i] := Free;
      dirty := true;
      return true;
    }

    /** The `g` and `o` commands: an empty table of the other kind. */
    method Relabel(gpt: bool)
      requires Shaped()
      modifies this, parts
      ensures Valid() && isGpt == gpt && dirty && StartsAligned(Slots())
      ensures forall i :: 0 <= i < parts.Length ==> parts[i] == Free
    {
      for i := 0 to parts.Length
        invariant forall k :: 0 <= k < i ==> parts[k] == Free
      {
        parts[i] := Free;
      }
      nparts := if gpt then GPT_SLOTS else MBR_SLOTS;
      isGpt, dirty := gpt, true;
    }

    /** Any run of commands keeps the table sound. It also keeps starts aligned, and a new label
        makes them so, whatever was on the disk: from then on "no free space" is right unless
        the first free aligned sector is the last usable one. */
    method Run(commands: seq<Command>)
      requires Valid()
      modifies this, parts
      ensures Valid() && Laid()
      ensures old(StartsAligned(Slots())) || Gpt in commands || Mbr in commands ==> StartsAligned(Slots())
      ensures StartsAligned(Slots()) ==> forall start: nat, end ::
        FirstOpen(Slots(), start) && LastOpen(Slots(), Limit(), start, end) ==>
          && ((start >= end <==> !AnyRoom(Slots(), Limit())) <==> start != Limit())
          && (start >= end <==> !AnyPair(Slots(), Limit()))
    {
      hide FirstOpen, LastOpen, Sound, AnyRoom, AnyPair, StartsAligned, Laid;
      for i := 0 to |commands|
        invariant Valid()
        invariant old(StartsAligned(Slots())) || Gpt in commands[..i] || Mbr in commands[..i] ==> StartsAligned(Slots())
      {
        match commands[i]
        case New(size, typed) => var _, _, _ := New(size, typed);
        case Delete(slot) => var _ := Delete(slot);
        case Gpt => Relabel(true);
        case Mbr => Relabel(false);
      }
      assert commands[..|commands|] == commands;
      ValidIsLaid();
      forall start: nat, end | StartsAligned(Slots()) && FirstOpen(Slots(), start) && LastOpen(Slots(), Limit(), start, end)
        ensures (start >= end <==> !AnyRoom(Slots(), Limit())) <==> start != Limit()
        ensures start >= end <==> !AnyPair(Slots(), Limit())
      {
        NoPairIsRight(Slots(), if isGpt then 34 else 1, Limit(), start, end);
        AlignedIsRight(Slots(), if isGpt then 34 else 1, Limit(), start, end);
      }
    }
  }
}
