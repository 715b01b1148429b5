/** The table method (`crc_init` and `crc32_of` in usr/bin/ar.c). */
module CrcTable {
  import opened Crc
  import opened CrcDetect

  /** The index of the table entry for the low byte of a word. */
  function Index(w: Word): (i: nat)
    ensures i < 256
  {
    LowByteFits(w.v);
    (w.v & 0xFF) as nat
  }

  lemma LowByteFits(v: bv32)
    ensures (v & 0xFF) as nat < 256
  {
    assert v & 0xFF <= 0xFF;
  }

  ghost function Entry(i: nat): Word
    requires i < 256
  {
    Steps(Word(i as bv32), 8)
  }

  lemma BackAndForth(v: bv32)
    ensures (v as nat) as bv32 == v
  {
  }

  lemma IndexWord(w: Word)
    ensures Word(Index(w) as bv32) == LowByte(w)
  {
    BackAndForth(w.v & 0xFF);
  }

  lemma EntryOf(w: Word)
    ensures Entry(Index(w)) == Steps(LowByte(w), 8)
  {
    hide Steps, LowByte, Index;
    IndexWord(w);
  }

  /** herd fills its table when entry 1 is still 0: no filled table has a 0 there. */
  lemma FilledShows()
    ensures Entry(1) != ZERO
  {
    hide Steps;
    ZeroSteps(8);
    var one := Word(1 as bv32);
    if Steps(one, 8) == Steps(ZERO, 8) { StepsOnce(one, ZERO, 8); }
  }

  lemma {:induction false} ZeroSteps(n: nat)
    ensures Steps(ZERO, n) == ZERO
    decreases n
  {
    hide Step;
    ZeroStep();
    if n > 0 { ZeroSteps(n - 1); }
  }

  lemma ZeroStep()
    ensures Step(ZERO) == ZERO
  {
  }

  class Crc32 {
    const table: array<Word>
    var ready: bool

    ghost predicate Valid()
      reads this, table
    {
      table.Length == 256 && (ready ==> forall i :: 0 <= i < 256 ==> table[i] == Entry(i))
    }

    constructor ()
      ensures Valid() && !ready && fresh(table)
    {
      table := new Word[256](_ => ZERO);
      ready := false;
    }

    method Init()
      requires Valid()
      modifies this, table
      ensures Valid() && ready
    {
      hide Step;
      if ready { return; }
      for i := 0 to 256
        invariant forall j :: 0 <= j < i ==> table[j] == Entry(j)
      {
        var c := Word(i as bv32);
        for k := 0 to 8
          invariant Steps(c, 8 - k) == Entry(i)
          invariant forall j :: 0 <= j < i ==> table[j] == Entry(j)
        {
          c := Step(c);
        }
        table[i] := c;
      }
      ready := true;
    }

    /** The checksum of any message, by one table entry a byte. */
    method Sum(d: seq<bv8>) returns (r: Word)
      requires Valid()
      modifies this, table
      ensures Valid() && r == Checksum(d)
    {
      hide Xor, Shr8, LowByte, Steps, FeedBits, ByteWord, Entry, Index;
      Init();
      var c := ONES;
      for i := 0 to |d|
        invariant ready && Valid()
        invariant Feed(c, d[i..]) == Feed(ONES, d)
      {
        var b := ByteWord(d[i]);
        var x := Xor(c, b);
        ByteStep(c, d[i]);
        EntryOf(x);
        Shr8Xor(c, b);
        ByteTop(d[i]);
        XorZero(Shr8(c));
        c := Xor(table[Index(x)], Shr8(c));
        assert d[i..][1..] == d[i + 1..];
      }
      return Xor(c, ONES);
    }
  }
}
