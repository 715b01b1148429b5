/** awk's arrays (`arr_get`, `arr_del`, `arr_clear` in usr/bin/awk.c): 64
    buckets of linked entries, proved against a map for any hash function. */
module AwkArray {
  import opened Options

  const BUCKETS := 64

  /** A value; entries are created without one. */
  datatype Val = Uninit | Val(text: string)

  class Entry {
    const key: string
    var val: Val
    var next: Entry?

    constructor (key: string, next: Entry?)
      ensures this.key == key && this.val == Uninit && this.next == next
    {
      this.key, this.val, this.next := key, Uninit, next;
    }
  }

  /** What is at place `i` of the chain: null just past its end. */
  ghost function At(chain: seq<Entry>, i: nat): (e: Entry?) {
    if i < |chain| then chain[i] else null
  }

  /** Following the links from `head` visits the entries of `chain` and ends. */
  ghost predicate Linked(head: Entry?, chain: seq<Entry>)
    reads chain
  {
    && head == At(chain, 0)
    && forall i :: 0 <= i < |chain| ==> chain[i].next == At(chain, i + 1)
  }

  /** Every key once, and in its own bucket. */
  ghost predicate Keyed(hash: string -> nat, b: nat, chain: seq<Entry>) {
    && (forall i :: 0 <= i < |chain| ==> hash(chain[i].key) % BUCKETS == b)
    && forall i, j :: 0 <= i < j < |chain| ==> chain[i].key != chain[j].key
  }

  ghost predicate Has(chain: seq<Entry>, key: string) {
    exists i :: 0 <= i < |chain| && chain[i].key == key
  }

  /** The chain holds the pairs of `m`, and no others. */
  ghost predicate Stores(chain: seq<Entry>, m: map<string, Val>)
    reads chain
  {
    && (forall i :: 0 <= i < |chain| ==> chain[i].key in m && m[chain[i].key] == chain[i].val)
    && (forall k :: k in m ==> Has(chain, k))
  }

  ghost function Without(chain: seq<Entry>, at: nat): (r: seq<Entry>)
    requires at < |chain|
  {
    chain[..at] + chain[at + 1..]
  }

  lemma KeyedWithout(hash: string -> nat, b: nat, chain: seq<Entry>, at: nat)
    requires Keyed(hash, b, chain) && at < |chain|
    ensures Keyed(hash, b, Without(chain, at))
    ensures forall k :: Has(Without(chain, at), k) <==> Has(chain, k) && k != chain[at].key
  {
    var rest := Without(chain, at);
    assert forall i :: 0 <= i < |rest| ==> rest[i] == chain[if i < at then i else i + 1];
    forall k | Has(chain, k) && k != chain[at].key ensures Has(rest, k) {
      var i :| 0 <= i < |chain| && chain[i].key == k;
      assert rest[if i < at then i else i - 1].key == k;
    }
  }

  lemma PushLinked(head: Entry?, chain: seq<Entry>, e: Entry)
    requires Linked(head, chain) && e.next == head
    ensures Linked(e, [e] + chain)
  {
    var longer := [e] + chain;
    forall i | 0 <= i < |longer| ensures longer[i].next == At(longer, i + 1) {
      if i > 0 { assert chain[i - 1].next == At(chain, i); }
    }
  }

  lemma PushHas(chain: seq<Entry>, e: Entry)
    ensures forall k :: Has([e] + chain, k) <==> Has(chain, k) || k == e.key
  {
    var longer := [e] + chain;
    assert longer[0] == e;
    forall k | Has(chain, k) ensures Has(longer, k) {
      var i :| 0 <= i < |chain| && chain[i].key == k;
      assert longer[i + 1].key == k;
    }
  }

  lemma LinkAt(head: Entry?, chain: seq<Entry>, i: nat)
    requires Linked(head, chain)
    ensures head == At(chain, 0)
    ensures i < |chain| ==> chain[i].next == At(chain, i + 1)
  {
  }

  lemma NotHeld(chain: seq<Entry>, m: map<string, Val>, key: string)
    requires Stores(chain, m) && forall i :: 0 <= i < |chain| ==> chain[i].key != key
    ensures key !in m
  {
  }

  /** An entry put in front of a chain that lacks its key. */
  lemma PushFront(hash: string -> nat, b: nat, chain: seq<Entry>, m: map<string, Val>, e: Entry)
    requires Keyed(hash, b, chain) && Stores(chain, m)
    requires e.val == Uninit && hash(e.key) % BUCKETS == b && !Has(chain, e.key)
    ensures Keyed(hash, b, [e] + chain) && Stores([e] + chain, m[e.key := Uninit])
  {
    PushHas(chain, e);
    hide Linked;
    assert forall i :: 0 <= i < |chain| ==> chain[i].key != e.key;
  }

  /** `Linked` and `Stores` of links and values that were read before a write. */
  ghost predicate LinkedBy(head: Entry?, chain: seq<Entry>, nexts: seq<Entry?>) {
    && |nexts| == |chain| && head == At(chain, 0)
    && forall i :: 0 <= i < |chain| ==> nexts[i] == At(chain, i + 1)
  }

  ghost predicate StoredBy(chain: seq<Entry>, vals: seq<Val>, m: map<string, Val>) {
    && |vals| == |chain|
    && (forall i :: 0 <= i < |chain| ==> chain[i].key in m && m[chain[i].key] == vals[i])
    && (forall k :: k in m ==> Has(chain, k))
  }

  lemma Freeze(head: Entry?, chain: seq<Entry>, m: map<string, Val>) returns (nexts: seq<Entry?>, vals: seq<Val>)
    requires Linked(head, chain) && Stores(chain, m)
    ensures LinkedBy(head, chain, nexts) && StoredBy(chain, vals, m)
    ensures forall i :: 0 <= i < |chain| ==> chain[i].next == nexts[i]
    ensures forall i :: 0 <= i < |chain| ==> chain[i].val == vals[i]
  {
    hide At, Has;
    nexts := seq(|chain|, i requires 0 <= i => At(chain, i + 1));
    vals := seq(|chain|, i requires 0 <= i < |chain| => m[chain[i].key]);
  }

  /** A write to the value of entry `at` leaves the links, and stores the pair. */
  lemma Overwritten(hash: string -> nat, b: nat, head: Entry?, chain: seq<Entry>, nexts: seq<Entry?>, vals: seq<Val>,
      m: map<string, Val>, at: nat)
    requires LinkedBy(head, chain, nexts) && StoredBy(chain, vals, m) && Keyed(hash, b, chain) && at < |chain|
    requires forall i :: 0 <= i < |chain| ==> chain[i].next == nexts[i]
    requires forall i :: 0 <= i < |chain| && i != at ==> chain[i].val == vals[i]
    ensures Linked(head, chain) && Stores(chain, m[chain[at].key := chain[at].val])
  {
    assert Has(chain, chain[at].key);
  }

  /** Entry `at` cut out, by a write to the link that led to it. */
  lemma CutOut(head: Entry?, chain: seq<Entry>, nexts: seq<Entry?>, at: nat, newHead: Entry?)
    requires LinkedBy(head, chain, nexts) && at < |chain|
    requires forall i :: 0 <= i < |chain| && i + 1 != at ==> chain[i].next == nexts[i]
    requires if at == 0 then newHead == nexts[at] else newHead == head && chain[at - 1].next == nexts[at]
    ensures Linked(newHead, Without(chain, at))
  {
    var rest := Without(chain, at);
    assert forall i :: 0 <= i < |rest| ==> rest[i] == chain[if i < at then i else i + 1];
    forall i | 0 <= i < |rest| ensures rest[i].next == At(rest, i + 1) {
      var j := if i < at then i else i + 1;
      assert rest[i] == chain[j] && nexts[j] == At(chain, j + 1);
    }
  }

  lemma StoresWithout(hash: string -> nat, b: nat, chain: seq<Entry>, vals: seq<Val>, m: map<string, Val>, at: nat)
    requires StoredBy(chain, vals, m) && Keyed(hash, b, chain) && at < |chain|
    requires forall i :: 0 <= i < |chain| ==> chain[i].val == vals[i]
    ensures Stores(Without(chain, at), m - {chain[at].key})
  {
    KeyedWithout(hash, b, chain, at);
    var rest := Without(chain, at);
    forall i | 0 <= i < |rest| ensures rest[i].key in m && rest[i].key != chain[at].key && m[rest[i].key] == rest[i].val {
      assert rest[i] == chain[if i < at then i else i + 1];
    }
  }

  ghost predicate NoRepeats(keys: seq<string>) {
    forall i, j :: 0 <= i < j < |keys| ==> keys[i] != keys[j]
  }

  ghost function KeysOf(chain: seq<Entry>): (keys: seq<string>) {
    seq(|chain|, i requires 0 <= i < |chain| => chain[i].key)
  }

  lemma BucketKeys(hash: string -> nat, b: nat, chain: seq<Entry>, m: map<string, Val>)
    requires Keyed(hash, b, chain) && Stores(chain, m)
    ensures NoRepeats(KeysOf(chain))
    ensures forall k :: k in KeysOf(chain) <==> k in m
    ensures forall k :: k in KeysOf(chain) ==> hash(k) % BUCKETS == b
  {
    var keys := KeysOf(chain);
    assert forall i :: 0 <= i < |keys| ==> keys[i] == chain[i].key;
    forall k | k in m ensures k in keys {
      assert Has(chain, k);
      var i :| 0 <= i < |chain| && chain[i].key == k;
      assert keys[i] == k;
    }
  }

  lemma NoRepeatsCat(a: seq<string>, b: seq<string>)
    requires NoRepeats(a) && NoRepeats(b) && forall k :: k in a ==> k !in b
    ensures NoRepeats(a + b)
  {
    var both := a + b;
    forall i, j | 0 <= i < j < |both| ensures both[i] != both[j] {
      if i < |a| <= j { assert both[i] in a && both[j] in b; }
    }
  }

  lemma EmptyChain(hash: string -> nat, b: nat)
    ensures Linked(null, []) && Keyed(hash, b, []) && Stores([], map[])
  {
  }

  lemma Distinct(hash: string -> nat, b: nat, chain: seq<Entry>)
    requires Keyed(hash, b, chain)
    ensures forall i, j :: 0 <= i < j < |chain| ==> chain[i] != chain[j]
  {
  }

  lemma Elsewhere(hash: string -> nat, c: nat, chain: seq<Entry>, e: Entry)
    requires Keyed(hash, c, chain) && hash(e.key) % BUCKETS != c
    ensures e !in chain
  {
  }

  // ----- the array as a plain map -----

  /** Reading `a[k]` creates the element; `k in a` does not. */
  datatype Op = Read(key: string) | Holds(key: string) | Assign(key: string, v: Val) | Drop(key: string) | Wipe

  datatype Answer = Done | Value(v: Val) | Yes(held: bool)

  type Table = map<string, Val>

  function Apply(m: Table, op: Op): (Table, Answer) {
    match op
    case Read(k) => if k in m then (m, Value(m[k])) else (m[k := Uninit], Value(Uninit))
    case Holds(k) => (m, Yes(k in m))
    case Assign(k, v) => (m[k := v], Done)
    case Drop(k) => (m - {k}, Done)
    case Wipe => (map[], Done)
  }

  ghost predicate SameElsewhere(m: Table, m': Table, key: string) {
    forall k :: k != key ==> (k in m' <==> k in m) && (k in m ==> m'[k] == m[k])
  }

  /** Reading an element answers its value and leaves it there, with no value if it was missing; asking for
      it changes nothing; assigning and dropping touch that element only. */
  lemma ApplyMeans(m: Table, key: string, v: Val)
    ensures var (m', a) := Apply(m, Read(key));
      SameElsewhere(m, m', key) && key in m' && a == Value(m'[key]) && m'[key] == if key in m then m[key] else Uninit
    ensures var (m', a) := Apply(m, Holds(key)); m' == m && (a == Yes(true) <==> key in m)
    ensures var (m', _) := Apply(m, Assign(key, v)); SameElsewhere(m, m', key) && key in m' && m'[key] == v
    ensures var (m', _) := Apply(m, Drop(key)); SameElsewhere(m, m', key) && key !in m'
    ensures forall k :: k !in Apply(m, Wipe).0
  {
  }

  function ApplyAll(m: Table, ops: seq<Op>): (Table, seq<Answer>)
    decreases |ops|
  {
    if ops == [] then (m, [])
    else
      var n := |ops| - 1;
      var (at, answers) := ApplyAll(m, ops[..n]);
      var (end, a) := Apply(at, ops[n]);
      (end, answers + [a])
  }

  class Arr {
    const hash: string -> nat
    const buckets: array<Entry?>
    ghost var chains: seq<seq<Entry>>
    ghost var pairs: seq<map<string, Val>>
    ghost var repr: set<Entry>

    function Bucket(key: string): (b: nat)
      ensures b < BUCKETS
    {
      hash(key) % BUCKETS
    }

    ghost predicate Shaped()
      reads this
    {
      && buckets.Length == BUCKETS && |chains| == BUCKETS && |pairs| == BUCKETS
      && forall b, i :: 0 <= b < BUCKETS && 0 <= i < |chains[b]| ==> chains[b][i] in repr
    }

    ghost predicate Good(b: nat)
      requires b < BUCKETS && Shaped()
      reads this, buckets, repr
    {
      && Linked(buckets[b], chains[b])
      && Keyed(hash, b, chains[b])
      && Stores(chains[b], pairs[b])
    }

    ghost predicate Valid()
      reads this, buckets, repr
    {
      Shaped() && forall b :: 0 <= b < BUCKETS ==> Good(b)
    }

    /** The array as a map: what it holds under `key`. */
    ghost function View(key: string): Option<Val>
      requires Shaped()
      reads this
    {
      var m := pairs[Bucket(key)];
      if key in m then Some(m[key]) else None
    }

    /** The array holds exactly the pairs of `m`. */
    ghost predicate Is(m: Table)
      requires Shaped()
      reads this
    {
      forall k :: View(k) == if k in m then Some(m[k]) else None
    }

    lemma InBucket(b: nat, i: nat)
      requires Valid() && b < BUCKETS && i < |chains[b]|
      ensures Bucket(chains[b][i].key) == b
    {
      assert Good(b);
    }

    constructor (hash: string -> nat)
      ensures Valid() && (forall k :: View(k) == None) && this.hash == hash && fresh(buckets) && repr == {}
    {
      this.hash := hash;
      this.buckets := new Entry?[BUCKETS](_ => null);
      this.chains, this.pairs, this.repr := seq(BUCKETS, _ => []), seq(BUCKETS, _ => map[]), {};
    }

    /** The walk along a bucket. */
    method Find(key: string) returns (e: Entry?, ghost at: nat)
      requires Valid()
      ensures e == null <==> View(key) == None
      ensures e == null <==> !Has(chains[Bucket(key)], key)
      ensures e == At(chains[Bucket(key)], at)
      ensures e != null ==> e.key == key && View(key) == Some(e.val)
    {
      var b := Bucket(key);
      ghost var chain := chains[b];
      assert Good(b);
      e := buckets[b];
      at := 0;
      while e != null
        invariant at <= |chain| && e == At(chain, at)
        invariant forall i :: 0 <= i < at ==> chain[i].key != key
        decreases |chain| - at
      {
        if e.key == key { return; }
        assert chain[at].next == At(chain, at + 1);
        e := e.next;
        at := at + 1;
      }
      assert !Has(chain, key);
    }

    /** `arr_get` without creation. */
    method Lookup(key: string) returns (found: Option<Val>)
      requires Valid()
      ensures found == View(key)
    {
      var e, at := Find(key);
      if e == null { return None; }
      return Some(e.val);
    }

    /** `arr_get` with creation: a new entry goes to the front of its bucket. */
    method GetOrCreate(key: string) returns (e: Entry, ghost at: nat)
      requires Valid()
      modifies this, buckets
      ensures Valid() && fresh(repr - old(repr))
      ensures e.key == key && at < |chains[Bucket(key)]| && e == chains[Bucket(key)][at]
      ensures View(key) == Some(e.val)
      ensures View(key) == if old(View(key)) == None then Some(Uninit) else old(View(key))
      ensures forall k :: k != key ==> View(k) == old(View(k))
    {
      hide Linked, Keyed, Stores, Has;
      var b := Bucket(key);
      var found, place := Find(key);
      if found != null { return found, place; }
      assert Good(b);
      at := 0;
      e := new Entry(key, buckets[b]);
      PushLinked(buckets[b], chains[b], e);
      PushFront(hash, b, chains[b], pairs[b], e);
      buckets[b] := e;
      chains := chains[b := [e] + chains[b]];
      repr := repr + {e};
      pairs := pairs[b := pairs[b][key := Uninit]];
      forall c | 0 <= c < BUCKETS ensures Good(c) {
        assert old(Good(c));
      }
    }

    /** The store through the pointer that `arr_get` returns. */
    method Store(e: Entry, ghost b: nat, ghost at: nat, v: Val)
      requires Valid() && b < BUCKETS && at < |chains[b]| && e == chains[b][at]
      modifies this, e
      ensures Valid() && repr == old(repr)
      ensures View(e.key) == Some(v)
      ensures forall k :: k != e.key ==> View(k) == old(View(k))
    {
      hide Linked, Keyed, Stores, Has, LinkedBy, StoredBy;
      assert Good(b);
      InBucket(b, at);
      Distinct(hash, b, chains[b]);
      ghost var nexts, vals := Freeze(buckets[b], chains[b], pairs[b]);
      e.val := v;
      Overwritten(hash, b, buckets[b], chains[b], nexts, vals, pairs[b], at);
      pairs := pairs[b := pairs[b][e.key := v]];
      forall c | 0 <= c < BUCKETS ensures Good(c) {
        assert old(Good(c));
        if c != b { Elsewhere(hash, c, chains[c], e); }
      }
    }

    /** Assignment to an element, created when it is missing. */
    method Put(key: string, v: Val)
      requires Valid()
      modifies this, buckets, repr
      ensures Valid() && fresh(repr - old(repr))
      ensures View(key) == Some(v)
      ensures forall k :: k != key ==> View(k) == old(View(k))
    {
      hide Linked, Keyed, Stores, Has;
      var e, at := GetOrCreate(key);
      Store(e, Bucket(key), at, v);
    }

    /** The write at the end of `arr_del`: the link that led to `e` now skips it. */
    method Unlink(b: nat, ghost at: nat, prev: Entry?, e: Entry)
      requires Valid() && b < BUCKETS && at < |chains[b]| && e == chains[b][at]
      requires prev == if at == 0 then null else chains[b][at - 1]
      modifies this, buckets, repr
      ensures Valid() && repr == old(repr)
      ensures View(e.key) == None
      ensures forall k :: k != e.key ==> View(k) == old(View(k))
    {
      hide Linked, Keyed, Stores, Has, LinkedBy, StoredBy;
      ghost var chain := chains[b];
      assert Good(b);
      InBucket(b, at);
      Distinct(hash, b, chain);
      ghost var nexts, vals := Freeze(buckets[b], chain, pairs[b]);
      if prev == null {
        buckets[b] := e.next;
      } else {
        InBucket(b, at - 1);
        prev.next := e.next;
      }
      CutOut(old(buckets[b]), chain, nexts, at, buckets[b]);
      StoresWithout(hash, b, chain, vals, pairs[b], at);
      KeyedWithout(hash, b, chain, at);
      chains := chains[b := Without(chain, at)];
      pairs := pairs[b := pairs[b] - {e.key}];
      forall c | 0 <= c < BUCKETS ensures Good(c) {
        assert old(Good(c));
        if c != b && prev != null { Elsewhere(hash, c, chains[c], prev); }
      }
    }

    /** `arr_del`: unlinks the entry of `key`, if there is one. */
    method Delete(key: string)
      requires Valid()
      modifies this, buckets, repr
      ensures Valid() && repr == old(repr)
      ensures View(key) == None
      ensures forall k :: k != key ==> View(k) == old(View(k))
    {
      hide Linked, Keyed, Stores, Has;
      var b := Bucket(key);
      ghost var chain := chains[b];
      assert Good(b);
      LinkAt(buckets[b], chain, 0);
      var prev: Entry?, e := null, buckets[b];
      ghost var at := 0;
      while e != null && e.key != key
        invariant at <= |chain| && e == At(chain, at)
        invariant prev == if at == 0 then null else chain[at - 1]
        invariant forall i :: 0 <= i < at ==> chain[i].key != key
        modifies {}
        decreases |chain| - at
      {
        LinkAt(buckets[b], chain, at);
        prev, e := e, e.next;
        at := at + 1;
      }
      if e == null {
        NotHeld(chain, pairs[b], key);
      } else {
        Unlink(b, at, prev, e);
      }
    }

    /** `arr_clear`: every bucket emptied in turn. */
    method Clear()
      requires Valid()
      modifies this, buckets
      ensures Valid() && repr == old(repr)
      ensures forall k :: View(k) == None
    {
      hide Linked, Keyed, Stores, Has;
      for i := 0 to BUCKETS
        invariant Valid() && repr == old(repr)
        invariant forall b :: 0 <= b < i ==> pairs[b] == map[]
      {
        label Turn:
        buckets[i] := null;
        chains, pairs := chains[i := []], pairs[i := map[]];
        EmptyChain(hash, i);
        forall c | 0 <= c < BUCKETS ensures Good(c) {
          assert old@Turn(Good(c));
        }
      }
    }

    /** The keys a `for (k in a)` loop visits, collected before its first turn. */
    method Keys() returns (keys: seq<string>)
      requires Valid()
      ensures forall k :: k in keys <==> View(k) != None
      ensures NoRepeats(keys)
    {
      hide Linked, Keyed, Stores, Has;
      keys := [];
      for i := 0 to BUCKETS
        invariant NoRepeats(keys)
        invariant forall k :: k in keys <==> Bucket(k) < i && View(k) != None
      {
        assert Good(i);
        var chain := BucketWalk(i);
        BucketKeys(hash, i, chains[i], pairs[i]);
        NoRepeatsCat(keys, chain);
        keys := keys + chain;
      }
    }

    method BucketWalk(b: nat) returns (keys: seq<string>)
      requires Valid() && b < BUCKETS
      ensures keys == KeysOf(chains[b])
    {
      hide Linked, Keyed, Stores, Has;
      ghost var chain := chains[b];
      assert Good(b);
      LinkAt(buckets[b], chain, 0);
      var e := buckets[b];
      keys := [];
      while e != null
        invariant |keys| <= |chain| && e == At(chain, |keys|)
        invariant keys == KeysOf(chain)[..|keys|]
        decreases |chain| - |keys|
      {
        LinkAt(buckets[b], chain, |keys|);
        keys := keys + [e.key];
        e := e.next;
      }
    }

    /** One operation, on the array and on the map. */
    method Do(op: Op, ghost m: Table) returns (a: Answer)
      requires Valid() && Is(m)
      modifies this, buckets, repr
      ensures Valid() && fresh(repr - old(repr))
      ensures Is(Apply(m, op).0) && a == Apply(m, op).1
    {
      hide Good, View;
      a := Done;
      match op
      case Read(k) => var e, _ := GetOrCreate(k); a := Value(e.val);
      case Holds(k) => var found := Lookup(k); a := Yes(found.Some?);
      case Assign(k, v) => Put(k, v);
      case Drop(k) => Delete(k);
      case Wipe => Clear();
    }

    /** Any sequence of operations answers as the map does, and leaves what the map has. */
    method Run(ops: seq<Op>, ghost m: Table) returns (answers: seq<Answer>)
      requires Valid() && Is(m)
      modifies this, buckets, repr
      ensures Valid() && fresh(repr - old(repr))
      ensures Is(ApplyAll(m, ops).0) && answers == ApplyAll(m, ops).1
    {
      hide Good, Is, Apply;
      answers := [];
      for i := 0 to |ops|
        invariant Valid() && fresh(repr - old(repr))
        invariant Is(ApplyAll(m, ops[..i]).0) && answers == ApplyAll(m, ops[..i]).1
      {
        assert ops[..i + 1][..i] == ops[..i];
        var a := Do(ops[i], ApplyAll(m, ops[..i]).0);
        answers := answers + [a];
      }
      assert ops[..|ops|] == ops;
    }
  }
}
