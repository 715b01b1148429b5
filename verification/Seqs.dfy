/** Facts about slices that several proofs share. */
module Seqs {

  /** A slice of a slice. */
  lemma SubSlice<T>(s: seq<T>, p: nat, q: nat, a: nat, b: nat)
    requires p <= q <= |s| && a <= b <= q - p
    ensures s[p..q][a..b] == s[p + a..p + b]
  {
    var part := s[p..q];
    assert |part[a..b]| == |s[p + a..p + b]|;
    forall i | 0 <= i < b - a ensures part[a..b][i] == s[p + a..p + b][i] {
      assert part[a..b][i] == part[a + i] == s[p + (a + i)];
    }
  }

  lemma Inner<T>(h: T, u: seq<T>, c: T)
    ensures ([h] + u + [c])[1..1 + |u|] == u
  {
  }

  lemma Halves<T>(h: T, u: seq<T>, m: T, v: seq<T>, c: T)
    ensures var s := [h] + u + [m] + v + [c];
      s[0..2 + |u|] == [h] + u + [m] && s[1 + |u|..3 + |u| + |v|] == [m] + v + [c]
  {
  }

  lemma Regroup<T>(a: seq<T>, b: seq<T>, c: seq<T>)
    ensures a + (b + c) == a + b + c
  {
  }
}
