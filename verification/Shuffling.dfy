/** `shuffle`: exchange every position with an arbitrary later one. The random choices are
    left open, so a caller sees an arbitrary permutation (include/svs/misc/dynamic_helper.h). */
module Shuffling {
  import opened Algorithms

  method Shuffle<T>(s: seq<T>) returns (p: seq<T>)
    ensures multiset(p) == multiset(s) && |p| == |s|
  {
    p := s;
    for i := 0 to |s|
      invariant multiset(p) == multiset(s) && |p| == |s|
    {
      var j :| i <= j < |p|;
      p := p[i := p[j]][j := p[i]];
    }
  }

  lemma {:induction false} DistinctCount<T>(s: seq<T>, x: T)
    requires Distinct(s)
    ensures multiset(s)[x] <= 1
  {
    if s != [] {
      var last := |s| - 1;
      assert s == s[..last] + [s[last]];
      DistinctCount(s[..last], x);
      if s[last] == x {
        assert x !in s[..last];
      }
    }
  }

  /** Shuffling keeps the elements distinct. */
  lemma DistinctPermuted<T>(s: seq<T>, p: seq<T>)
    requires Distinct(s) && multiset(p) == multiset(s)
    ensures Distinct(p)
    ensures forall x :: x in p <==> x in s
  {
    forall x ensures x in p <==> x in s {
      assert x in p <==> x in multiset(p);
      assert x in s <==> x in multiset(s);
    }
    forall i, j | 0 <= i < j < |p| ensures p[i] != p[j] {
      if p[i] == p[j] {
        DistinctCount(s, p[i]);
        TwiceCounts(p, i, j);
      }
    }
  }

  lemma TwiceCounts<T>(s: seq<T>, i: nat, j: nat)
    requires i < j < |s| && s[i] == s[j]
    ensures multiset(s)[s[i]] >= 2
  {
    assert s == s[..i] + [s[i]] + s[i + 1..j] + [s[j]] + s[j + 1..];
  }

  function Iota(n: nat): (s: seq<nat>)
    ensures |s| == n && Distinct(s) && forall i :: 0 <= i < n ==> s[i] == i
  {
    seq(n, i requires 0 <= i < n => i)
  }

  ghost predicate Hits(p: seq<nat>, j: nat) {
    exists c :: 0 <= c < |p| && p[c] == j
  }

  /** A shuffled `0..n` hits every position exactly once. */
  lemma PermutedIota(n: nat, p: seq<nat>)
    requires multiset(p) == multiset(Iota(n)) && |p| == n
    ensures Distinct(p)
    ensures forall c :: 0 <= c < n ==> p[c] < n
    ensures forall j: nat :: j < n ==> Hits(p, j)
  {
    DistinctPermuted(Iota(n), p);
    forall c | 0 <= c < n ensures p[c] < n {
      assert p[c] in p;
    }
    forall j: nat | j < n ensures Hits(p, j) {
      assert Iota(n)[j] in Iota(n);
      assert j in p;
    }
  }
}
