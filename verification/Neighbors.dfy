/** Index-distance pairs, their ordering and their sentinel (include/svs/lib/neighbor.h,
    include/svs/lib/type_traits.h), the bounded merge of two sorted rows
    (include/svs/lib/algorithms.h), and what it means for a row to hold the best entries of
    a pool of candidates. */
module Neighbors {

  datatype Neighbor = Neighbor(id: nat, distance: real)

  /** The comparison a distance functor prescribes: small is good, or large is good. */
  datatype Compare = Less | Greater

  /** The largest finite `float`; an infinite distance is any number beyond it. */
  const FLOAT_MAX: real := 340282346638528859811704183484516925440.0
  const ID_MAX: nat := 0xFFFF_FFFF_FFFF_FFFF

  function Sentinel(c: Compare): Neighbor {
    Neighbor(ID_MAX, if c.Less? then FLOAT_MAX else -FLOAT_MAX)
  }

  /** `cmp(x, y)`. */
  predicate Better(c: Compare, x: Neighbor, y: Neighbor) {
    if c.Less? then x.distance < y.distance else x.distance > y.distance
  }

  /** By distance; ties in any order. */
  ghost predicate Sorted(c: Compare, s: seq<Neighbor>) {
    forall i, j :: 0 <= i < j < |s| ==> !Better(c, s[j], s[i])
  }

  /** The next `n` entries of the merge of `a` and `b`, of which `i` and `j` entries are
      already taken; on a tie `b` goes first. */
  function MergeFrom(c: Compare, a: seq<Neighbor>, b: seq<Neighbor>, i: nat, j: nat, n: nat): (m: seq<Neighbor>)
    requires i <= |a| && j <= |b| && n <= |a| - i + |b| - j
    ensures |m| == n
    decreases n
  {
    if n == 0 then []
    else if i == |a| then [b[j]] + MergeFrom(c, a, b, i, j + 1, n - 1)
    else if j == |b| || Better(c, a[i], b[j]) then [a[i]] + MergeFrom(c, a, b, i + 1, j, n - 1)
    else [b[j]] + MergeFrom(c, a, b, i, j + 1, n - 1)
  }

  function Merge(c: Compare, a: seq<Neighbor>, b: seq<Neighbor>, n: nat): (m: seq<Neighbor>)
    requires n <= |a| + |b|
    ensures |m| == n
  {
    MergeFrom(c, a, b, 0, 0, n)
  }

  /** Which input a merge takes its first element from. */
  predicate TakesFirst(c: Compare, a: seq<Neighbor>, b: seq<Neighbor>, i: nat, j: nat)
    requires i <= |a| && j <= |b| && |a| - i + |b| - j > 0
  {
    i != |a| && (j == |b| || Better(c, a[i], b[j]))
  }

  /** The rest of a merge is its next element and the rest after it. */
  lemma MergeStep(c: Compare, a: seq<Neighbor>, b: seq<Neighbor>, i: nat, j: nat, n: nat, done: seq<Neighbor>)
    requires i <= |a| && j <= |b| && 0 < n <= |a| - i + |b| - j
    ensures var takes := TakesFirst(c, a, b, i, j);
      done + MergeFrom(c, a, b, i, j, n)
        == (done + [if takes then a[i] else b[j]])
           + MergeFrom(c, a, b, if takes then i + 1 else i, if takes then j else j + 1, n - 1)
  {
  }

  /** `bounded_merge` into the range `first..last` of `output`. */
  method BoundedMerge(c: Compare, input1: seq<Neighbor>, input2: seq<Neighbor>,
      output: array<Neighbor>, first: nat, last: nat)
    requires first <= last <= output.Length
    requires last - first <= |input1| + |input2|
    modifies output
    ensures output[first..last] == Merge(c, input1, input2, last - first)
    ensures forall k :: 0 <= k < output.Length && !(first <= k < last) ==> output[k] == old(output[k])
    ensures InOrder(c, input1) && InOrder(c, input2) ==> InOrder(c, output[first..last])
  {
    hide MergeFrom, Better, InOrder;
    MergeInOrder(c, input1, input2, last - first);
    ghost var merged, done: seq<Neighbor> := Merge(c, input1, input2, last - first), [];
    var i, j, d := 0, 0, first;
    while d != last
      invariant first <= d <= last && i <= |input1| && j <= |input2| && i + j == d - first
      invariant |done| == d - first && done + MergeFrom(c, input1, input2, i, j, last - d) == merged
      invariant forall k :: 0 <= k < |done| ==> output[first + k] == done[k]
      invariant forall k :: 0 <= k < output.Length && !(first <= k < d) ==> output[k] == old(output[k])
      decreases last - d
    {
      MergeStep(c, input1, input2, i, j, last - d, done);
      ghost var takes, i', j' := TakesFirst(c, input1, input2, i, j), i, j;
      if i == |input1| {
        output[d] := input2[j];
        j := j + 1;
      } else if j == |input2| {
        output[d] := input1[i];
        i := i + 1;
      } else if Better(c, input1[i], input2[j]) {
        output[d] := input1[i];
        i := i + 1;
      } else {
        output[d] := input2[j];
        j := j + 1;
      }
      assert output[d] == if takes then input1[i'] else input2[j'];
      assert (i, j) == if takes then (i' + 1, j') else (i', j' + 1);
      done := done + [output[d]];
      d := d + 1;
    }
  }

  // ----- In plain distances

  /** Ascending for `Less`, descending for `Greater`. */
  ghost predicate InOrder(c: Compare, s: seq<Neighbor>) {
    match c
    case Less => forall i, j :: 0 <= i < j < |s| ==> s[i].distance <= s[j].distance
    case Greater => forall i, j :: 0 <= i < j < |s| ==> s[i].distance >= s[j].distance
  }

  /** `row` is in order, made of the pool, and no candidate left out has a smaller distance than
      any of it, or a larger one. */
  ghost predicate Ranks(c: Compare, row: seq<Neighbor>, pool: multiset<Neighbor>) {
    && InOrder(c, row) && multiset(row) <= pool
    && match c
       case Less => forall x, i :: x in pool - multiset(row) && 0 <= i < |row| ==> row[i].distance <= x.distance
       case Greater => forall x, i :: x in pool - multiset(row) && 0 <= i < |row| ==> row[i].distance >= x.distance
  }

  /** A distance below the largest `float`, or above the least. */
  predicate Finite(c: Compare, distance: real) {
    match c
    case Less => distance < FLOAT_MAX
    case Greater => distance > -FLOAT_MAX
  }

  lemma SortedIsInOrder(c: Compare, s: seq<Neighbor>)
    ensures Sorted(c, s) <==> InOrder(c, s)
  {
  }

  lemma BestRanks(c: Compare, row: seq<Neighbor>, pool: multiset<Neighbor>)
    ensures IsBest(c, row, pool) <==> Ranks(c, row, pool)
  {
    SortedIsInOrder(c, row);
  }

  lemma BeatsSentinel(c: Compare, x: Neighbor)
    ensures Better(c, x, Sentinel(c)) <==> Finite(c, x.distance)
  {
  }

  /** On a tie the second input goes first. */
  lemma TieTakesSecond(c: Compare, a: seq<Neighbor>, b: seq<Neighbor>, n: nat)
    requires a != [] && b != [] && 0 < n <= |a| + |b| && a[0].distance == b[0].distance
    ensures Merge(c, a, b, n)[0] == b[0]
  {
  }

  lemma MergeInOrder(c: Compare, a: seq<Neighbor>, b: seq<Neighbor>, n: nat)
    requires n <= |a| + |b|
    ensures InOrder(c, a) && InOrder(c, b) ==> InOrder(c, Merge(c, a, b, n))
  {
    SortedIsInOrder(c, a);
    SortedIsInOrder(c, b);
    SortedIsInOrder(c, Merge(c, a, b, n));
    if InOrder(c, a) && InOrder(c, b) {
      var i, j := MergeSplits(c, a, b, 0, 0, n);
    }
  }

  // ----- Merging is choosing

  /** `row` is sorted and nothing of `pool` left out of it is better than any of it. */
  ghost predicate IsBest(c: Compare, row: seq<Neighbor>, pool: multiset<Neighbor>) {
    && Sorted(c, row)
    && multiset(row) <= pool
    && forall x, i :: x in pool - multiset(row) && 0 <= i < |row| ==> !Better(c, x, row[i])
  }

  /** Nothing from position `i` on in `s` belongs before any of `m`. */
  ghost predicate NoneBefore(c: Compare, s: seq<Neighbor>, i: nat, m: seq<Neighbor>) {
    forall l, k :: i <= l < |s| && 0 <= k < |m| ==> !Better(c, s[l], m[k])
  }

  /** `m` is sorted, made of a stretch of each input, and followed by what is left. */
  ghost predicate Splits(c: Compare, a: seq<Neighbor>, b: seq<Neighbor>, i: nat, j: nat, i': nat, j': nat,
      m: seq<Neighbor>) {
    && i <= i' <= |a| && j <= j' <= |b|
    && Sorted(c, m)
    && multiset(m) == multiset(a[i..i']) + multiset(b[j..j'])
    && NoneBefore(c, a, i', m) && NoneBefore(c, b, j', m)
  }

  /** The merge takes a stretch of each input; what it leaves comes no earlier than
      anything it took. */
  lemma {:induction false} MergeSplits(c: Compare, a: seq<Neighbor>, b: seq<Neighbor>, i: nat, j: nat, n: nat)
    returns (i': nat, j': nat)
    requires i <= |a| && j <= |b| && n <= |a| - i + |b| - j
    requires Sorted(c, a) && Sorted(c, b)
    ensures Splits(c, a, b, i, j, i', j', MergeFrom(c, a, b, i, j, n))
    ensures i' - i + j' - j == n
    decreases n
  {
    if n == 0 {
      return i, j;
    }
    if i < |a| && (j == |b| || Better(c, a[i], b[j])) {
      i', j' := MergeSplits(c, a, b, i + 1, j, n - 1);
      TakeFromFirst(c, a, b, i, j, i', j', MergeFrom(c, a, b, i + 1, j, n - 1));
    } else {
      i', j' := MergeSplits(c, a, b, i, j + 1, n - 1);
      TakeFromSecond(c, a, b, i, j, i', j', MergeFrom(c, a, b, i, j + 1, n - 1));
    }
  }

  lemma TakeFromFirst(c: Compare, a: seq<Neighbor>, b: seq<Neighbor>, i: nat, j: nat, i': nat, j': nat,
      m: seq<Neighbor>)
    requires Sorted(c, a) && Sorted(c, b) && i < |a|
    requires Splits(c, a, b, i + 1, j, i', j', m)
    requires j < |b| ==> Better(c, a[i], b[j])
    ensures Splits(c, a, b, i, j, i', j', [a[i]] + m)
  {
    assert a[i..i'] == [a[i]] + a[i + 1..i'];
    HeadIsFirst(c, a, i + 1, a[i]);
    HeadIsFirst(c, b, j, a[i]);
    PrependLeast(c, a, b, i + 1, j, i', j', a[i], m);
  }

  lemma TakeFromSecond(c: Compare, a: seq<Neighbor>, b: seq<Neighbor>, i: nat, j: nat, i': nat, j': nat,
      m: seq<Neighbor>)
    requires Sorted(c, a) && Sorted(c, b) && j < |b|
    requires Splits(c, a, b, i, j + 1, i', j', m)
    requires i < |a| ==> !Better(c, a[i], b[j])
    ensures Splits(c, a, b, i, j, i', j', [b[j]] + m)
  {
    assert b[j..j'] == [b[j]] + b[j + 1..j'];
    HeadIsFirst(c, a, i, b[j]);
    HeadIsFirst(c, b, j + 1, b[j]);
    PrependLeast(c, a, b, i, j + 1, i', j', b[j], m);
  }

  lemma HeadIsFirst(c: Compare, s: seq<Neighbor>, i: nat, h: Neighbor)
    requires Sorted(c, s)
    requires i < |s| ==> !Better(c, s[i], h)
    ensures NoneBefore(c, s, i, [h])
  {
    forall l | i < l < |s| ensures !Better(c, s[l], h) {
      assert !Better(c, s[l], s[i]);
    }
  }

  lemma PrependLeast(c: Compare, a: seq<Neighbor>, b: seq<Neighbor>, i: nat, j: nat, i': nat, j': nat,
      h: Neighbor, m: seq<Neighbor>)
    requires Splits(c, a, b, i, j, i', j', m)
    requires NoneBefore(c, a, i, [h]) && NoneBefore(c, b, j, [h])
    ensures Sorted(c, [h] + m) && NoneBefore(c, a, i', [h] + m) && NoneBefore(c, b, j', [h] + m)
    ensures multiset([h] + m) == multiset([h] + a[i..i']) + multiset(b[j..j'])
    ensures multiset([h] + m) == multiset(a[i..i']) + multiset([h] + b[j..j'])
  {
    forall k | 0 <= k < |m| ensures !Better(c, m[k], [h][0]) {
      assert m[k] in multiset(m);
      if m[k] in a[i..i'] {
        var l :| i <= l < i' && a[l] == m[k];
      } else {
        assert m[k] in b[j..j'];
        var l :| j <= l < j' && b[l] == m[k];
      }
    }
    forall l | i' <= l < |a| ensures !Better(c, a[l], h) {
      assert !Better(c, a[l], [h][0]);
    }
    forall l | j' <= l < |b| ensures !Better(c, b[l], h) {
      assert !Better(c, b[l], [h][0]);
    }
  }

  /** Merging the best of two pools gives the best of both together. */
  lemma MergeIsBest(c: Compare, a: seq<Neighbor>, pa: multiset<Neighbor>, b: seq<Neighbor>, pb: multiset<Neighbor>)
    requires |a| == |b| && IsBest(c, a, pa) && IsBest(c, b, pb)
    ensures IsBest(c, Merge(c, a, b, |a|), pa + pb)
  {
    var m := Merge(c, a, b, |a|);
    var i, j := MergeSplits(c, a, b, 0, 0, |a|);
    Halves(a, i);
    Halves(b, j);
    forall x, k | x in (pa + pb) - multiset(m) && 0 <= k < |m| ensures !Better(c, x, m[k]) {
      LeftOutOfMerge(c, a, pa, b, pb, i, j, m, x, k);
    }
  }

  lemma LeftOutOfMerge(c: Compare, a: seq<Neighbor>, pa: multiset<Neighbor>, b: seq<Neighbor>, pb: multiset<Neighbor>,
      i: nat, j: nat, m: seq<Neighbor>, x: Neighbor, k: nat)
    requires IsBest(c, a, pa) && IsBest(c, b, pb)
    requires Splits(c, a, b, 0, 0, i, j, m) && |a| == |b| == |m| == i + j
    requires x in (pa + pb) - multiset(m) && k < |m|
    ensures !Better(c, x, m[k])
  {
    Halves(a, i);
    Halves(b, j);
    assert m[k] in multiset(m);
    if x in a[i..] {
      var l :| i <= l < |a| && a[l] == x;
    } else if x in b[j..] {
      var l :| j <= l < |b| && b[l] == x;
    } else if x in pa - multiset(a) {
      LeftOutOfRow(c, a, pa, i, x, m[k]);
    } else {
      assert x in pb - multiset(b);
      LeftOutOfRow(c, b, pb, j, x, m[k]);
    }
  }

  lemma Halves(s: seq<Neighbor>, i: nat)
    requires i <= |s|
    ensures multiset(s) == multiset(s[..i]) + multiset(s[i..])
    ensures s[0..i] == s[..i]
  {
    assert s == s[..i] + s[i..];
  }

  /** A candidate its own row left out comes no earlier than what the merge took. */
  lemma LeftOutOfRow(c: Compare, row: seq<Neighbor>, pool: multiset<Neighbor>, i: nat, x: Neighbor, y: Neighbor)
    requires IsBest(c, row, pool) && x in pool - multiset(row) && i <= |row|
    requires if i < |row| then !Better(c, row[i], y) else y in row
    ensures !Better(c, x, y)
  {
    if i == |row| {
      var l :| 0 <= l < |row| && row[l] == y;
    } else {
      assert !Better(c, x, row[i]);
    }
  }

  /** Two best rows of one pool agree in every distance: only ties are left open. */
  lemma BestDistancesUnique(c: Compare, r: seq<Neighbor>, s: seq<Neighbor>, pool: multiset<Neighbor>, k: nat)
    requires IsBest(c, r, pool) && IsBest(c, s, pool) && k < |r| == |s|
    ensures r[k].distance == s[k].distance
  {
    if Better(c, r[k], s[k]) {
      TooManyBefore(c, r, s, pool, k);
    } else if Better(c, s[k], r[k]) {
      TooManyBefore(c, s, r, pool, k);
    }
  }

  lemma TooManyBefore(c: Compare, r: seq<Neighbor>, s: seq<Neighbor>, pool: multiset<Neighbor>, k: nat)
    requires IsBest(c, r, pool) && IsBest(c, s, pool) && k < |r| == |s|
    ensures !Better(c, r[k], s[k])
  {
    if Better(c, r[k], s[k]) {
      var head, below := r[..k + 1], s[..k];
      assert r == head + r[k + 1..] && s == below + s[k..];
      assert multiset(r) == multiset(head) + multiset(r[k + 1..]);
      assert multiset(s) == multiset(below) + multiset(s[k..]);
      forall x | x in multiset(head) ensures multiset(head)[x] <= multiset(below)[x] {
        var i :| 0 <= i <= k && r[i] == x;
        assert Better(c, x, s[k]);
        assert x !in pool - multiset(s);
        forall l | k <= l < |s| ensures s[l] != x {
          assert l == k || !Better(c, s[l], s[k]);
        }
        assert multiset(s[k..])[x] == 0;
      }
      SubsetSize(multiset(head), multiset(below));
    }
  }

  lemma {:induction false} SubsetSize(a: multiset<Neighbor>, b: multiset<Neighbor>)
    requires forall x :: x in a ==> a[x] <= b[x]
    ensures |a| <= |b|
  {
    assert a <= b;
    assert b == a + (b - a);
  }
}
