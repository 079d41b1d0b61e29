/** Ground truth of a set of live buckets: the rows of the buckets folded together with
    `bounded_merge` (include/svs/misc/dynamic_helper.h), against the best entries of all
    live points taken at once. */
module TopK {
  import opened Neighbors

  /** The candidates that the ids `first..last` are for one query. */
  function Points(dist: nat -> real, first: nat, last: nat): multiset<Neighbor> {
    if last <= first then multiset{}
    else Points(dist, first, last - 1) + multiset{Neighbor(last - 1, dist(last - 1))}
  }

  lemma {:induction false} PointsAre(dist: nat -> real, first: nat, last: nat, x: Neighbor)
    requires x in Points(dist, first, last)
    ensures first <= x.id < last && x.distance == dist(x.id)
  {
    if x !in Points(dist, first, last - 1) {
      assert x == Neighbor(last - 1, dist(last - 1));
    } else {
      PointsAre(dist, first, last - 1, x);
    }
  }

  /** Each point is there once, and nothing else. */
  lemma {:induction false} PointsOnce(dist: nat -> real, first: nat, last: nat, x: Neighbor)
    ensures Points(dist, first, last)[x] == if first <= x.id < last && x.distance == dist(x.id) then 1 else 0
  {
    if first < last {
      PointsOnce(dist, first, last - 1, x);
    }
  }

  lemma {:induction false} PointsCount(dist: nat -> real, first: nat, last: nat)
    ensures |Points(dist, first, last)| == if first <= last then last - first else 0
  {
    if first < last {
      PointsCount(dist, first, last - 1);
    }
  }

  /** One query's view of a bucket: its ids and its precomputed row. */
  datatype Part = Part(first: nat, last: nat, row: seq<Neighbor>)

  /** What fills up a row. The search leaves a sentinel where it has no better point, and the
      view turns the id of the sentinel into the one before its own first. */
  function Filler(c: Compare, first: nat): Neighbor {
    Neighbor(if first == 0 then ID_MAX else first - 1, Sentinel(c).distance)
  }

  function Copies(x: Neighbor, k: nat): multiset<Neighbor> {
    multiset{}[x := k]
  }

  /** What the row of a bucket is chosen from. */
  function Candidates(c: Compare, k: nat, dist: nat -> real, first: nat, last: nat): multiset<Neighbor> {
    Points(dist, first, last) + Copies(Filler(c, first), k)
  }

  ghost predicate RowIsBest(c: Compare, k: nat, dist: nat -> real, p: Part) {
    |p.row| == k && IsBest(c, p.row, Candidates(c, k, dist, p.first, p.last))
  }

  // ----- Ranking all points

  function Insert(c: Compare, x: Neighbor, s: seq<Neighbor>): (r: seq<Neighbor>)
    ensures |r| == |s| + 1
  {
    if s == [] || !Better(c, s[0], x) then [x] + s else [s[0]] + Insert(c, x, s[1..])
  }

  /** All the points of `first..last` in order. */
  function Ranked(c: Compare, dist: nat -> real, first: nat, last: nat): (r: seq<Neighbor>)
    ensures |r| == if first < last then last - first else 0
    decreases last
  {
    if last <= first then [] else Insert(c, Neighbor(last - 1, dist(last - 1)), Ranked(c, dist, first, last - 1))
  }

  lemma {:induction false} InsertKeeps(c: Compare, x: Neighbor, s: seq<Neighbor>)
    requires Sorted(c, s)
    ensures Sorted(c, Insert(c, x, s)) && multiset(Insert(c, x, s)) == multiset(s) + multiset{x}
  {
    if s != [] {
      assert s == [s[0]] + s[1..];
      if Better(c, s[0], x) {
        InsertKeeps(c, x, s[1..]);
        HeadStays(c, x, s, Insert(c, x, s[1..]));
      }
    }
  }

  lemma HeadStays(c: Compare, x: Neighbor, s: seq<Neighbor>, rest: seq<Neighbor>)
    requires s != [] && Sorted(c, s) && Better(c, s[0], x)
    requires Sorted(c, rest) && multiset(rest) == multiset(s[1..]) + multiset{x}
    ensures Sorted(c, [s[0]] + rest)
  {
    forall j | 0 <= j < |rest| ensures !Better(c, rest[j], s[0]) {
      assert rest[j] in multiset(rest);
    }
  }

  lemma {:induction false} RankedAreAll(c: Compare, dist: nat -> real, first: nat, last: nat)
    ensures Sorted(c, Ranked(c, dist, first, last))
    ensures multiset(Ranked(c, dist, first, last)) == Points(dist, first, last)
    decreases last
  {
    hide Insert, Better;
    if first < last {
      RankedAreAll(c, dist, first, last - 1);
      InsertKeeps(c, Neighbor(last - 1, dist(last - 1)), Ranked(c, dist, first, last - 1));
    }
  }

  /** The ranked points with `n` fillers among them. */
  function Filled(c: Compare, dist: nat -> real, first: nat, last: nat, n: nat): (r: seq<Neighbor>)
    ensures |r| == |Ranked(c, dist, first, last)| + n
  {
    if n == 0 then Ranked(c, dist, first, last)
    else Insert(c, Filler(c, first), Filled(c, dist, first, last, n - 1))
  }

  lemma {:induction false} FilledAreAll(c: Compare, dist: nat -> real, first: nat, last: nat, n: nat)
    ensures Sorted(c, Filled(c, dist, first, last, n))
    ensures multiset(Filled(c, dist, first, last, n)) == Candidates(c, n, dist, first, last)
  {
    hide Insert, Better, Ranked, Points;
    if n == 0 {
      RankedAreAll(c, dist, first, last);
    } else {
      FilledAreAll(c, dist, first, last, n - 1);
      InsertKeeps(c, Filler(c, first), Filled(c, dist, first, last, n - 1));
      assert Copies(Filler(c, first), n) == Copies(Filler(c, first), n - 1) + multiset{Filler(c, first)};
    }
  }

  /** The first `k` of all points and fillers are a best row, so every bucket has one. */
  lemma FilledIsBest(c: Compare, k: nat, dist: nat -> real, first: nat, last: nat)
    ensures RowIsBest(c, k, dist, Part(first, last, Filled(c, dist, first, last, k)[..k]))
  {
    FilledAreAll(c, dist, first, last, k);
    PrefixIsBest(c, Filled(c, dist, first, last, k), k);
  }

  lemma PrefixIsBest(c: Compare, all: seq<Neighbor>, k: nat)
    requires Sorted(c, all) && k <= |all|
    ensures IsBest(c, all[..k], multiset(all))
  {
    assert all == all[..k] + all[k..];
    forall x, i | x in multiset(all) - multiset(all[..k]) && 0 <= i < k ensures !Better(c, x, all[..k][i]) {
      assert x in multiset(all[k..]);
      var j :| 0 <= j < |all[k..]| && all[k..][j] == x;
      assert all[k + j] == x;
    }
  }

  // ----- Folding rows

  predicate RowsHave(k: nat, parts: seq<Part>) {
    forall i :: 0 <= i < |parts| ==> |parts[i].row| == k
  }

  ghost predicate AllBest(c: Compare, k: nat, dist: nat -> real, parts: seq<Part>)
    ensures AllBest(c, k, dist, parts) ==> RowsHave(k, parts)
  {
    forall i :: 0 <= i < |parts| ==> RowIsBest(c, k, dist, parts[i])
  }

  /** `k` sentinels, then one merge per bucket. */
  function Folded(c: Compare, k: nat, parts: seq<Part>): (r: seq<Neighbor>)
    requires RowsHave(k, parts)
    ensures |r| == k
  {
    if parts == [] then seq(k, _ => Sentinel(c))
    else
      var last := |parts| - 1;
      Merge(c, Folded(c, k, parts[..last]), parts[last].row, k)
  }

  /** Everything some function finds in the parts. */
  ghost function Sum(of: Part -> multiset<Neighbor>, parts: seq<Part>): multiset<Neighbor> {
    if parts == [] then multiset{}
    else
      var last := |parts| - 1;
      Sum(of, parts[..last]) + of(parts[last])
  }

  ghost function PointsOf(dist: nat -> real): Part -> multiset<Neighbor> {
    (p: Part) => Points(dist, p.first, p.last)
  }

  ghost function CandidatesOf(c: Compare, k: nat, dist: nat -> real): Part -> multiset<Neighbor> {
    (p: Part) => Candidates(c, k, dist, p.first, p.last)
  }

  /** All live points. */
  ghost function Live(dist: nat -> real, parts: seq<Part>): multiset<Neighbor> {
    Sum(PointsOf(dist), parts)
  }

  /** All that the rows and the sentinels at the start are chosen from. */
  ghost function Pool(c: Compare, k: nat, dist: nat -> real, parts: seq<Part>): multiset<Neighbor> {
    Copies(Sentinel(c), k) + Sum(CandidatesOf(c, k, dist), parts)
  }

  /** A distance that beats the sentinel's. */
  predicate InRange(c: Compare, x: Neighbor) {
    Better(c, x, Sentinel(c))
  }

  ghost predicate AllInRange(c: Compare, row: seq<Neighbor>) {
    forall i :: 0 <= i < |row| ==> InRange(c, row[i])
  }

  /** What is in range is live, and what is neither is as far as the sentinel. */
  lemma {:induction false} PoolIsLive(c: Compare, k: nat, dist: nat -> real, parts: seq<Part>, x: Neighbor)
    ensures InRange(c, x) ==> Pool(c, k, dist, parts)[x] == Live(dist, parts)[x]
    ensures Live(dist, parts)[x] <= Pool(c, k, dist, parts)[x]
    ensures x in Pool(c, k, dist, parts) && x !in Live(dist, parts) ==> x.distance == Sentinel(c).distance
  {
    hide Candidates, Points;
    if parts != [] {
      var p := parts[|parts| - 1];
      PoolIsLive(c, k, dist, parts[..|parts| - 1], x);
      CandidateIsPoint(c, k, dist, p.first, p.last, x);
    }
  }

  lemma CandidateIsPoint(c: Compare, k: nat, dist: nat -> real, first: nat, last: nat, x: Neighbor)
    ensures InRange(c, x) ==> Candidates(c, k, dist, first, last)[x] == Points(dist, first, last)[x]
    ensures Points(dist, first, last)[x] <= Candidates(c, k, dist, first, last)[x]
    ensures x in Candidates(c, k, dist, first, last) && x !in Points(dist, first, last) ==>
      x.distance == Sentinel(c).distance
  {
  }

  lemma {:induction false} SentinelRow(c: Compare, k: nat)
    ensures multiset(seq(k, _ => Sentinel(c))) == Copies(Sentinel(c), k)
  {
    var row := seq(k, _ => Sentinel(c));
    if k > 0 {
      SentinelRow(c, k - 1);
      assert row == seq(k - 1, _ => Sentinel(c)) + [Sentinel(c)];
    } else {
      assert row == [];
    }
  }

  /** The folded row is the best of all live points, fillers and sentinels, always. */
  lemma {:induction false} FoldedIsBest(c: Compare, k: nat, dist: nat -> real, parts: seq<Part>)
    requires AllBest(c, k, dist, parts)
    ensures IsBest(c, Folded(c, k, parts), Pool(c, k, dist, parts))
  {
    if parts == [] {
      SentinelRow(c, k);
    } else {
      var last := |parts| - 1;
      var p := parts[last];
      FoldedIsBest(c, k, dist, parts[..last]);
      MergeIsBest(c, Folded(c, k, parts[..last]), Pool(c, k, dist, parts[..last]),
        p.row, Candidates(c, k, dist, p.first, p.last));
      assert Pool(c, k, dist, parts) == Pool(c, k, dist, parts[..last]) + Candidates(c, k, dist, p.first, p.last);
    }
  }

  /** Nothing in the row is worse than the sentinel: each entry is a live point in range, or as
      far as the sentinel. */
  lemma EntryIs(c: Compare, k: nat, dist: nat -> real, parts: seq<Part>, i: nat)
    requires AllBest(c, k, dist, parts) && i < k
    ensures var x := Folded(c, k, parts)[i];
      (InRange(c, x) && x in Live(dist, parts)) || x.distance == Sentinel(c).distance
  {
    var row := Folded(c, k, parts);
    FoldedIsBest(c, k, dist, parts);
    assert row[i] in multiset(row);
    PoolIsLive(c, k, dist, parts, row[i]);
    NotWorse(c, k, row, Pool(c, k, dist, parts), i);
  }

  lemma NotWorse(c: Compare, k: nat, row: seq<Neighbor>, pool: multiset<Neighbor>, i: nat)
    requires |row| == k && IsBest(c, row, pool) && Copies(Sentinel(c), k) <= pool && i < k
    ensures !Better(c, Sentinel(c), row[i])
  {
    if Better(c, Sentinel(c), row[i]) {
      assert Sentinel(c) !in pool - multiset(row);
      WithoutEntry(row, i);
      SubsetSize(Copies(Sentinel(c), k), multiset(row[..i] + row[i + 1..]));
    }
  }

  lemma WithoutEntry(row: seq<Neighbor>, i: nat)
    requires i < |row|
    ensures multiset(row) == multiset(row[..i] + row[i + 1..]) + multiset{row[i]}
  {
    assert row == row[..i] + [row[i]] + row[i + 1..];
  }

  /** `k` live points in range. */
  ghost predicate Enough(c: Compare, k: nat, live: multiset<Neighbor>, chosen: multiset<Neighbor>) {
    chosen <= live && |chosen| == k && forall x :: x in chosen ==> InRange(c, x)
  }

  ghost predicate EnoughInRange(c: Compare, k: nat, live: multiset<Neighbor>) {
    exists chosen :: Enough(c, k, live, chosen)
  }

  /** All entries of the ground truth row are in range exactly when `k` live points are, and then
      it is the best of the live points. If no live point is exactly as far as the sentinel, it
      is the best of them only then. */
  lemma GroundTruthIff(c: Compare, k: nat, dist: nat -> real, parts: seq<Part>)
    requires AllBest(c, k, dist, parts)
    ensures var row, live := Folded(c, k, parts), Live(dist, parts);
      && (AllInRange(c, row) <==> EnoughInRange(c, k, live))
      && (AllInRange(c, row) ==> IsBest(c, row, live))
      && ((forall x :: x in live ==> x.distance != Sentinel(c).distance) ==>
        (AllInRange(c, row) <==> IsBest(c, row, live)))
  {
    var row, live := Folded(c, k, parts), Live(dist, parts);
    if AllInRange(c, row) {
      RowInRange(c, k, dist, parts);
    } else {
      var i :| 0 <= i < k && !InRange(c, row[i]);
      assert row[i] in multiset(row);
      EntryIs(c, k, dist, parts, i);
      forall chosen: multiset<Neighbor> ensures !Enough(c, k, live, chosen) {
        NotAllChosen(c, k, dist, parts, chosen, i);
      }
    }
  }

  lemma RowInRange(c: Compare, k: nat, dist: nat -> real, parts: seq<Part>)
    requires AllBest(c, k, dist, parts) && AllInRange(c, Folded(c, k, parts))
    ensures Enough(c, k, Live(dist, parts), multiset(Folded(c, k, parts)))
    ensures IsBest(c, Folded(c, k, parts), Live(dist, parts))
  {
    var row, live, pool := Folded(c, k, parts), Live(dist, parts), Pool(c, k, dist, parts);
    FoldedIsBest(c, k, dist, parts);
    forall x | x in multiset(row) ensures InRange(c, x) && multiset(row)[x] <= live[x] {
      PoolIsLive(c, k, dist, parts, x);
    }
    forall x, i | x in live - multiset(row) && 0 <= i < |row| ensures !Better(c, x, row[i]) {
      PoolIsLive(c, k, dist, parts, x);
      assert x in pool - multiset(row);
    }
  }

  /** Points in range are all in the row, if it has an entry that is not. */
  lemma PointIsTaken(c: Compare, k: nat, dist: nat -> real, parts: seq<Part>, i: nat, x: Neighbor)
    requires AllBest(c, k, dist, parts) && i < k && !InRange(c, Folded(c, k, parts)[i]) && InRange(c, x)
    ensures var row := Folded(c, k, parts);
      Live(dist, parts)[x] <= multiset(row[..i] + row[i + 1..])[x]
  {
    var row := Folded(c, k, parts);
    EntryIs(c, k, dist, parts, i);
    FoldedIsBest(c, k, dist, parts);
    PoolIsLive(c, k, dist, parts, x);
    assert Better(c, x, row[i]);
    assert x !in Pool(c, k, dist, parts) - multiset(row);
    WithoutEntry(row, i);
  }

  /** An entry out of range means that there were not enough live points in range. */
  lemma NotAllChosen(c: Compare, k: nat, dist: nat -> real, parts: seq<Part>, chosen: multiset<Neighbor>, i: nat)
    requires AllBest(c, k, dist, parts) && i < k && !InRange(c, Folded(c, k, parts)[i])
    ensures !Enough(c, k, Live(dist, parts), chosen)
  {
    if Enough(c, k, Live(dist, parts), chosen) {
      var row := Folded(c, k, parts);
      forall x | x in chosen ensures chosen[x] <= multiset(row[..i] + row[i + 1..])[x] {
        PointIsTaken(c, k, dist, parts, i, x);
      }
      SubsetSize(chosen, multiset(row[..i] + row[i + 1..]));
    }
  }

  /** When every live distance is in range, as many live points as neighbors are enough. */
  lemma FiniteDistancesSuffice(c: Compare, k: nat, dist: nat -> real, parts: seq<Part>)
    requires AllBest(c, k, dist, parts) && |Live(dist, parts)| >= k
    requires forall x :: x in Live(dist, parts) ==> InRange(c, x)
    ensures AllInRange(c, Folded(c, k, parts)) && IsBest(c, Folded(c, k, parts), Live(dist, parts))
  {
    var row, live := Folded(c, k, parts), Live(dist, parts);
    if !AllInRange(c, row) {
      var i :| 0 <= i < k && !InRange(c, row[i]);
      forall x | x in live ensures live[x] <= multiset(row[..i] + row[i + 1..])[x] {
        PointIsTaken(c, k, dist, parts, i, x);
      }
      SubsetSize(live, multiset(row[..i] + row[i + 1..]));
    }
    GroundTruthIff(c, k, dist, parts);
  }

  /** A single live point at an infinite distance: the row holds the filler in its place, which is
      the sentinel for the first bucket, and names a point that is not live for any other. */
  lemma FillerIsShown(far: nat -> real, id: nat)
    requires far(id) > FLOAT_MAX && id <= ID_MAX
    ensures var p := Part(id, id + 1, [Filler(Less, id)]);
      && RowIsBest(Less, 1, far, p)
      && Folded(Less, 1, [p]) == [Filler(Less, id)]
      && Live(far, [p]) == multiset{Neighbor(id, far(id))}
      && Filler(Less, id).id != id
  {
    var (x, f) := (Neighbor(id, far(id)), Filler(Less, id));
    var p := Part(id, id + 1, [f]);
    assert Points(far, id, id) == multiset{};
    assert Points(far, id, id + 1) == multiset{x};
    assert Candidates(Less, 1, far, id, id + 1) == multiset{x, f} && multiset([f]) == multiset{f};
    assert [p][..0] == [] && Folded(Less, 1, []) == [Sentinel(Less)];
    assert Merge(Less, [Sentinel(Less)], [f], 1) == [f];
    assert Sum(PointsOf(far), []) == multiset{};
  }

  /** The distances of the row do not depend on the order of the buckets. */
  lemma BucketOrderOnlyTies(c: Compare, k: nat, dist: nat -> real, parts: seq<Part>, others: seq<Part>, j: nat)
    requires AllBest(c, k, dist, parts) && RowsHave(k, others)
    requires multiset(parts) == multiset(others) && j < k
    ensures Folded(c, k, parts)[j].distance == Folded(c, k, others)[j].distance
  {
    forall i | 0 <= i < |others| ensures RowIsBest(c, k, dist, others[i]) {
      assert others[i] in multiset(others);
      var l :| 0 <= l < |parts| && parts[l] == others[i];
    }
    FoldedIsBest(c, k, dist, parts);
    FoldedIsBest(c, k, dist, others);
    SumOfPermutation(CandidatesOf(c, k, dist), parts, others);
    BestDistancesUnique(c, Folded(c, k, parts), Folded(c, k, others), Pool(c, k, dist, parts), j);
  }

  lemma {:induction false} SumOfPermutation(of: Part -> multiset<Neighbor>, parts: seq<Part>, others: seq<Part>)
    requires multiset(parts) == multiset(others)
    ensures Sum(of, parts) == Sum(of, others)
    decreases |parts|
  {
    if parts == [] {
      assert |multiset(others)| == 0;
    } else {
      var last := |parts| - 1;
      assert parts == parts[..last] + [parts[last]];
      assert parts[last] in multiset(others);
      var i :| 0 <= i < |others| && others[i] == parts[last];
      WithoutOne(others, i);
      assert multiset(parts) == multiset(parts[..last]) + multiset{parts[last]};
      Cancel(multiset(parts[..last]), multiset(Without(others, i)), parts[last]);
      SumOfPermutation(of, parts[..last], Without(others, i));
      SumWithout(of, others, i);
    }
  }

  /** The order of the buckets does not matter to the points they hold. */
  lemma LiveOfPermutation(dist: nat -> real, parts: seq<Part>, others: seq<Part>)
    requires multiset(parts) == multiset(others)
    ensures Live(dist, parts) == Live(dist, others)
  {
    SumOfPermutation(PointsOf(dist), parts, others);
  }

  function Without(parts: seq<Part>, i: nat): seq<Part>
    requires i < |parts|
  {
    parts[..i] + parts[i + 1..]
  }

  lemma WithoutOne(parts: seq<Part>, i: nat)
    requires i < |parts|
    ensures multiset(parts) == multiset(Without(parts, i)) + multiset{parts[i]}
  {
    assert parts == parts[..i] + [parts[i]] + parts[i + 1..];
  }

  lemma {:induction false} SumWithout(of: Part -> multiset<Neighbor>, parts: seq<Part>, i: nat)
    requires i < |parts|
    ensures Sum(of, parts) == Sum(of, Without(parts, i)) + of(parts[i])
    decreases |parts|
  {
    var last := |parts| - 1;
    var pi := of(parts[i]);
    if i == last {
      assert Without(parts, i) == parts[..last];
    } else {
      var init, w := parts[..last], Without(parts, i);
      var pl := of(parts[last]);
      SumWithout(of, init, i);
      WithoutInit(parts, i);
      var a := Sum(of, Without(init, i));
      calc {
        Sum(of, parts);
        Sum(of, init) + pl;
        a + pi + pl;
        { Exchange(a, pi, pl); }
        a + pl + pi;
        Sum(of, w) + pi;
      }
    }
  }

  lemma WithoutInit(parts: seq<Part>, i: nat)
    requires i < |parts| - 1
    ensures var w := Without(parts, i);
      && |w| == |parts| - 1
      && w[..|w| - 1] == Without(parts[..|parts| - 1], i)
      && w[|w| - 1] == parts[|parts| - 1]
      && parts[..|parts| - 1][i] == parts[i]
  {
  }

  lemma Exchange(a: multiset<Neighbor>, b: multiset<Neighbor>, c: multiset<Neighbor>)
    ensures a + b + c == a + c + b
  {
  }

  lemma Cancel(a: multiset<Part>, b: multiset<Part>, x: Part)
    requires a + multiset{x} == b + multiset{x}
    ensures a == b
  {
    forall y ensures a[y] == b[y] {
      assert (a + multiset{x})[y] == (b + multiset{x})[y];
    }
  }
}
