/** The reference for a changing dataset (include/svs/misc/dynamic_helper.h): the data cut
    into buckets of consecutive ids, each with its precomputed ground truth, moving between
    a reserve and the dataset. */
module Reference {
  import opened Neighbors
  import opened Shuffling
  import TopK
  import Threads
  import opened Algorithms
  import opened Arithmetic
  import opened Vectors

  /** Ids `first..last` and one ground truth row per query. */
  datatype Bucket = Bucket(first: nat, last: nat, groundtruth: seq<seq<Neighbor>>) {
    predicate Has(id: nat) {
      first <= id < last
    }
  }

  function Size(b: Bucket): nat {
    if b.first <= b.last then b.last - b.first else 0
  }

  function Range(first: nat, last: nat): (ids: set<nat>)
    ensures forall id: nat :: id in ids <==> first <= id < last
    ensures |ids| == if first <= last then last - first else 0
    decreases last
  {
    if last <= first then {} else Range(first, last - 1) + {last - 1}
  }

  lemma EmptyRange(first: nat)
    ensures Range(first, first) == {}
  {
  }

  lemma RangeOneMore(first: nat, last: nat)
    requires first <= last
    ensures Range(first, last + 1) == Range(first, last) + {last} && last !in Range(first, last)
  {
  }

  /** The ids of some buckets. */
  function Ids(buckets: seq<Bucket>): set<nat> {
    if buckets == [] then {}
    else
      var last := |buckets| - 1;
      Ids(buckets[..last]) + Range(buckets[last].first, buckets[last].last)
  }

  ghost predicate Covered(buckets: multiset<Bucket>, id: nat) {
    exists b :: b in buckets && b.Has(id)
  }

  lemma {:induction false} IdsAre(buckets: seq<Bucket>, id: nat)
    ensures id in Ids(buckets) <==> Covered(multiset(buckets), id)
  {
    if buckets != [] {
      var last := |buckets| - 1;
      IdsAre(buckets[..last], id);
      assert buckets == buckets[..last] + [buckets[last]];
      assert multiset(buckets) == multiset(buckets[..last]) + multiset{buckets[last]};
      if id in Ids(buckets[..last]) {
        var b :| b in multiset(buckets[..last]) && b.Has(id);
        assert b in multiset(buckets);
      } else if buckets[last].Has(id) {
        assert buckets[last] in multiset(buckets);
      }
    }
  }

  /** The buckets cut `0..n` into non-empty pieces: none twice, no overlap, no gap. */
  ghost predicate Tiles(buckets: multiset<Bucket>, n: nat) {
    && (forall b :: b in buckets ==> buckets[b] == 1 && b.first < b.last <= n)
    && (forall b, d :: b in buckets && d in buckets && b != d ==> b.last <= d.first || d.last <= b.first)
    && (forall id: nat :: id < n ==> Covered(buckets, id))
  }

  lemma AddTile(buckets: multiset<Bucket>, b: Bucket, n: nat)
    requires Tiles(buckets, n) && b.first == n && n < b.last
    ensures Tiles(buckets + multiset{b}, b.last)
  {
    assert b !in buckets;
    forall id: nat | id < b.last ensures Covered(buckets + multiset{b}, id) {
      if id < n {
        assert Covered(buckets, id);
        var d :| d in buckets && d.Has(id);
        assert d in buckets + multiset{b};
      } else {
        assert b in buckets + multiset{b} && b.Has(id);
      }
    }
  }

  /** `get_num_points` as a function: whole buckets from the back while they fit. */
  function FittingPoints(buckets: seq<Bucket>, maxPoints: nat): (n: nat)
    ensures n <= maxPoints
  {
    if buckets == [] then 0
    else
      var last := |buckets| - 1;
      if Size(buckets[last]) > maxPoints then 0
      else Size(buckets[last]) + FittingPoints(buckets[..last], maxPoints - Size(buckets[last]))
  }

  /** Those buckets are the longest stretch from the back that fits. */
  lemma {:induction false} FittingIsLongest(buckets: seq<Bucket>, maxPoints: nat) returns (j: nat)
    ensures j <= |buckets| && FittingPoints(buckets, maxPoints) == TotalSize(buckets[j..]) <= maxPoints
    ensures j > 0 ==> Size(buckets[j - 1]) + TotalSize(buckets[j..]) > maxPoints
  {
    hide TotalSize, Size;
    TotalOfNone();
    j := |buckets|;
    assert buckets[j..] == [];
    if buckets != [] && Size(buckets[j - 1]) <= maxPoints {
      var init, back := buckets[..j - 1], buckets[j - 1];
      j := FittingIsLongest(init, maxPoints - Size(back));
      assert buckets[j..] == init[j..] + [back];
      TotalOfOneMore(init[j..], back);
    }
  }

  lemma TotalOfNone()
    ensures TotalSize([]) == 0
  {
  }

  function TotalSize(buckets: seq<Bucket>): nat {
    if buckets == [] then 0 else Size(buckets[0]) + TotalSize(buckets[1..])
  }

  lemma {:induction false} TotalOfOneMore(buckets: seq<Bucket>, back: Bucket)
    ensures TotalSize(buckets + [back]) == TotalSize(buckets) + Size(back)
  {
    if buckets == [] {
      assert [back][1..] == [];
    } else {
      TotalOfOneMore(buckets[1..], back);
      assert (buckets + [back])[1..] == buckets[1..] + [back];
    }
  }

  /** Taking the back bucket uses up its share of the room. */
  lemma FittingStep(buckets: seq<Bucket>, room: nat, rest: seq<Bucket>, back: Bucket, room': int)
    requires FittingPoints(buckets, room) > 0
    requires rest == buckets[..|buckets| - 1] && back == buckets[|buckets| - 1] && room' == room - Size(back)
    ensures room' >= 0 && FittingPoints(rest, room') == FittingPoints(buckets, room) - Size(back)
  {
  }

  /** Not even the last bucket fits. */
  predicate NoneFits(buckets: seq<Bucket>, maxPoints: int) {
    buckets == [] || Size(buckets[|buckets| - 1]) > maxPoints
  }

  lemma IdsOfPermutation(a: seq<Bucket>, b: seq<Bucket>)
    requires multiset(a) == multiset(b)
    ensures Ids(a) == Ids(b)
  {
    forall id: nat ensures id in Ids(a) <==> id in Ids(b) {
      IdsAre(a, id);
      IdsAre(b, id);
    }
  }

  /** A bucket of the tiling shares no id with the others. */
  lemma NoShare(pool: multiset<Bucket>, n: nat, buckets: seq<Bucket>, b: Bucket, id: nat)
    requires Tiles(pool, n) && multiset(buckets) + multiset{b} <= pool && b.Has(id)
    ensures id !in Ids(buckets)
  {
    IdsAre(buckets, id);
    forall d | d in multiset(buckets) ensures !d.Has(id) {
      assert d in pool && b in pool;
      assert d == b ==> (multiset(buckets) + multiset{b})[b] >= 2;
    }
  }

  lemma TiledIdsBelow(pool: multiset<Bucket>, n: nat, buckets: seq<Bucket>, id: nat)
    requires Tiles(pool, n) && multiset(buckets) <= pool && id in Ids(buckets)
    ensures id < n
  {
    IdsAre(buckets, id);
    var b :| b in multiset(buckets) && b.Has(id);
    assert b in pool;
  }

  lemma SizeWithin(ids: set<nat>, n: nat)
    requires forall id :: id in ids ==> id < n
    ensures |ids| <= n
  {
    assert ids <= Range(0, n);
    assert Range(0, n) == ids + (Range(0, n) - ids);
  }

  /** The dataset and one more bucket together are no larger than the data. */
  lemma RoomForOneMore(pool: multiset<Bucket>, n: nat, buckets: seq<Bucket>, b: Bucket)
    requires Tiles(pool, n) && multiset(buckets) + multiset{b} <= pool
    ensures |Ids(buckets)| + Size(b) <= n
  {
    var both := Ids(buckets) + Range(b.first, b.last);
    assert b in pool;
    forall id | id in both ensures id < n {
      if id in Ids(buckets) {
        TiledIdsBelow(pool, n, buckets, id);
      }
    }
    SizeWithin(both, n);
    forall id | id in Range(b.first, b.last) ensures id !in Ids(buckets) {
      NoShare(pool, n, buckets, b, id);
    }
    assert Ids(buckets) !! Range(b.first, b.last);
  }

  /** Moving the back bucket of one list to the back of the other. */
  lemma MoveKeepsPool(from: seq<Bucket>, to: seq<Bucket>, back: Bucket)
    requires from != [] && back == from[|from| - 1]
    ensures multiset(from[..|from| - 1]) + multiset(to + [back]) == multiset(from) + multiset(to)
    ensures multiset(to + [back]) + multiset(from[..|from| - 1]) == multiset(to) + multiset(from)
  {
    assert from == from[..|from| - 1] + [back];
  }

  lemma IdsOfOneMore(buckets: seq<Bucket>, back: Bucket)
    ensures Ids(buckets + [back]) == Ids(buckets) + Range(back.first, back.last)
  {
    assert (buckets + [back])[..|buckets|] == buckets;
  }

  // ----- Ground truth of the live buckets

  ghost predicate HasRows(b: Bucket, queries: nat, k: nat) {
    |b.groundtruth| == queries && forall q :: 0 <= q < queries ==> |b.groundtruth[q]| == k
  }

  ghost predicate HaveRows(buckets: seq<Bucket>, queries: nat, k: nat) {
    forall i :: 0 <= i < |buckets| ==> HasRows(buckets[i], queries, k)
  }

  ghost function Parts(buckets: seq<Bucket>, queries: nat, k: nat, q: nat): (parts: seq<TopK.Part>)
    requires HaveRows(buckets, queries, k) && q < queries
    ensures |parts| == |buckets| && TopK.RowsHave(k, parts)
  {
    seq(|buckets|, i requires 0 <= i < |buckets| =>
      TopK.Part(buckets[i].first, buckets[i].last, buckets[i].groundtruth[q]))
  }

  /** The row `groundtruth` has to deliver for one query. */
  ghost function Row(c: Compare, buckets: seq<Bucket>, queries: nat, k: nat, q: nat): (row: seq<Neighbor>)
    requires HaveRows(buckets, queries, k) && q < queries
    ensures |row| == k
  {
    TopK.Folded(c, k, Parts(buckets, queries, k, q))
  }

  ghost predicate AllFinite(c: Compare, row: seq<Neighbor>) {
    forall i :: 0 <= i < |row| ==> Finite(c, row[i].distance)
  }

  /** `k` live points at finite distances. */
  ghost predicate EnoughFinite(c: Compare, k: nat, live: multiset<Neighbor>) {
    exists chosen :: chosen <= live && |chosen| == k && forall x :: x in chosen ==> Finite(c, x.distance)
  }

  lemma InRangeIsFinite(c: Compare, x: Neighbor)
    ensures TopK.InRange(c, x) <==> Finite(c, x.distance)
  {
    BeatsSentinel(c, x);
  }

  lemma FiniteIsInRange(c: Compare, row: seq<Neighbor>)
    ensures AllFinite(c, row) <==> TopK.AllInRange(c, row)
  {
    forall i | 0 <= i < |row| ensures Finite(c, row[i].distance) <==> TopK.InRange(c, row[i]) {
      BeatsSentinel(c, row[i]);
    }
  }

  lemma EnoughFiniteIsInRange(c: Compare, k: nat, live: multiset<Neighbor>)
    ensures EnoughFinite(c, k, live) <==> TopK.EnoughInRange(c, k, live)
  {
    forall x: Neighbor ensures Finite(c, x.distance) <==> TopK.InRange(c, x) {
      BeatsSentinel(c, x);
    }
    if EnoughFinite(c, k, live) {
      var chosen :| chosen <= live && |chosen| == k && forall x :: x in chosen ==> Finite(c, x.distance);
      assert TopK.Enough(c, k, live, chosen);
    }
    if TopK.EnoughInRange(c, k, live) {
      var chosen :| TopK.Enough(c, k, live, chosen);
      assert chosen <= live;
    }
  }

  lemma LiveOfOneMore(dist: nat -> real, init: seq<Bucket>, b: Bucket, queries: nat, k: nat, q: nat)
    requires HaveRows(init, queries, k) && HaveRows(init + [b], queries, k) && q < queries
    ensures |TopK.Live(dist, Parts(init + [b], queries, k, q))|
      == |TopK.Live(dist, Parts(init, queries, k, q))| + Size(b)
  {
    var all := Parts(init + [b], queries, k, q);
    assert all[..|all| - 1] == Parts(init, queries, k, q);
    TopK.PointsCount(dist, b.first, b.last);
  }

  /** `x` is live once if it is an id of the buckets at its distance, and not otherwise. */
  ghost predicate OnceIn(dist: nat -> real, buckets: seq<Bucket>, queries: nat, k: nat, q: nat, x: Neighbor)
    requires HaveRows(buckets, queries, k) && q < queries
  {
    TopK.Live(dist, Parts(buckets, queries, k, q))[x]
      == if x.id in Ids(buckets) && x.distance == dist(x.id) then 1 else 0
  }

  lemma OnceInNone(dist: nat -> real, queries: nat, k: nat, q: nat, x: Neighbor)
    requires q < queries
    ensures OnceIn(dist, [], queries, k, q, x)
  {
    assert Parts([], queries, k, q) == [];
  }

  lemma OnceWithOneMore(dist: nat -> real, init: seq<Bucket>, b: Bucket, queries: nat, k: nat, q: nat, x: Neighbor)
    requires HaveRows(init, queries, k) && HaveRows(init + [b], queries, k) && q < queries
    requires Ids(init) !! Range(b.first, b.last) && OnceIn(dist, init, queries, k, q, x)
    ensures OnceIn(dist, init + [b], queries, k, q, x)
  {
    var all := Parts(init + [b], queries, k, q);
    assert all[..|all| - 1] == Parts(init, queries, k, q);
    TopK.PointsOnce(dist, b.first, b.last, x);
    IdsOfOneMore(init, b);
  }

  /** A ranking of points that are each there once, in plain terms. */
  lemma RanksInPlain(c: Compare, row: seq<Neighbor>, live: multiset<Neighbor>, valid: set<nat>, d: nat -> real)
    requires Ranks(c, row, live)
    requires forall x :: live[x] == if x.id in valid && x.distance == d(x.id) then 1 else 0
    ensures forall i :: 0 <= i < |row| ==> row[i].id in valid && row[i].distance == d(row[i].id)
    ensures forall i, j :: 0 <= i < j < |row| ==> row[i].id != row[j].id
    ensures c.Less? ==> forall i, j :: 0 <= i < j < |row| ==> row[i].distance <= row[j].distance
    ensures c.Greater? ==> forall i, j :: 0 <= i < j < |row| ==> row[i].distance >= row[j].distance
    ensures forall id, i :: id in valid && 0 <= i < |row| && (forall j :: 0 <= j < |row| ==> row[j].id != id) ==>
      if c.Less? then row[i].distance <= d(id) else row[i].distance >= d(id)
  {
    forall i | 0 <= i < |row| ensures live[row[i]] == 1 {
      assert row[i] in multiset(row);
    }
    forall i, j | 0 <= i < j < |row| ensures row[i].id != row[j].id {
      if row[i] == row[j] {
        TwiceCounts(row, i, j);
      }
    }
    forall id, i | id in valid && 0 <= i < |row| && (forall j :: 0 <= j < |row| ==> row[j].id != id)
      ensures if c.Less? then row[i].distance <= d(id) else row[i].distance >= d(id)
    {
      var x := Neighbor(id, d(id));
      assert x !in row && x in live - multiset(row);
    }
  }

  lemma CountOfOneMore(init: seq<Bucket>, b: Bucket)
    requires Ids(init) !! Range(b.first, b.last)
    ensures |Ids(init + [b])| == |Ids(init)| + Size(b)
  {
    IdsOfOneMore(init, b);
  }

  lemma HaveRowsBefore(buckets: seq<Bucket>, n: nat, queries: nat, k: nat)
    requires HaveRows(buckets, queries, k) && n <= |buckets|
    ensures HaveRows(buckets[..n], queries, k)
  {
  }

  lemma RowOfOneMore(c: Compare, buckets: seq<Bucket>, l: nat, queries: nat, k: nat, q: nat)
    requires HaveRows(buckets, queries, k) && q < queries && l < |buckets|
    ensures HaveRows(buckets[..l], queries, k) && HaveRows(buckets[..l + 1], queries, k)
    ensures Row(c, buckets[..l + 1], queries, k, q)
         == Merge(c, Row(c, buckets[..l], queries, k, q), buckets[l].groundtruth[q], k)
  {
    assert Parts(buckets[..l + 1], queries, k, q)[..l] == Parts(buckets[..l], queries, k, q);
  }

  function QueryDistance(dist: (nat, nat) -> real, q: nat): nat -> real {
    (id: nat) => dist(q, id)
  }

  /** `parent_id`: the range adds in 64 bits, so the id of a sentinel wraps around. */
  function ParentId(first: nat, id: nat): nat {
    (first + id) % 0x1_0000_0000_0000_0000
  }

  function Renumbered(row: seq<Neighbor>, first: nat): (r: seq<Neighbor>)
    ensures |r| == |row|
  {
    seq(|row|, j requires 0 <= j < |row| => Neighbor(ParentId(first, row[j].id), row[j].distance))
  }

  /** A bucket's rows are the best of its points and of what fills them up, for every query. */
  ghost predicate WellFormed(b: Bucket, c: Compare, k: nat, queries: nat, dist: (nat, nat) -> real) {
    && |b.groundtruth| == queries
    && forall q :: 0 <= q < queries ==>
      TopK.RowIsBest(c, k, QueryDistance(dist, q), TopK.Part(b.first, b.last, b.groundtruth[q]))
  }

  /** The contract of the flat search over the ids `first..last`, whose results count from
      the start of the view: renumbered, they make a well-formed bucket. */
  ghost predicate SearchesView(rows: seq<seq<Neighbor>>, c: Compare, k: nat, queries: nat,
      dist: (nat, nat) -> real, first: nat, last: nat)
  {
    WellFormed(Bucket(first, last, RenumberedRows(rows, first)), c, k, queries, dist)
  }

  function RenumberedRows(rows: seq<seq<Neighbor>>, first: nat): (r: seq<seq<Neighbor>>)
    ensures |r| == |rows|
  {
    seq(|rows|, i requires 0 <= i < |rows| => Renumbered(rows[i], first))
  }

  /** The views the constructor makes: consecutive stretches, the last perhaps shorter. */
  predicate IsView(first: nat, last: nat, bucketSize: nat, size: nat)
    requires bucketSize > 0
  {
    first < last && first % bucketSize == 0 && last == Min(first + bucketSize, size)
  }

  /** The flat search keeps its contract on every view the constructor makes. */
  ghost predicate SearchesViews(search: (nat, nat) -> seq<seq<Neighbor>>, c: Compare, k: nat, queries: nat,
      dist: (nat, nat) -> real, bucketSize: nat, size: nat)
    requires bucketSize > 0
  {
    forall first, last {:trigger IsView(first, last, bucketSize, size)} ::
      IsView(first, last, bucketSize, size) ==> SearchesView(search(first, last), c, k, queries, dist, first, last)
  }

  /** Ids that do not wrap around are shifted by the start of the view. */
  lemma ParentIdAdds(first: nat, id: nat)
    ensures first + id <= ID_MAX ==> ParentId(first, id) == first + id
  {
  }

  /** What the view makes of a sentinel of the search. */
  lemma SentinelRenumbered(c: Compare, first: nat)
    requires first <= ID_MAX
    ensures Renumbered([Sentinel(c)], first) == [TopK.Filler(c, first)]
  {
  }

  // ----- A flat search that keeps the contract

  /** The rows of a view, by ranking all its points and as many sentinels as neighbors. */
  ghost function FlatRows(c: Compare, k: nat, queries: nat, dist: (nat, nat) -> real, first: nat, last: nat):
    (rows: seq<seq<Neighbor>>)
  {
    seq(queries, q requires 0 <= q < queries => FlatRow(c, k, QueryDistance(dist, q), first, last))
  }

  ghost function FlatRow(c: Compare, k: nat, dist: nat -> real, first: nat, last: nat): (row: seq<Neighbor>)
    ensures |row| == k
  {
    var filled := TopK.Filled(c, dist, first, last, k);
    seq(k, j requires 0 <= j < k =>
      Neighbor(if first <= filled[j].id < last then filled[j].id - first else ID_MAX, filled[j].distance))
  }

  lemma FlatRowRenumbered(c: Compare, k: nat, dist: nat -> real, first: nat, last: nat)
    requires first <= last <= ID_MAX
    ensures Renumbered(FlatRow(c, k, dist, first, last), first) == TopK.Filled(c, dist, first, last, k)[..k]
  {
    hide TopK.Filled;
    var filled, row := TopK.Filled(c, dist, first, last, k), FlatRow(c, k, dist, first, last);
    forall j | 0 <= j < k ensures Renumbered(row, first)[j] == filled[..k][j] {
      FilledInView(c, dist, first, last, k, j);
    }
  }

  lemma FilledInView(c: Compare, dist: nat -> real, first: nat, last: nat, k: nat, j: nat)
    requires j < |TopK.Filled(c, dist, first, last, k)|
    ensures var x := TopK.Filled(c, dist, first, last, k)[j]; first <= x.id < last || x == TopK.Filler(c, first)
  {
    var filled := TopK.Filled(c, dist, first, last, k);
    TopK.FilledAreAll(c, dist, first, last, k);
    assert filled[j] in multiset(filled);
    if filled[j] in TopK.Points(dist, first, last) {
      TopK.PointsAre(dist, first, last, filled[j]);
    }
  }

  lemma FlatRowIsBest(c: Compare, k: nat, dist: nat -> real, first: nat, last: nat)
    requires first <= last <= ID_MAX
    ensures TopK.RowIsBest(c, k, dist, TopK.Part(first, last, Renumbered(FlatRow(c, k, dist, first, last), first)))
  {
    FlatRowRenumbered(c, k, dist, first, last);
    TopK.FilledIsBest(c, k, dist, first, last);
  }

  /** The contract can be met for any data, any size of the buckets and any number of neighbors. */
  lemma FlatSearchKeepsContract(c: Compare, k: nat, queries: nat, dist: (nat, nat) -> real, bucketSize: nat, size: nat)
    requires 0 < bucketSize && size <= ID_MAX
    ensures SearchesViews((first: nat, last: nat) => FlatRows(c, k, queries, dist, first, last),
      c, k, queries, dist, bucketSize, size)
  {
    forall first, last | IsView(first, last, bucketSize, size)
      ensures SearchesView(FlatRows(c, k, queries, dist, first, last), c, k, queries, dist, first, last)
    {
      forall q | 0 <= q < queries
        ensures TopK.RowIsBest(c, k, QueryDistance(dist, q),
          TopK.Part(first, last, RenumberedRows(FlatRows(c, k, queries, dist, first, last), first)[q]))
      {
        FlatRowIsBest(c, k, QueryDistance(dist, q), first, last);
      }
    }
  }

  // ----- Rows of a dense matrix

  lemma SliceFits(k: nat, q: nat, queries: nat)
    requires q < queries
    ensures 0 <= q * k <= q * k + k <= queries * k
  {
    assert queries * k == q * k + k + (queries - q - 1) * k;
  }

  lemma SlicesApart(k: nat, q: nat, p: nat)
    requires q < p
    ensures q * k + k <= p * k
  {
    MulGap(q, p, k);
  }

  ghost function Slice(a: array<Neighbor>, k: nat, q: nat, queries: nat): (row: seq<Neighbor>)
    requires q < queries && a.Length == queries * k
    reads a
    ensures |row| == k
  {
    SliceFits(k, q, queries);
    a[q * k..q * k + k]
  }

  /** How a call ends. */
  datatype Generated = Generated(vectors: seq<Vector>, points: seq<nat>) | NothingToAdd
  datatype Deleted = Deleted(points: seq<nat>) | NothingToDelete

  /** The constructor's loop: consecutive buckets, each searched on its own. */
  method BuildBuckets(size: nat, ghost c: Compare, ghost dist: (nat, nat) -> real, bucketSize: nat,
      ghost numNeighbors: nat, ghost numQueries: nat, search: (nat, nat) -> seq<seq<Neighbor>>)
    returns (buckets: seq<Bucket>)
    requires 0 < bucketSize && SearchesViews(search, c, numNeighbors, numQueries, dist, bucketSize, size)
    ensures Tiles(multiset(buckets), size)
    ensures forall b :: b in multiset(buckets) ==> WellFormed(b, c, numNeighbors, numQueries, dist)
    // Each starts at a multiple of the size of the buckets, and is full or the last.
    ensures forall b :: b in multiset(buckets) ==>
      b.first % bucketSize == 0 && b.last <= b.first + bucketSize && (b.last == b.first + bucketSize || b.last == size)
  {
    var start := 0;
    buckets := [];
    while start < size
      invariant start <= size && (start == size || start % bucketSize == 0)
      invariant Tiles(multiset(buckets), start)
      invariant forall b :: b in multiset(buckets) ==> WellFormed(b, c, numNeighbors, numQueries, dist)
      invariant forall b :: b in multiset(buckets) ==>
        b.first % bucketSize == 0 && b.last <= b.first + bucketSize
          && (b.last == b.first + bucketSize || b.last == size)
    {
      var stop := Min(start + bucketSize, size);
      var rows := RenumberRows(search(start, stop), start);
      assert IsView(start, stop, bucketSize, size);
      NextMultiple(start, bucketSize);
      AddTile(multiset(buckets), Bucket(start, stop, rows), start);
      buckets := buckets + [Bucket(start, stop, rows)];
      start := stop;
    }
  }

  class ReferenceDataset {
    const data: seq<Vector>
    const numQueries: nat
    const numNeighbors: nat
    const bucketSize: nat
    const compare: Compare
    ghost const distance: (nat, nat) -> real
    /** All the buckets there are. */
    ghost const pool: multiset<Bucket>
    var valid: set<nat>
    var bucketsInDataset: seq<Bucket>
    var reserveBuckets: seq<Bucket>

    ghost predicate AllWellFormed(buckets: multiset<Bucket>) {
      forall b :: b in buckets ==> WellFormed(b, compare, numNeighbors, numQueries, distance)
    }

    /** Reserve and dataset together hold every bucket exactly once; `valid` is exactly the
        ids in the dataset. */
    ghost predicate Balanced()
      reads this
    {
      && multiset(reserveBuckets) + multiset(bucketsInDataset) == pool
      && valid == Ids(bucketsInDataset)
    }

    /** All the buckets tile the ids, and none is lost or doubled. */
    ghost predicate Valid()
      reads this
    {
      Tiles(pool, |data|) && AllWellFormed(pool) && Balanced()
    }

    /** What validity means id by id: every id of the data is in the reserve or in the
        dataset, never in both, and `valid` counts the latter. */
    lemma EveryIdOnOneSide()
      requires Valid()
      ensures forall id: nat :: id < |data| <==> id in Ids(reserveBuckets) || id in valid
      ensures Ids(reserveBuckets) !! valid
      ensures |Ids(reserveBuckets)| + |valid| == |data|
    {
      var out := Ids(reserveBuckets);
      forall id: nat ensures id < |data| <==> id in out || id in valid {
        SideOf(id);
      }
      forall id: nat | id in out ensures id !in valid {
        SideOf(id);
      }
      assert Range(0, |data|) == out + valid;
    }

    lemma SideOf(id: nat)
      requires Valid()
      ensures id < |data| <==> id in Ids(reserveBuckets) || id in valid
      ensures id !in Ids(reserveBuckets) || id !in valid
    {
      IdsAre(reserveBuckets, id);
      IdsAre(bucketsInDataset, id);
      if id < |data| {
        assert Covered(pool, id);
      }
      if id in Ids(reserveBuckets) {
        var b :| b in multiset(reserveBuckets) && b.Has(id);
        assert b in pool;
        forall d | d in multiset(bucketsInDataset) ensures !d.Has(id) {
          assert d in pool;
          assert d == b ==> pool[b] >= 2;
        }
      } else if id in valid {
        var b :| b in multiset(bucketsInDataset) && b.Has(id);
        assert b in pool;
      }
    }

    /** The source's constructor throws, here null is returned, when a bucket could not hold
        the neighbors asked for. */
    static method Create(data: seq<Vector>, c: Compare, ghost dist: (nat, nat) -> real, bucketSize: nat,
        numNeighbors: nat, numQueries: nat, search: (nat, nat) -> seq<seq<Neighbor>>) returns (r: ReferenceDataset?)
      requires 0 < bucketSize
      requires SearchesViews(search, c, numNeighbors, numQueries, dist, bucketSize, |data|)
      ensures r == null <==> bucketSize < numNeighbors
      ensures r != null ==> fresh(r) && r.Valid() && r.valid == {} && r.data == data && r.distance == dist
    {
      if bucketSize < numNeighbors {
        return null;
      }
      r := new ReferenceDataset(data, c, dist, bucketSize, numNeighbors, numQueries, search);
    }

    constructor (data: seq<Vector>, c: Compare, ghost dist: (nat, nat) -> real, bucketSize: nat, numNeighbors: nat,
        numQueries: nat, search: (nat, nat) -> seq<seq<Neighbor>>)
      requires 0 < bucketSize
      requires SearchesViews(search, c, numNeighbors, numQueries, dist, bucketSize, |data|)
      ensures Valid() && bucketsInDataset == [] && valid == {}
      ensures this.data == data && this.compare == c && this.distance == dist
      ensures this.numQueries == numQueries && this.numNeighbors == numNeighbors && this.bucketSize == bucketSize
    {
      this.data, this.compare, this.distance := data, c, dist;
      this.bucketSize, this.numNeighbors, this.numQueries := bucketSize, numNeighbors, numQueries;
      var buckets := BuildBuckets(|data|, c, dist, bucketSize, numNeighbors, numQueries, search);
      valid, bucketsInDataset, reserveBuckets := {}, [], buckets;
      pool := multiset(buckets);
    }

    /** `groundtruth`: one merge per live bucket and query, between two arrays that swap. */
    method Groundtruth() returns (indices: seq<seq<nat>>, distances: seq<seq<real>>)
      requires Valid()
      ensures HaveRows(bucketsInDataset, numQueries, numNeighbors)
      ensures |indices| == |distances| == numQueries
      ensures forall q :: 0 <= q < numQueries ==>
        Unzips(indices[q], distances[q], Row(compare, bucketsInDataset, numQueries, numNeighbors, q))
    {
      hide Unzips;
      RowsAreThere();
      var gt := new Neighbor[numQueries * numNeighbors];
      FillSentinels(gt);
      var reserve := new Neighbor[numQueries * numNeighbors];
      for l := 0 to |bucketsInDataset|
        invariant fresh(gt) && fresh(reserve) && gt != reserve
        invariant gt.Length == reserve.Length == numQueries * numNeighbors
        invariant Holds(gt, bucketsInDataset[..l])
      {
        MergeBucket(gt, reserve, bucketsInDataset[l]);
        NextBucketHeld(gt, reserve, l);
        gt, reserve := reserve, gt;
      }
      assert bucketsInDataset[..|bucketsInDataset|] == bucketsInDataset;
      indices, distances := Unpack(gt);
    }

    /** The array holds, for every query, the folded row of the given buckets. */
    ghost predicate Holds(gt: array<Neighbor>, buckets: seq<Bucket>)
      reads gt
    {
      && gt.Length == numQueries * numNeighbors
      && HaveRows(buckets, numQueries, numNeighbors)
      && forall q :: 0 <= q < numQueries ==>
        Slice(gt, numNeighbors, q, numQueries) == Row(compare, buckets, numQueries, numNeighbors, q)
    }

    lemma NextBucketHeld(gt: array<Neighbor>, reserve: array<Neighbor>, l: nat)
      requires l < |bucketsInDataset| && HaveRows(bucketsInDataset, numQueries, numNeighbors)
      requires reserve.Length == numQueries * numNeighbors && Holds(gt, bucketsInDataset[..l])
      requires forall q :: 0 <= q < numQueries ==>
        Slice(reserve, numNeighbors, q, numQueries)
          == Merge(compare, Slice(gt, numNeighbors, q, numQueries), bucketsInDataset[l].groundtruth[q], numNeighbors)
      ensures Holds(reserve, bucketsInDataset[..l + 1])
    {
      forall q | 0 <= q < numQueries
        ensures Slice(reserve, numNeighbors, q, numQueries)
             == Row(compare, bucketsInDataset[..l + 1], numQueries, numNeighbors, q)
      {
        RowOfOneMore(compare, bucketsInDataset, l, numQueries, numNeighbors, q);
      }
    }

    /** `std::fill` with sentinels: the ground truth of no bucket at all. */
    method FillSentinels(gt: array<Neighbor>)
      requires gt.Length == numQueries * numNeighbors
      modifies gt
      ensures Holds(gt, [])
    {
      for i := 0 to gt.Length
        invariant forall j :: 0 <= j < i ==> gt[j] == Sentinel(compare)
      {
        gt[i] := Sentinel(compare);
      }
      forall q | 0 <= q < numQueries
        ensures Slice(gt, numNeighbors, q, numQueries) == Row(compare, [], numQueries, numNeighbors, q)
      {
        SliceFits(numNeighbors, q, numQueries);
      }
    }

    /** The loop that builds the query result from the final rows. */
    method Unpack(gt: array<Neighbor>) returns (indices: seq<seq<nat>>, distances: seq<seq<real>>)
      requires gt.Length == numQueries * numNeighbors
      ensures |indices| == |distances| == numQueries
      ensures forall q :: 0 <= q < numQueries ==>
        Unzips(indices[q], distances[q], Slice(gt, numNeighbors, q, numQueries))
    {
      hide Unzips;
      var k := numNeighbors;
      indices, distances := [], [];
      for i := 0 to numQueries
        invariant |indices| == |distances| == i
        invariant forall q :: 0 <= q < i ==>
          Unzips(indices[q], distances[q], Slice(gt, k, q, numQueries))
      {
        SliceFits(k, i, numQueries);
        var row := gt[i * k..i * k + k];
        RowUnzips(row);
        indices, distances := indices + [IdsOf(row)], distances + [DistancesOf(row)];
      }
    }

    /** The parallel loop over the queries: every row of `reserve` is overwritten. */
    method MergeBucket(gt: array<Neighbor>, reserve: array<Neighbor>, bucket: Bucket)
      requires gt != reserve && gt.Length == reserve.Length == numQueries * numNeighbors
      requires HasRows(bucket, numQueries, numNeighbors)
      modifies reserve
      ensures forall q :: 0 <= q < numQueries ==>
        Slice(reserve, numNeighbors, q, numQueries)
          == Merge(compare, Slice(gt, numNeighbors, q, numQueries), bucket.groundtruth[q], numNeighbors)
    {
      hide InOrder, Merge;
      var k := numNeighbors;
      var remaining := Threads.Indices(numQueries);
      while remaining != {}
        invariant forall q :: q in remaining ==> 0 <= q < numQueries
        invariant forall q :: 0 <= q < numQueries && q !in remaining ==>
          Slice(reserve, k, q, numQueries) == Merge(compare, Slice(gt, k, q, numQueries), bucket.groundtruth[q], k)
        decreases remaining
      {
        var i :| i in remaining;
        SliceFits(k, i, numQueries);
        label before:
        BoundedMerge(compare, gt[i * k..i * k + k], bucket.groundtruth[i], reserve, i * k, i * k + k);
        forall q | 0 <= q < numQueries && q != i
          ensures Slice(reserve, k, q, numQueries) == old@before(Slice(reserve, k, q, numQueries))
        {
          SliceFits(k, q, numQueries);
          SlicesApart(k, Min(q, i), if q < i then i else q);
        }
        remaining := remaining - {i};
      }
    }

    /** The size check in the merge loop cannot throw. */
    lemma RowsAreThere()
      requires Valid()
      ensures HaveRows(bucketsInDataset, numQueries, numNeighbors)
    {
      forall i | 0 <= i < |bucketsInDataset|
        ensures WellFormed(bucketsInDataset[i], compare, numNeighbors, numQueries, distance)
      {
        assert bucketsInDataset[i] in pool;
      }
    }

    /** The main result: the entries of a row are all in range exactly when the live points hold
        enough distances in range, and then the row is the best of all live points; it is that
        only then, unless a live point is exactly as far as the sentinel. */
    lemma GroundtruthIsBestOfLive(q: nat)
      requires Valid() && q < numQueries
      requires HaveRows(bucketsInDataset, numQueries, numNeighbors)
      ensures var row := Row(compare, bucketsInDataset, numQueries, numNeighbors, q);
        && (AllFinite(compare, row) <==> EnoughFinite(compare, numNeighbors, LivePoints(q)))
        && (AllFinite(compare, row) ==> Ranks(compare, row, LivePoints(q)))
        && ((forall x :: x in LivePoints(q) ==> x.distance != if compare.Less? then FLOAT_MAX else -FLOAT_MAX) ==>
          (AllFinite(compare, row) <==> Ranks(compare, row, LivePoints(q))))
    {
      PartsAreBest(q);
      var row := Row(compare, bucketsInDataset, numQueries, numNeighbors, q);
      FiniteIsInRange(compare, row);
      EnoughFiniteIsInRange(compare, numNeighbors, LivePoints(q));
      BestRanks(compare, row, LivePoints(q));
      TopK.GroundTruthIff(compare, numNeighbors, QueryDistance(distance, q),
        Parts(bucketsInDataset, numQueries, numNeighbors, q));
    }

    /** As many valid points as neighbors and finite distances are enough. */
    lemma FiniteGroundtruth(q: nat)
      requires Valid() && |valid| >= numNeighbors && q < numQueries
      requires HaveRows(bucketsInDataset, numQueries, numNeighbors)
      requires forall x :: x in LivePoints(q) ==> Finite(compare, x.distance)
      ensures var row := Row(compare, bucketsInDataset, numQueries, numNeighbors, q);
        AllFinite(compare, row) && Ranks(compare, row, LivePoints(q))
    {
      hide Valid, HaveRows, Ranks, IsBest, AllFinite, TopK.AllInRange, Finite, TopK.InRange, Row, LivePoints;
      forall x | x in LivePoints(q) ensures TopK.InRange(compare, x) {
        InRangeIsFinite(compare, x);
      }
      LivePointsCount(q);
      InRangeGroundtruth(q);
      FiniteIsInRange(compare, Row(compare, bucketsInDataset, numQueries, numNeighbors, q));
      BestRanks(compare, Row(compare, bucketsInDataset, numQueries, numNeighbors, q), LivePoints(q));
    }

    lemma InRangeGroundtruth(q: nat)
      requires Valid() && q < numQueries && HaveRows(bucketsInDataset, numQueries, numNeighbors)
      requires |LivePoints(q)| >= numNeighbors && forall x :: x in LivePoints(q) ==> TopK.InRange(compare, x)
      ensures var row := Row(compare, bucketsInDataset, numQueries, numNeighbors, q);
        TopK.AllInRange(compare, row) && IsBest(compare, row, LivePoints(q))
    {
      PartsAreBest(q);
      TopK.FiniteDistancesSuffice(compare, numNeighbors, QueryDistance(distance, q),
        Parts(bucketsInDataset, numQueries, numNeighbors, q));
    }

    lemma LivePointsCount(q: nat)
      requires Valid() && q < numQueries && HaveRows(bucketsInDataset, numQueries, numNeighbors)
      ensures |LivePoints(q)| == |valid|
    {
      assert bucketsInDataset[..|bucketsInDataset|] == bucketsInDataset;
      LiveCount(q, |bucketsInDataset|);
    }

    /** The live points are as many as the ids in the dataset. */
    lemma {:induction false} LiveCount(q: nat, n: nat)
      requires Valid() && q < numQueries && n <= |bucketsInDataset|
      requires HaveRows(bucketsInDataset, numQueries, numNeighbors)
      ensures HaveRows(bucketsInDataset[..n], numQueries, numNeighbors)
      ensures |TopK.Live(QueryDistance(distance, q), Parts(bucketsInDataset[..n], numQueries, numNeighbors, q))|
        == |Ids(bucketsInDataset[..n])|
    {
      hide Valid, HaveRows;
      HaveRowsBefore(bucketsInDataset, n, numQueries, numNeighbors);
      if n > 0 {
        var init, b := bucketsInDataset[..n - 1], bucketsInDataset[n - 1];
        assert bucketsInDataset[..n] == init + [b];
        LiveCount(q, n - 1);
        LiveOfOneMore(QueryDistance(distance, q), init, b, numQueries, numNeighbors, q);
        LiveBucketIsApart(n - 1);
        CountOfOneMore(init, b);
      }
    }

    /** The live points of a query are exactly the valid ids at their distances. */
    lemma LivePointsAre(q: nat, x: Neighbor)
      requires Valid() && q < numQueries
      requires HaveRows(bucketsInDataset, numQueries, numNeighbors)
      ensures LivePoints(q)[x] == if x.id in valid && x.distance == distance(q, x.id) then 1 else 0
    {
      assert bucketsInDataset[..|bucketsInDataset|] == bucketsInDataset;
      LiveOnce(q, |bucketsInDataset|, x);
    }

    lemma {:induction false} LiveOnce(q: nat, n: nat, x: Neighbor)
      requires Valid() && q < numQueries && n <= |bucketsInDataset|
      requires HaveRows(bucketsInDataset, numQueries, numNeighbors)
      ensures HaveRows(bucketsInDataset[..n], numQueries, numNeighbors)
      ensures OnceIn(QueryDistance(distance, q), bucketsInDataset[..n], numQueries, numNeighbors, q, x)
    {
      hide Valid, HaveRows, OnceIn;
      HaveRowsBefore(bucketsInDataset, n, numQueries, numNeighbors);
      if n == 0 {
        OnceInNone(QueryDistance(distance, q), numQueries, numNeighbors, q, x);
      } else {
        var init, b := bucketsInDataset[..n - 1], bucketsInDataset[n - 1];
        assert bucketsInDataset[..n] == init + [b];
        LiveOnce(q, n - 1, x);
        LiveBucketIsApart(n - 1);
        OnceWithOneMore(QueryDistance(distance, q), init, b, numQueries, numNeighbors, q, x);
      }
    }

    lemma LiveAreFinite(q: nat)
      requires Valid() && q < numQueries && HaveRows(bucketsInDataset, numQueries, numNeighbors)
      requires compare.Less? ==> forall id :: id in valid ==> distance(q, id) < FLOAT_MAX
      requires compare.Greater? ==> forall id :: id in valid ==> distance(q, id) > -FLOAT_MAX
      ensures forall x :: x in LivePoints(q) ==> Finite(compare, x.distance)
    {
      hide Valid, HaveRows, LivePoints;
      forall x | x in LivePoints(q) ensures Finite(compare, x.distance) {
        LivePointsAre(q, x);
      }
    }

    /** The ground truth in plain terms. With enough valid ids whose distances are finite, a row
        lists distinct valid ids at their own distances, in order, and every valid id that is
        not listed is no nearer, or no larger, than any that is. */
    lemma GroundtruthInPlain(q: nat)
      requires Valid() && q < numQueries && |valid| >= numNeighbors
      requires HaveRows(bucketsInDataset, numQueries, numNeighbors)
      requires compare.Less? ==> forall id :: id in valid ==> distance(q, id) < FLOAT_MAX
      requires compare.Greater? ==> forall id :: id in valid ==> distance(q, id) > -FLOAT_MAX
      ensures var row := Row(compare, bucketsInDataset, numQueries, numNeighbors, q);
        && (forall i :: 0 <= i < |row| ==> row[i].id in valid && row[i].distance == distance(q, row[i].id))
        && (forall i, j :: 0 <= i < j < |row| ==> row[i].id != row[j].id)
        && (compare.Less? ==> forall i, j :: 0 <= i < j < |row| ==> row[i].distance <= row[j].distance)
        && (compare.Greater? ==> forall i, j :: 0 <= i < j < |row| ==> row[i].distance >= row[j].distance)
        && (forall id, i :: id in valid && 0 <= i < |row| && (forall j :: 0 <= j < |row| ==> row[j].id != id) ==>
          if compare.Less? then row[i].distance <= distance(q, id) else row[i].distance >= distance(q, id))
    {
      hide Valid, HaveRows, Ranks, AllFinite, Row, LivePoints, Finite;
      LiveAreFinite(q);
      var d := QueryDistance(distance, q);
      forall x ensures LivePoints(q)[x] == if x.id in valid && x.distance == d(x.id) then 1 else 0 {
        LivePointsAre(q, x);
      }
      FiniteGroundtruth(q);
      RanksInPlain(compare, Row(compare, bucketsInDataset, numQueries, numNeighbors, q), LivePoints(q), valid, d);
    }

    lemma LiveBucketIsApart(n: nat)
      requires Valid() && n < |bucketsInDataset|
      ensures Ids(bucketsInDataset[..n]) !! Range(bucketsInDataset[n].first, bucketsInDataset[n].last)
    {
      var init, b := bucketsInDataset[..n], bucketsInDataset[n];
      assert bucketsInDataset == init + [b] + bucketsInDataset[n + 1..];
      assert multiset(init) + multiset{b} <= pool;
      forall id | id in Range(b.first, b.last) ensures id !in Ids(init) {
        NoShare(pool, |data|, init, b, id);
      }
    }

    /** All live points as candidates for one query. */
    ghost function LivePoints(q: nat): multiset<Neighbor>
      reads this
      requires q < numQueries && HaveRows(bucketsInDataset, numQueries, numNeighbors)
    {
      TopK.Live(QueryDistance(distance, q), Parts(bucketsInDataset, numQueries, numNeighbors, q))
    }

    lemma PartsAreBest(q: nat)
      requires Valid() && q < numQueries
      requires HaveRows(bucketsInDataset, numQueries, numNeighbors)
      ensures TopK.AllBest(compare, numNeighbors, QueryDistance(distance, q),
        Parts(bucketsInDataset, numQueries, numNeighbors, q))
    {
      forall i | 0 <= i < |bucketsInDataset|
        ensures WellFormed(bucketsInDataset[i], compare, numNeighbors, numQueries, distance)
      {
        assert bucketsInDataset[i] in pool;
      }
    }

    // ----- Moving buckets in and out

    lemma ValidWithin()
      requires Valid()
      ensures |valid| <= |data|
    {
      forall id | id in valid ensures id < |data| {
        TiledIdsBelow(pool, |data|, bucketsInDataset, id);
      }
      SizeWithin(valid, |data|);
    }

    /** As long as not all is valid, a bucket of the reserve fits. */
    lemma ReserveFits()
      requires Valid() && |valid| < |data|
      ensures !NoneFits(reserveBuckets, |data|)
    {
      EveryIdOnOneSide();
      assert reserveBuckets == [] ==> Ids(reserveBuckets) == {};
      BackBucketIsNew(reserveBuckets[|reserveBuckets| - 1]);
    }

    lemma BackBucketIsNew(back: Bucket)
      requires Valid() && reserveBuckets != [] && back == reserveBuckets[|reserveBuckets| - 1]
      ensures back.first < back.last <= |data|
      ensures forall id: nat :: back.Has(id) ==> id !in valid
      ensures |valid| + Size(back) <= |data|
    {
      var last := |reserveBuckets| - 1;
      assert reserveBuckets == reserveBuckets[..last] + [back];
      assert back in pool;
      assert multiset(bucketsInDataset) + multiset{back} <= pool;
      forall id: nat | back.Has(id) ensures id !in valid {
        NoShare(pool, |data|, bucketsInDataset, back, id);
      }
      RoomForOneMore(pool, |data|, bucketsInDataset, back);
    }

    /** The cap by the ids not yet added never bites: what does not fit under it does not
        fit under `maxPoints` either. */
    lemma CapIsMaximum(maxPoints: nat, room: nat, count: nat)
      requires Valid() && count <= |valid| <= |data|
      requires room + count == Min(maxPoints, |data| - (|valid| - count))
      requires FittingPoints(reserveBuckets, room) == 0
      ensures NoneFits(reserveBuckets, maxPoints - count)
    {
      if reserveBuckets != [] {
        BackBucketIsNew(reserveBuckets[|reserveBuckets| - 1]);
      }
    }

    /** `get_num_points`: walk forward from the back while whole buckets fit. */
    method GetNumPoints(buckets: seq<Bucket>, maxPoints: nat) returns (sz: nat)
      ensures sz == FittingPoints(buckets, maxPoints)
    {
      sz := 0;
      var i := |buckets|;
      assert buckets[..i] == buckets;
      while i > 0
        invariant 0 <= i <= |buckets| && sz <= maxPoints
        invariant sz + FittingPoints(buckets[..i], maxPoints - sz) == FittingPoints(buckets, maxPoints)
      {
        i := i - 1;
        assert buckets[..i + 1][..i] == buckets[..i];
        var next := sz + Size(buckets[i]);
        if next > maxPoints {
          return sz;
        }
        sz := next;
      }
    }

    /** The ids listed so far sit, with their vectors, at their shuffled places, and are
        exactly those that became valid. */
    ghost predicate Marshalled(permutation: seq<nat>, points: seq<nat>, vectors: seq<Vector>, listed: seq<nat>,
        was: set<nat>, now: set<nat>)
    {
      && |listed| <= |permutation| == |points| == |vectors|
      && Distinct(permutation) && (forall c :: 0 <= c < |permutation| ==> permutation[c] < |permutation|)
      && Distinct(listed)
      && was <= now && |now| == |was| + |listed|
      && (forall id :: id in listed <==> id in now && id !in was)
      && (forall c :: 0 <= c < |listed| ==> listed[c] < |data|)
      && (forall c :: 0 <= c < |listed| ==>
          points[permutation[c]] == listed[c] && vectors[permutation[c]] == data[listed[c]])
    }

    lemma MarshalOne(permutation: seq<nat>, points: seq<nat>, vectors: seq<Vector>, listed: seq<nat>,
        was: set<nat>, now: set<nat>, id: nat)
      requires Marshalled(permutation, points, vectors, listed, was, now)
      requires |listed| < |permutation| && id !in now && id < |data|
      ensures var dest := permutation[|listed|];
        Marshalled(permutation, points[dest := id], vectors[dest := data[id]], listed + [id], was, now + {id})
    {
      var dest := permutation[|listed|];
      forall c | 0 <= c < |listed| ensures permutation[c] != dest && listed[c] != id {
        assert listed[c] in listed;
      }
    }

    /** The body of the loop over the ids of one bucket. */
    method MarshalId(id: nat, permutation: seq<nat>, points: array<nat>, vectors: array<Vector>,
        ghost listed: seq<nat>, ghost was: set<nat>, count: nat)
      requires Marshalled(permutation, points[..], vectors[..], listed, was, valid)
      requires |listed| == count < |permutation| && id !in valid && id < |data|
      modifies this`valid, points, vectors
      ensures valid == old(valid) + {id}
      ensures Marshalled(permutation, points[..], vectors[..], listed + [id], was, valid)
    {
      MarshalOne(permutation, points[..], vectors[..], listed, was, valid, id);
      ghost var (ps, vs) := (points[..], vectors[..]);
      valid := valid + {id};
      var dest := permutation[count];
      points[dest] := id;
      vectors[dest] := data[id];
      assert points[..] == ps[dest := id] && vectors[..] == vs[dest := data[id]];
    }

    /** The loop over the ids of one bucket. */
    method MarshalBucket(b: Bucket, permutation: seq<nat>, points: array<nat>, vectors: array<Vector>, count: nat,
        ghost listed: seq<nat>, ghost was: set<nat>) returns (count': nat, ghost listed': seq<nat>)
      requires b.first <= b.last <= |data| && count + Size(b) <= |permutation|
      requires Marshalled(permutation, points[..], vectors[..], listed, was, valid) && |listed| == count
      requires forall id: nat :: b.Has(id) ==> id !in valid
      modifies this`valid, points, vectors
      ensures count' == count + Size(b) == |listed'|
      ensures valid == old(valid) + Range(b.first, b.last)
      ensures Marshalled(permutation, points[..], vectors[..], listed', was, valid)
    {
      hide Marshalled, Range;
      EmptyRange(b.first);
      count', listed' := count, listed;
      for id: nat := b.first to b.last
        invariant count' == count + (id - b.first) == |listed'|
        invariant valid == old(valid) + Range(b.first, id)
        invariant Marshalled(permutation, points[..], vectors[..], listed', was, valid)
      {
        assert b.Has(id);
        RangeOneMore(b.first, id);
        MarshalId(id, permutation, points, vectors, listed', was, count');
        listed' := listed' + [id];
        count' := count' + 1;
      }
    }

    /** Move the back bucket of the reserve into the dataset. */
    method AddBackBucket(back: Bucket, permutation: seq<nat>, points: array<nat>, vectors: array<Vector>, count: nat,
        ghost listed: seq<nat>, ghost was: set<nat>) returns (count': nat, ghost listed': seq<nat>)
      requires Balanced() && reserveBuckets != [] && back == reserveBuckets[|reserveBuckets| - 1]
      requires back.first < back.last <= |data| && forall id: nat :: back.Has(id) ==> id !in valid
      requires Marshalled(permutation, points[..], vectors[..], listed, was, valid) && |listed| == count
      requires count + Size(back) <= |permutation|
      modifies this, points, vectors
      ensures Balanced()
      ensures reserveBuckets == old(reserveBuckets)[..|old(reserveBuckets)| - 1]
      ensures bucketsInDataset == old(bucketsInDataset) + [back]
      ensures count' == count + Size(back) == |listed'|
      ensures Marshalled(permutation, points[..], vectors[..], listed', was, valid)
    {
      MoveKeepsPool(reserveBuckets, bucketsInDataset, back);
      IdsOfOneMore(bucketsInDataset, back);
      count', listed' := MarshalBucket(back, permutation, points, vectors, count, listed, was);
      bucketsInDataset := bucketsInDataset + [back];
      reserveBuckets := reserveBuckets[..|reserveBuckets| - 1];
    }

    /** All places taken: the result lists each new id once, with its vector. */
    lemma AllMarshalled(permutation: seq<nat>, points: seq<nat>, vectors: seq<Vector>, listed: seq<nat>,
        was: set<nat>, now: set<nat>)
      requires Marshalled(permutation, points, vectors, listed, was, now) && |listed| == |permutation|
      requires forall j: nat :: j < |permutation| ==> Hits(permutation, j)
      ensures Distinct(points)
      ensures forall j :: 0 <= j < |points| ==> points[j] < |data| && vectors[j] == data[points[j]]
      ensures forall id :: id in points <==> id in now && id !in was
    {
      forall j: nat | j < |points|
        ensures points[j] < |data| && vectors[j] == data[points[j]] && points[j] in listed
      {
        assert Hits(permutation, j);
      }
      forall i, j | 0 <= i < j < |points| ensures points[i] != points[j] {
        assert Hits(permutation, i) && Hits(permutation, j);
      }
      forall id | id in listed ensures id in points {
        var c :| 0 <= c < |listed| && listed[c] == id;
        assert points[permutation[c]] == id;
      }
    }

    /** The loop over the reserve: it takes exactly the buckets `get_num_points` counted, so
        neither the early exit nor the mismatch exception after it can happen. */
    method MarshalPoints(permutation: seq<nat>, points: array<nat>, vectors: array<Vector>, ghost cap: nat)
      returns (ghost listed: seq<nat>, ghost room: nat)
      requires Valid() && FittingPoints(reserveBuckets, cap) == |permutation|
      requires Marshalled(permutation, points[..], vectors[..], [], valid, valid)
      modifies this, points, vectors
      ensures Valid() && old(bucketsInDataset) <= bucketsInDataset
      ensures |listed| == |permutation| && room == cap - |permutation| && FittingPoints(reserveBuckets, room) == 0
      ensures Marshalled(permutation, points[..], vectors[..], listed, old(valid), valid)
    {
      var numPoints := |permutation|;
      var count := 0;
      listed, room := [], cap;
      while reserveBuckets != [] && count != numPoints
        invariant Valid() && old(bucketsInDataset) <= bucketsInDataset
        invariant |listed| == count <= numPoints && room + count == cap
        invariant Marshalled(permutation, points[..], vectors[..], listed, old(valid), valid)
        invariant FittingPoints(reserveBuckets, room) == numPoints - count
        decreases |reserveBuckets|
      {
        var back := reserveBuckets[|reserveBuckets| - 1];
        ghost var (rest, room') := (reserveBuckets[..|reserveBuckets| - 1], room - Size(back));
        FittingStep(reserveBuckets, room, rest, back, room');
        if count + Size(back) > numPoints {
          assert false;
          break;
        }
        BackBucketIsNew(back);
        count, listed := AddBackBucket(back, permutation, points, vectors, count, listed, old(valid));
        room := room';
      }
      if count != numPoints {
        assert false;
      }
    }

    /** `generate`: move whole reserve buckets into the dataset and hand out their vectors in
        a shuffled order. */
    method Generate(maxPoints: nat) returns (r: Generated)
      requires Valid()
      modifies this
      ensures Valid()
      ensures old(bucketsInDataset) <= bucketsInDataset && old(valid) <= valid
      ensures r.NothingToAdd? ==> bucketsInDataset == old(bucketsInDataset) && NoneFits(reserveBuckets, maxPoints)
      ensures r.Generated? ==>
        && 0 < |r.points| == |r.vectors| <= maxPoints
        && Distinct(r.points)
        && (forall j :: 0 <= j < |r.points| ==> r.points[j] < |data| && r.vectors[j] == data[r.points[j]])
        && (forall id :: id in r.points <==> id in valid && id !in old(valid))
        && NoneFits(reserveBuckets, maxPoints - |r.points|)
    {
      ValidWithin();
      var cap := Min(maxPoints, |data| - |valid|);
      reserveBuckets := Shuffle(reserveBuckets);
      var numPoints := GetNumPoints(reserveBuckets, cap);
      if numPoints == 0 {
        CapIsMaximum(maxPoints, cap, 0);
        return NothingToAdd;
      }
      var permutation := Shuffle(Iota(numPoints));
      PermutedIota(numPoints, permutation);
      var points, vectors := new nat[numPoints], new Vector[numPoints](_ => []);
      ghost var listed, room := MarshalPoints(permutation, points, vectors, cap);
      AllMarshalled(permutation, points[..], vectors[..], listed, old(valid), valid);
      CapIsMaximum(maxPoints, room, numPoints);
      return Generated(vectors[..], points[..]);
    }

    // ----- Deleting

    /** Take the ids of one bucket out of `valid`. */
    method EraseIds(first: nat, last: nat)
      requires first <= last
      modifies this`valid
      ensures valid == old(valid) - Range(first, last)
    {
      hide Range;
      EmptyRange(first);
      for id: nat := first to last
        invariant valid == old(valid) - Range(first, id)
      {
        RangeOneMore(first, id);
        valid := valid - {id};
      }
    }

    /** Move the back bucket of the dataset into the reserve, listing its ids. */
    method RemoveBackBucket(back: Bucket, ghost kept: set<nat>) returns (ids: seq<nat>)
      requires Balanced() && bucketsInDataset != [] && back == bucketsInDataset[|bucketsInDataset| - 1]
      requires back.first <= back.last
      requires kept == Ids(bucketsInDataset[..|bucketsInDataset| - 1])
      requires kept !! Range(back.first, back.last) && valid == kept + Range(back.first, back.last)
      modifies this
      ensures Balanced()
      ensures bucketsInDataset == old(bucketsInDataset)[..|old(bucketsInDataset)| - 1]
      ensures |ids| == Size(back) && Distinct(ids)
      ensures valid <= old(valid) && forall id :: id in ids <==> id in old(valid) && id !in valid
    {
      MoveKeepsPool(bucketsInDataset, reserveBuckets, back);
      ids := IdSequence(back.first, back.last);
      EraseIds(back.first, back.last);
      reserveBuckets := reserveBuckets + [back];
      bucketsInDataset := bucketsInDataset[..|bucketsInDataset| - 1];
    }

    lemma BackBucketLeaves(back: Bucket)
      requires Valid() && bucketsInDataset != [] && back == bucketsInDataset[|bucketsInDataset| - 1]
      ensures back.first < back.last
      ensures var kept := Ids(bucketsInDataset[..|bucketsInDataset| - 1]);
        kept !! Range(back.first, back.last) && valid == kept + Range(back.first, back.last)
    {
      var init := bucketsInDataset[..|bucketsInDataset| - 1];
      assert bucketsInDataset == init + [back];
      assert back in pool;
      assert multiset(init) + multiset{back} <= pool;
      forall id | id in Range(back.first, back.last) ensures id !in Ids(init) {
        NoShare(pool, |data|, init, back, id);
      }
    }

    /** The loop over the dataset: it takes exactly the buckets `get_num_points` counted, so
        the mismatch exception after it cannot happen. */
    method CollectPoints(numPoints: nat, ghost cap: nat) returns (points: seq<nat>, ghost room: nat)
      requires Valid() && FittingPoints(bucketsInDataset, cap) == numPoints
      modifies this
      ensures Valid()
      ensures |points| == numPoints && room == cap - numPoints && FittingPoints(bucketsInDataset, room) == 0
      ensures Distinct(points)
      ensures valid <= old(valid) && forall id :: id in points <==> id in old(valid) && id !in valid
    {
      points, room := [], cap;
      while |points| < numPoints && bucketsInDataset != []
        invariant Valid() && Distinct(points)
        invariant |points| <= numPoints && room + |points| == cap
        invariant valid <= old(valid) && forall id :: id in points <==> id in old(valid) && id !in valid
        invariant FittingPoints(bucketsInDataset, room) == numPoints - |points|
        decreases |bucketsInDataset|
      {
        var back := bucketsInDataset[|bucketsInDataset| - 1];
        ghost var (rest, room') := (bucketsInDataset[..|bucketsInDataset| - 1], room - Size(back));
        FittingStep(bucketsInDataset, room, rest, back, room');
        BackBucketLeaves(back);
        var ids := RemoveBackBucket(back, Ids(rest));
        DistinctAppend(points, ids);
        points := points + ids;
        room := room';
      }
      if |points| != numPoints {
        assert false;
      }
    }

    /** `get_delete_points`: move whole buckets back to the reserve and list their ids in a
        shuffled order. The cap is all the valid ids, so the dataset is emptied exactly when
        the caller allows as many. */
    method GetDeletePoints(maxPoints: nat) returns (r: Deleted)
      requires Valid()
      modifies this
      ensures Valid() && valid <= old(valid)
      ensures valid == {} <==> maxPoints >= |old(valid)|
      ensures r.NothingToDelete? ==> valid == old(valid) && NoneFits(bucketsInDataset, maxPoints)
      ensures r.Deleted? ==>
        && 0 < |r.points| <= maxPoints
        && Distinct(r.points)
        && (forall id :: id in r.points <==> id in old(valid) && id !in valid)
        && NoneFits(bucketsInDataset, maxPoints - |r.points|)
    {
      var cap := Min(maxPoints, |valid|);
      var shuffled := Shuffle(bucketsInDataset);
      IdsOfPermutation(shuffled, bucketsInDataset);
      bucketsInDataset := shuffled;
      var numPoints := GetNumPoints(bucketsInDataset, cap);
      if numPoints == 0 {
        DeleteCapIsMaximum(maxPoints, cap, 0);
        EmptiedIff(maxPoints, |valid|, 0);
        return NothingToDelete;
      }
      ghost var room;
      var points;
      points, room := CollectPoints(numPoints, cap);
      var order := Shuffle(points);
      DistinctPermuted(points, order);
      DifferenceSize(old(valid), valid, points);
      DeleteCapIsMaximum(maxPoints, room, numPoints);
      EmptiedIff(maxPoints, |old(valid)|, numPoints);
      return Deleted(order);
    }

    /** Nothing is left exactly when as many points may be deleted as there were. */
    lemma EmptiedIff(maxPoints: nat, before: nat, count: nat)
      requires Valid() && NoneFits(bucketsInDataset, maxPoints - count)
      requires count <= maxPoints && |valid| + count == before
      ensures valid == {} <==> maxPoints >= before
    {
      if bucketsInDataset != [] {
        var back := bucketsInDataset[|bucketsInDataset| - 1];
        BackBucketLeaves(back);
        RangeWithin(Ids(bucketsInDataset[..|bucketsInDataset| - 1]), back.first, back.last);
      }
    }

    lemma DeleteCapIsMaximum(maxPoints: nat, room: nat, count: nat)
      requires Valid() && room + count == Min(maxPoints, |valid| + count)
      requires FittingPoints(bucketsInDataset, room) == 0
      ensures NoneFits(bucketsInDataset, maxPoints - count)
    {
      if bucketsInDataset != [] {
        var back := bucketsInDataset[|bucketsInDataset| - 1];
        BackBucketLeaves(back);
      }
    }
  }

  lemma RangeWithin(kept: set<nat>, first: nat, last: nat)
    requires first < last && kept !! Range(first, last)
    ensures |kept + Range(first, last)| == |kept| + last - first
  {
  }

  /** A dataset of one point that is added: one call may take it out again, with nothing left. */
  method OnlyPointGoes(x: Vector, c: Compare, ghost dist: (nat, nat) -> real, numNeighbors: nat, numQueries: nat,
      search: (nat, nat) -> seq<seq<Neighbor>>) returns (d: ReferenceDataset, r: Deleted)
    requires SearchesViews(search, c, numNeighbors, numQueries, dist, 1, 1)
    ensures d.Valid() && d.valid == {} && r.Deleted? && |r.points| == 1
  {
    d := new ReferenceDataset([x], c, dist, 1, numNeighbors, numQueries, search);
    d.ReserveFits();
    var added := d.Generate(1);
    assert added.points[0] in added.points;
    d.ValidWithin();
    r := d.GetDeletePoints(1);
  }

  lemma DistinctAppend(a: seq<nat>, b: seq<nat>)
    requires Distinct(a) && Distinct(b) && forall x :: x in b ==> x !in a
    ensures Distinct(a + b)
    ensures forall x :: x in a + b <==> x in a || x in b
  {
    forall i, j | 0 <= i < j < |a + b| ensures (a + b)[i] != (a + b)[j] {
      if i < |a| <= j {
        assert (a + b)[j] in b;
      }
    }
  }

  function IdSequence(first: nat, last: nat): (ids: seq<nat>)
    requires first <= last
    ensures |ids| == last - first && (forall i :: 0 <= i < |ids| ==> ids[i] == first + i) && Distinct(ids)
    ensures forall id: nat :: id in ids <==> id in Range(first, last)
    decreases last
  {
    if first == last then [] else IdSequence(first, last - 1) + [last - 1]
  }

  lemma {:induction false} DifferenceSize(was: set<nat>, now: set<nat>, gone: seq<nat>)
    requires now <= was && Distinct(gone) && forall id :: id in gone <==> id in was && id !in now
    ensures |was| == |now| + |gone|
    decreases |gone|
  {
    if gone == [] {
      assert was == now;
    } else {
      var last := |gone| - 1;
      assert gone == gone[..last] + [gone[last]];
      DifferenceSize(was, now + {gone[last]}, gone[..last]);
    }
  }

  /** The loop that unpacks a query result, counting ids from the start of the data. */
  method RenumberRows(found: seq<seq<Neighbor>>, first: nat) returns (rows: seq<seq<Neighbor>>)
    ensures rows == RenumberedRows(found, first)
  {
    rows := [];
    for i := 0 to |found|
      invariant rows == RenumberedRows(found[..i], first)
    {
      var row: seq<Neighbor> := [];
      for j := 0 to |found[i]|
        invariant row == Renumbered(found[i][..j], first)
      {
        row := row + [Neighbor(ParentId(first, found[i][j].id), found[i][j].distance)];
      }
      assert found[i][..|found[i]|] == found[i];
      rows := rows + [row];
    }
    assert found[..|found|] == found;
  }

  function IdsOf(row: seq<Neighbor>): seq<nat> {
    seq(|row|, j requires 0 <= j < |row| => row[j].id)
  }

  /** Entry by entry, the ids and the distances of a row. */
  ghost predicate Unzips(ids: seq<nat>, distances: seq<real>, row: seq<Neighbor>) {
    && |ids| == |distances| == |row|
    && forall j :: 0 <= j < |row| ==> ids[j] == row[j].id && distances[j] == row[j].distance
  }

  lemma RowUnzips(row: seq<Neighbor>)
    ensures Unzips(IdsOf(row), DistancesOf(row), row)
  {
  }

  function DistancesOf(row: seq<Neighbor>): seq<real> {
    seq(|row|, j requires 0 <= j < |row| => row[j].distance)
  }
}
