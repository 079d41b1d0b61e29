/** Minibatch k-means (include/svs/core/kmeans.h) over exact reals. */
module KMeans {
  import opened Algorithms
  import opened Arithmetic
  import opened Vectors
  import opened Neighbors
  import Threads

  // ----- The nearest centroid

  /** The nearest of the first `n` centroids, or the sentinel when none beats it. */
  function NearestOf(query: Vector, centroids: seq<Vector>, n: nat): Neighbor
    requires n <= |centroids| && forall k :: 0 <= k < |centroids| ==> |centroids[k]| == |query|
  {
    if n == 0 then Sentinel(Less)
    else
      var nearest := NearestOf(query, centroids, n - 1);
      var next := Neighbor(n - 1, SquaredDistance(query, centroids[n - 1]));
      if Better(Less, next, nearest) then next else nearest
  }

  /** `find_nearest`. */
  method FindNearest(query: Vector, centroids: seq<Vector>) returns (nearest: Neighbor)
    requires forall k :: 0 <= k < |centroids| ==> |centroids[k]| == |query|
    ensures nearest == NearestOf(query, centroids, |centroids|)
  {
    nearest := Sentinel(Less);
    for i := 0 to |centroids|
      invariant nearest == NearestOf(query, centroids, i)
    {
      var next := Neighbor(i, SquaredDistance(query, centroids[i]));
      if Better(Less, next, nearest) {
        nearest := next;
      }
    }
  }

  /** The nearest centroid is the first of those at the least distance; there is none exactly
      when no distance is below the largest `float`. */
  lemma {:induction false} NearestIsFirstLeast(query: Vector, centroids: seq<Vector>, n: nat)
    requires n <= |centroids| <= ID_MAX && forall k :: 0 <= k < |centroids| ==> |centroids[k]| == |query|
    ensures var best := NearestOf(query, centroids, n);
      && (best.id < n || best == Sentinel(Less))
      && (best.id < n ==> best.distance == SquaredDistance(query, centroids[best.id]) < FLOAT_MAX)
      && (forall k :: 0 <= k < n ==> best.distance <= SquaredDistance(query, centroids[k]))
      && (forall k :: 0 <= k < n && k < best.id < n ==> best.distance < SquaredDistance(query, centroids[k]))
  {
    if n > 0 {
      NearestIsFirstLeast(query, centroids, n - 1);
    }
  }

  // ----- Moving one centroid

  /** The centroids with their running and their fresh counts. */
  datatype Clusters = Clusters(centroids: seq<Vector>, counts: seq<int>, oldCounts: seq<int>)

  predicate Shaped(c: Clusters, dims: nat) {
    && |c.counts| == |c.oldCounts| == |c.centroids|
    && (forall k :: 0 <= k < |c.centroids| ==> |c.centroids[k]| == dims)
    && (forall k :: 0 <= k < |c.counts| ==> c.counts[k] >= 0 && c.oldCounts[k] >= 0)
  }

  function BlendAt(lr: real, c: real, x: real): real {
    (1.0 - lr) * c + lr * x
  }

  /** The centroid moved towards `x` at the rate of one over its new count. */
  function Blend(c: Vector, x: Vector, count: int): (r: Vector)
    requires |c| == |x| && count > 0
    ensures |r| == |c|
  {
    var lr := 1.0 / count as real;
    seq(|c|, p requires 0 <= p < |c| => BlendAt(lr, c[p], x[p]))
  }

  function Assign(c: Clusters, x: Vector, a: nat): (r: Clusters)
    requires Shaped(c, |x|) && a < |c.centroids|
    ensures Shaped(r, |x|) && |r.centroids| == |c.centroids|
  {
    Clusters(c.centroids[a := Blend(c.centroids[a], x, c.counts[a] + 1)], c.counts[a := c.counts[a] + 1],
      c.oldCounts[a := c.oldCounts[a] + 1])
  }

  predicate DataShaped(data: seq<Vector>, dims: nat) {
    forall i :: 0 <= i < |data| ==> |data[i]| == dims
  }

  predicate Assignable(assignments: seq<nat>, n: nat, clusters: nat) {
    n <= |assignments| && forall i :: 0 <= i < n ==> assignments[i] < clusters
  }

  /** The first `n` data assigned one after the other. */
  function Assigned(c: Clusters, data: seq<Vector>, assignments: seq<nat>, n: nat, dims: nat): (r: Clusters)
    requires Shaped(c, dims) && DataShaped(data, dims) && n <= |data| && Assignable(assignments, n, |c.centroids|)
    ensures Shaped(r, dims) && |r.centroids| == |c.centroids|
  {
    if n == 0 then c else Assign(Assigned(c, data, assignments, n - 1, dims), data[n - 1], assignments[n - 1])
  }

  // ----- What the assignments add up to

  /** Coordinate `p` of the sum of the first `n` data assigned to cluster `k`. */
  function SumAt(data: seq<Vector>, assignments: seq<nat>, n: nat, k: nat, p: nat): real
    requires n <= |data| && n <= |assignments| && forall i :: 0 <= i < n ==> p < |data[i]|
  {
    if n == 0 then 0.0
    else SumAt(data, assignments, n - 1, k, p) + if assignments[n - 1] == k then data[n - 1][p] else 0.0
  }

  function CountAt(assignments: seq<nat>, n: nat, k: nat): nat
    requires n <= |assignments|
  {
    if n == 0 then 0 else CountAt(assignments, n - 1, k) + if assignments[n - 1] == k then 1 else 0
  }

  function SumOf(s: seq<int>): int {
    if s == [] then 0 else SumOf(s[..|s| - 1]) + s[|s| - 1]
  }

  /** Count times centroid. */
  function Weight(c: Clusters, k: nat, p: nat): real
    requires k < |c.centroids| == |c.counts| && p < |c.centroids[k]|
  {
    c.counts[k] as real * c.centroids[k][p]
  }

  lemma BlendWeight(c: real, x: real, n: real, lr: real)
    requires n > 0.0 && lr == 1.0 / n
    ensures n * ((1.0 - lr) * c + lr * x) == (n - 1.0) * c + x
  {
    assert n * lr == 1.0;
    assert n * ((1.0 - lr) * c) == (n - n * lr) * c;
    assert n * (lr * x) == (n * lr) * x;
  }

  lemma AssignAddsWeight(c: Clusters, x: Vector, a: nat, k: nat, p: nat)
    requires Shaped(c, |x|) && a < |c.centroids| && k < |c.centroids| && p < |x|
    ensures Weight(Assign(c, x, a), k, p) == Weight(c, k, p) + if a == k then x[p] else 0.0
  {
    if a == k {
      var n := (c.counts[a] + 1) as real;
      BlendWeight(c.centroids[a][p], x[p], n, 1.0 / n);
      assert n - 1.0 == c.counts[a] as real;
    }
  }

  /** Count times centroid changes by exactly the sum of the data assigned. */
  lemma {:induction false} AssignedConserves(c: Clusters, data: seq<Vector>, assignments: seq<nat>, n: nat, dims: nat,
      k: nat, p: nat)
    requires Shaped(c, dims) && DataShaped(data, dims) && n <= |data| && Assignable(assignments, n, |c.centroids|)
    requires k < |c.centroids| && p < dims
    ensures var r := Assigned(c, data, assignments, n, dims);
      Weight(r, k, p) == Weight(c, k, p) + SumAt(data, assignments, n, k, p)
  {
    if n > 0 {
      AssignedConserves(c, data, assignments, n - 1, dims, k, p);
      AssignAddsWeight(Assigned(c, data, assignments, n - 1, dims), data[n - 1], assignments[n - 1], k, p);
    }
  }

  /** Both counts of a cluster change by the number of data assigned to it. */
  lemma {:induction false} AssignedCountsEach(c: Clusters, data: seq<Vector>, assignments: seq<nat>, n: nat,
      dims: nat, k: nat)
    requires Shaped(c, dims) && DataShaped(data, dims) && n <= |data| && Assignable(assignments, n, |c.centroids|)
    requires k < |c.centroids|
    ensures var r := Assigned(c, data, assignments, n, dims);
      && r.counts[k] == c.counts[k] + CountAt(assignments, n, k)
      && r.oldCounts[k] == c.oldCounts[k] + CountAt(assignments, n, k)
  {
    if n > 0 {
      AssignedCountsEach(c, data, assignments, n - 1, dims, k);
    }
  }

  lemma {:induction false} SumOfUpdate(s: seq<int>, k: nat)
    requires k < |s|
    ensures SumOf(s[k := s[k] + 1]) == SumOf(s) + 1
  {
    var last := |s| - 1;
    if k == last {
      assert s[k := s[k] + 1][..last] == s[..last];
    } else {
      SumOfUpdate(s[..last], k);
      assert s[k := s[k] + 1][..last] == s[..last][k := s[k] + 1];
    }
  }

  lemma AssignCountsOne(c: Clusters, x: Vector, a: nat)
    requires Shaped(c, |x|) && a < |c.centroids|
    ensures SumOf(Assign(c, x, a).oldCounts) == SumOf(c.oldCounts) + 1
  {
    SumOfUpdate(c.oldCounts, a);
  }

  lemma {:induction false} AssignedCounts(c: Clusters, data: seq<Vector>, assignments: seq<nat>, n: nat, dims: nat)
    requires Shaped(c, dims) && DataShaped(data, dims) && n <= |data| && Assignable(assignments, n, |c.centroids|)
    ensures SumOf(Assigned(c, data, assignments, n, dims).oldCounts) == SumOf(c.oldCounts) + n
  {
    if n > 0 {
      AssignedCounts(c, data, assignments, n - 1, dims);
      AssignCountsOne(Assigned(c, data, assignments, n - 1, dims), data[n - 1], assignments[n - 1]);
    }
  }

  // ----- One batch

  ghost function Now(centroids: array<Vector>, counts: array<int>, oldCounts: array<int>): Clusters
    reads centroids, counts, oldCounts
  {
    Clusters(centroids[..], counts[..], oldCounts[..])
  }

  /** The ids of the nearest centroids, found in any order. */
  method GenerateAssignments(data: seq<Vector>, centroids: seq<Vector>, dims: nat) returns (assignments: seq<nat>)
    requires DataShaped(data, dims) && DataShaped(centroids, dims)
    ensures |assignments| == |data|
    ensures forall i :: 0 <= i < |data| ==> assignments[i] == NearestOf(data[i], centroids, |centroids|).id
  {
    assignments := seq(|data|, _ => 0);
    var remaining := Threads.Indices(|data|);
    while remaining != {}
      invariant |assignments| == |data|
      invariant forall i :: i in remaining ==> 0 <= i < |data|
      invariant forall i :: 0 <= i < |data| && i !in remaining ==>
        assignments[i] == NearestOf(data[i], centroids, |centroids|).id
      decreases remaining
    {
      var i :| i in remaining;
      var nearest := FindNearest(data[i], centroids);
      assignments := assignments[i := nearest.id];
      remaining := remaining - {i};
    }
  }

  /** The loop over the coordinates. */
  method MoveCentroid(c: Vector, x: Vector, count: int) returns (r: Vector)
    requires |c| == |x| && count > 0
    ensures r == Blend(c, x, count)
  {
    var lr := 1.0 / count as real;
    r := c;
    for p := 0 to |c|
      invariant |r| == |c|
      invariant forall l :: 0 <= l < |c| ==> r[l] == if l < p then BlendAt(lr, c[l], x[l]) else c[l]
    {
      r := r[p := BlendAt(lr, r[p], x[p])];
    }
  }

  /** Count one datum and move its centroid. */
  method AssignDatum(x: Vector, a: nat, centroids: array<Vector>, counts: array<int>, oldCounts: array<int>)
    requires Shaped(Now(centroids, counts, oldCounts), |x|) && a < centroids.Length
    requires counts != oldCounts
    modifies centroids, counts, oldCounts
    ensures Now(centroids, counts, oldCounts) == Assign(old(Now(centroids, counts, oldCounts)), x, a)
  {
    ghost var was := Now(centroids, counts, oldCounts);
    oldCounts[a] := oldCounts[a] + 1;
    counts[a] := counts[a] + 1;
    centroids[a] := MoveCentroid(centroids[a], x, counts[a]);
    assert centroids[..] == was.centroids[a := Blend(was.centroids[a], x, was.counts[a] + 1)];
    assert counts[..] == was.counts[a := was.counts[a] + 1];
    assert oldCounts[..] == was.oldCounts[a := was.oldCounts[a] + 1];
  }

  /** The second loop of `process_batch`. False stands for the range exception of `counts.at`,
      thrown at the first datum with no nearest centroid, after those before it are assigned. */
  method AdjustCentroids(data: seq<Vector>, assignments: seq<nat>, centroids: array<Vector>, counts: array<int>,
      oldCounts: array<int>, dims: nat) returns (ok: bool, stop: nat)
    requires Shaped(Now(centroids, counts, oldCounts), dims) && DataShaped(data, dims)
    requires counts != oldCounts && |assignments| == |data|
    modifies centroids, counts, oldCounts
    ensures stop <= |data| && Assignable(assignments, stop, centroids.Length)
    ensures ok <==> stop == |data|
    ensures !ok ==> assignments[stop] >= centroids.Length
    ensures Now(centroids, counts, oldCounts)
      == Assigned(old(Now(centroids, counts, oldCounts)), data, assignments, stop, dims)
  {
    ghost var was := Now(centroids, counts, oldCounts);
    for i := 0 to |data|
      invariant Assignable(assignments, i, centroids.Length)
      invariant Now(centroids, counts, oldCounts) == Assigned(was, data, assignments, i, dims)
    {
      var a := assignments[i];
      if a >= counts.Length {
        return false, i;
      }
      AssignDatum(data[i], a, centroids, counts, oldCounts);
    }
    return true, |data|;
  }

  /** `process_batch`: every datum goes to the centroid that was nearest when the batch began. */
  method ProcessBatch(data: seq<Vector>, centroids: array<Vector>, counts: array<int>, oldCounts: array<int>, dims: nat)
    returns (ok: bool, assignments: seq<nat>, stop: nat)
    requires Shaped(Now(centroids, counts, oldCounts), dims) && DataShaped(data, dims)
    requires counts != oldCounts
    modifies centroids, counts, oldCounts
    ensures |assignments| == |data| && forall i :: 0 <= i < |data| ==>
      assignments[i] == NearestOf(data[i], old(centroids[..]), centroids.Length).id
    ensures stop <= |data| && Assignable(assignments, stop, centroids.Length)
    ensures ok <==> stop == |data|
    ensures !ok ==> assignments[stop] >= centroids.Length
    ensures Now(centroids, counts, oldCounts)
      == Assigned(old(Now(centroids, counts, oldCounts)), data, assignments, stop, dims)
  {
    assignments := GenerateAssignments(data, centroids[..], dims);
    ok, stop := AdjustCentroids(data, assignments, centroids, counts, oldCounts, dims);
  }

  // ----- One epoch

  function BatchStart(i: nat, batchSize: nat): (start: nat)
    requires batchSize > 0
    ensures start <= i
  {
    i - i % batchSize
  }

  /** The multiple of the size of a minibatch that `i` is less than one minibatch beyond. */
  lemma BatchBegins(i: nat, batchSize: nat)
    requires batchSize > 0
    ensures BatchStart(i, batchSize) == i / batchSize * batchSize <= i < BatchStart(i, batchSize) + batchSize
  {
  }

  /** Datum `i` was assigned against the centroids as they were when its minibatch began. */
  ghost predicate FrozenAt(c: Clusters, data: seq<Vector>, assignments: seq<nat>, i: nat, batchSize: nat, dims: nat)
    requires batchSize > 0 && Shaped(c, dims) && DataShaped(data, dims)
    requires i < |data| && i < |assignments| && Assignable(assignments, i, |c.centroids|)
  {
    assignments[i] ==
      NearestOf(data[i], Assigned(c, data, assignments, BatchStart(i, batchSize), dims).centroids, |c.centroids|).id
  }

  ghost predicate AssignedFrozen(c: Clusters, data: seq<Vector>, assignments: seq<nat>, n: nat, batchSize: nat,
      dims: nat)
    requires batchSize > 0 && Shaped(c, dims) && DataShaped(data, dims)
    requires n <= |data| && Assignable(assignments, n, |c.centroids|)
  {
    forall i {:trigger FrozenAt(c, data, assignments, i, batchSize, dims)} :: 0 <= i < n ==>
      FrozenAt(c, data, assignments, i, batchSize, dims)
  }

  lemma {:induction false} AssignedPrefix(c: Clusters, data: seq<Vector>, assignments: seq<nat>, more: seq<nat>,
      n: nat, dims: nat)
    requires Shaped(c, dims) && DataShaped(data, dims) && n <= |data| && Assignable(assignments, n, |c.centroids|)
    ensures Assigned(c, data, assignments + more, n, dims) == Assigned(c, data, assignments, n, dims)
  {
    if n > 0 {
      AssignedPrefix(c, data, assignments, more, n - 1, dims);
    }
  }

  /** A batch processed as a view of its own continues the assignment of the whole data. */
  lemma {:induction false} AssignedInBatches(c: Clusters, data: seq<Vector>, assignments: seq<nat>, view: seq<Vector>,
      batch: seq<nat>, m: nat, n: nat, dims: nat)
    requires Shaped(c, dims) && DataShaped(data, dims) && DataShaped(view, dims)
    requires n == |assignments| + m <= |data| && m <= |view|
    requires Assignable(assignments, |assignments|, |c.centroids|) && Assignable(batch, m, |c.centroids|)
    requires forall i :: 0 <= i < m ==> view[i] == data[|assignments| + i]
    ensures Assignable(assignments + batch, n, |c.centroids|)
    ensures Assigned(Assigned(c, data, assignments, |assignments|, dims), view, batch, m, dims)
         == Assigned(c, data, assignments + batch, n, dims)
  {
    if m == 0 {
      AssignedPrefix(c, data, assignments, batch, n, dims);
    } else {
      assert batch[m - 1] == (assignments + batch)[n - 1] && view[m - 1] == data[n - 1];
      AssignedInBatches(c, data, assignments, view, batch, m - 1, n - 1, dims);
    }
  }

  lemma FrozenStays(c: Clusters, data: seq<Vector>, assignments: seq<nat>, more: seq<nat>, i: nat, batchSize: nat,
      dims: nat)
    requires batchSize > 0 && Shaped(c, dims) && DataShaped(data, dims)
    requires i < |data| && i < |assignments| && Assignable(assignments, i, |c.centroids|)
    requires FrozenAt(c, data, assignments, i, batchSize, dims)
    ensures Assignable(assignments + more, i, |c.centroids|)
    ensures FrozenAt(c, data, assignments + more, i, batchSize, dims)
  {
    AssignedPrefix(c, data, assignments, more, BatchStart(i, batchSize), dims);
  }

  lemma FrozenOneMore(c: Clusters, data: seq<Vector>, assignments: seq<nat>, batch: seq<nat>, i: nat, batchSize: nat,
      dims: nat)
    requires batchSize > 0 && Shaped(c, dims) && DataShaped(data, dims)
    requires |assignments| <= i < |assignments + batch| <= |data| && BatchStart(i, batchSize) == |assignments|
    requires Assignable(assignments + batch, i, |c.centroids|) && Assignable(assignments, |assignments|, |c.centroids|)
    requires batch[i - |assignments|]
      == NearestOf(data[i], Assigned(c, data, assignments, |assignments|, dims).centroids, |c.centroids|).id
    ensures FrozenAt(c, data, assignments + batch, i, batchSize, dims)
  {
    AssignedPrefix(c, data, assignments, batch, |assignments|, dims);
  }

  lemma FrozenOneMoreBatch(c: Clusters, data: seq<Vector>, assignments: seq<nat>, batch: seq<nat>, view: seq<Vector>,
      q: nat, batchSize: nat, dims: nat)
    requires batchSize > 0 && Shaped(c, dims) && DataShaped(data, dims) && DataShaped(view, dims)
    requires |assignments| == q * batchSize && |batch| <= |view| <= batchSize && |assignments| + |view| <= |data|
    requires forall i :: 0 <= i < |view| ==> view[i] == data[|assignments| + i]
    requires Assignable(assignments, |assignments|, |c.centroids|) && Assignable(batch, |batch|, |c.centroids|)
    requires AssignedFrozen(c, data, assignments, |assignments|, batchSize, dims)
    requires forall i :: 0 <= i < |batch| ==>
      batch[i] == NearestOf(view[i], Assigned(c, data, assignments, |assignments|, dims).centroids, |c.centroids|).id
    ensures Assignable(assignments + batch, |assignments + batch|, |c.centroids|)
    ensures AssignedFrozen(c, data, assignments + batch, |assignments + batch|, batchSize, dims)
  {
    hide FrozenAt, NearestOf, Assigned;
    var all, lo := assignments + batch, |assignments|;
    forall i | 0 <= i < |all| ensures FrozenAt(c, data, all, i, batchSize, dims) {
      if i < lo {
        assert FrozenAt(c, data, assignments, i, batchSize, dims);
        FrozenStays(c, data, assignments, batch, i, batchSize, dims);
      } else {
        assert view[i - lo] == data[i];
        BatchStartIs(i, batchSize, q);
        FrozenOneMore(c, data, assignments, batch, i, batchSize, dims);
      }
    }
  }

  function Zeros(n: nat): (z: seq<int>)
    ensures |z| == n
  {
    seq(n, _ => 0)
  }

  /** What an epoch turns the clusters into: the fresh counts become the running ones. */
  function NextEpoch(c: Clusters, data: seq<Vector>, assignments: seq<nat>, dims: nat): (r: Clusters)
    requires Shaped(c, dims) && DataShaped(data, dims) && Assignable(assignments, |data|, |c.centroids|)
    ensures Shaped(r, dims) && |r.centroids| == |c.centroids|
  {
    var r := Assigned(c, data, assignments, |data|, dims);
    Clusters(r.centroids, r.oldCounts, Zeros(|r.centroids|))
  }

  /** The state after the data assigned so far. */
  ghost predicate Done(c: Clusters, data: seq<Vector>, assignments: seq<nat>, batchSize: nat, dims: nat,
      now: Clusters) {
    && batchSize > 0 && Shaped(c, dims) && DataShaped(data, dims)
    && |assignments| <= |data| && Assignable(assignments, |assignments|, |c.centroids|)
    && AssignedFrozen(c, data, assignments, |assignments|, batchSize, dims)
    && now == Assigned(c, data, assignments, |assignments|, dims)
  }

  /** The datum after those assigned has no nearest among the centroids frozen for it. */
  ghost predicate Stuck(c: Clusters, data: seq<Vector>, assignments: seq<nat>, batchSize: nat, dims: nat)
    requires batchSize > 0 && Shaped(c, dims) && DataShaped(data, dims)
    requires |assignments| <= |data| && Assignable(assignments, |assignments|, |c.centroids|)
  {
    && |assignments| < |data|
    && NearestOf(data[|assignments|],
        Assigned(c, data, assignments, BatchStart(|assignments|, batchSize), dims).centroids, |c.centroids|).id
      >= |c.centroids|
  }

  lemma NoneDone(c: Clusters, data: seq<Vector>, batchSize: nat, dims: nat)
    requires batchSize > 0 && Shaped(c, dims) && DataShaped(data, dims)
    ensures Done(c, data, [], batchSize, dims, c)
  {
  }

  /** The minibatch loop of one epoch: consecutive views that cover the data, up to the first
      datum without a nearest centroid. */
  method RunBatches(data: seq<Vector>, centroids: array<Vector>, counts: array<int>, oldCounts: array<int>, dims: nat,
      batchSize: nat)
    returns (ok: bool, ghost assignments: seq<nat>)
    requires Shaped(Now(centroids, counts, oldCounts), dims) && DataShaped(data, dims)
    requires counts != oldCounts && batchSize > 0
    modifies centroids, counts, oldCounts
    ensures Done(old(Now(centroids, counts, oldCounts)), data, assignments, batchSize, dims,
      Now(centroids, counts, oldCounts))
    ensures if ok then |assignments| == |data|
      else Stuck(old(Now(centroids, counts, oldCounts)), data, assignments, batchSize, dims)
  {
    ghost var was := Now(centroids, counts, oldCounts);
    assignments := [];
    var numBatches := DivRoundUp(|data|, batchSize);
    RoundUpCovers(|data|, batchSize);
    NoneDone(was, data, batchSize, dims);
    for b := 0 to numBatches
      invariant |assignments| == Min(b * batchSize, |data|)
      invariant Done(was, data, assignments, batchSize, dims, Now(centroids, counts, oldCounts))
    {
      var lo, hi := b * batchSize, Min((b + 1) * batchSize, |data|);
      assert lo < |data|;
      assert (b + 1) * batchSize == lo + batchSize;
      ok, assignments := RunBatch(data, centroids, counts, oldCounts, dims, batchSize, b, lo, hi, was, assignments);
      if !ok {
        return;
      }
    }
    ok := true;
  }

  /** The body of the minibatch loop. */
  method RunBatch(data: seq<Vector>, centroids: array<Vector>, counts: array<int>, oldCounts: array<int>, dims: nat,
      batchSize: nat, ghost b: nat, lo: nat, hi: nat, ghost was: Clusters, ghost assignments: seq<nat>)
    returns (ok: bool, ghost all: seq<nat>)
    requires Done(was, data, assignments, batchSize, dims, Now(centroids, counts, oldCounts))
    requires counts != oldCounts && |assignments| == lo == b * batchSize && lo < hi <= |data| && hi - lo <= batchSize
    modifies centroids, counts, oldCounts
    ensures Done(was, data, all, batchSize, dims, Now(centroids, counts, oldCounts))
    ensures if ok then |all| == hi else Stuck(was, data, all, batchSize, dims)
  {
    hide NearestOf, Assigned;
    ghost var before := Now(centroids, counts, oldCounts);
    var view, batch: seq<nat>, stop := data[lo..hi], [], 0;
    ok, batch, stop := ProcessBatch(view, centroids, counts, oldCounts, dims);
    all := assignments + batch[..stop];
    BatchRan(was, data, assignments, batch, stop, view, b, batchSize, dims, before);
  }

  lemma BatchRan(c: Clusters, data: seq<Vector>, assignments: seq<nat>, batch: seq<nat>, stop: nat, view: seq<Vector>,
      q: nat, batchSize: nat, dims: nat, before: Clusters)
    requires Done(c, data, assignments, batchSize, dims, before) && DataShaped(view, dims)
    requires |assignments| == q * batchSize && stop <= |batch| == |view| <= batchSize
      && |assignments| + |view| <= |data|
    requires forall i :: 0 <= i < |view| ==> view[i] == data[|assignments| + i]
    requires Assignable(batch, stop, |c.centroids|)
    requires forall i :: 0 <= i < |batch| ==> batch[i] == NearestOf(view[i], before.centroids, |c.centroids|).id
    ensures Done(c, data, assignments + batch[..stop], batchSize, dims, Assigned(before, view, batch, stop, dims))
    ensures stop < |batch| && batch[stop] >= |c.centroids| ==>
      Stuck(c, data, assignments + batch[..stop], batchSize, dims)
  {
    hide NearestOf, Assigned, AssignedFrozen, Stuck;
    var head := batch[..stop];
    AssignedPrefix(before, view, head, batch[stop..], stop, dims);
    assert head + batch[stop..] == batch;
    BatchDone(c, data, assignments, head, view, q, batchSize, dims, before);
    if stop < |batch| && batch[stop] >= |c.centroids| {
      BatchStuck(c, data, assignments, head, view, q, batchSize, dims, before);
    }
  }

  lemma BatchDone(c: Clusters, data: seq<Vector>, assignments: seq<nat>, batch: seq<nat>, view: seq<Vector>, q: nat,
      batchSize: nat, dims: nat, before: Clusters)
    requires Done(c, data, assignments, batchSize, dims, before) && DataShaped(view, dims)
    requires |assignments| == q * batchSize && |batch| <= |view| <= batchSize && |assignments| + |view| <= |data|
    requires forall i :: 0 <= i < |view| ==> view[i] == data[|assignments| + i]
    requires Assignable(batch, |batch|, |c.centroids|)
    requires forall i :: 0 <= i < |batch| ==> batch[i] == NearestOf(view[i], before.centroids, |c.centroids|).id
    ensures Done(c, data, assignments + batch, batchSize, dims, Assigned(before, view, batch, |batch|, dims))
  {
    AssignedInBatches(c, data, assignments, view, batch, |batch|, |assignments + batch|, dims);
    FrozenOneMoreBatch(c, data, assignments, batch, view, q, batchSize, dims);
  }

  lemma BatchStuck(c: Clusters, data: seq<Vector>, assignments: seq<nat>, batch: seq<nat>, view: seq<Vector>, q: nat,
      batchSize: nat, dims: nat, before: Clusters)
    requires Done(c, data, assignments, batchSize, dims, before) && DataShaped(view, dims)
    requires |assignments| == q * batchSize && |batch| < |view| <= batchSize && |assignments| + |view| <= |data|
    requires forall i :: 0 <= i < |view| ==> view[i] == data[|assignments| + i]
    requires Assignable(assignments + batch, |assignments + batch|, |c.centroids|)
    requires NearestOf(view[|batch|], before.centroids, |c.centroids|).id >= |c.centroids|
    ensures Stuck(c, data, assignments + batch, batchSize, dims)
  {
    BatchStartIs(|assignments + batch|, batchSize, q);
    AssignedPrefix(c, data, assignments, batch, |assignments|, dims);
  }

  /** One epoch with its clean-up. An exception leaves the clusters as the minibatches did. */
  method RunEpoch(data: seq<Vector>, centroids: array<Vector>, counts: array<int>, oldCounts: array<int>, dims: nat,
      batchSize: nat)
    returns (ok: bool, ghost assignments: seq<nat>)
    requires Shaped(Now(centroids, counts, oldCounts), dims) && DataShaped(data, dims)
    requires counts != oldCounts && batchSize > 0 && oldCounts[..] == Zeros(oldCounts.Length)
    modifies centroids, counts, oldCounts
    ensures ok ==>
      EpochStep(old(Now(centroids, counts, oldCounts)), Now(centroids, counts, oldCounts), data, assignments,
        batchSize, dims)
    ensures !ok ==>
      && Done(old(Now(centroids, counts, oldCounts)), data, assignments, batchSize, dims,
          Now(centroids, counts, oldCounts))
      && Stuck(old(Now(centroids, counts, oldCounts)), data, assignments, batchSize, dims)
  {
    ok, assignments := RunBatches(data, centroids, counts, oldCounts, dims, batchSize);
    if !ok {
      return;
    }
    ghost var moved, counted := centroids[..], oldCounts[..];
    for i := 0 to counts.Length
      invariant centroids[..] == moved
      invariant forall k :: 0 <= k < i ==> counts[k] == counted[k] && oldCounts[k] == 0
      invariant forall k :: i <= k < counts.Length ==> oldCounts[k] == counted[k]
    {
      counts[i] := oldCounts[i];
      oldCounts[i] := 0;
    }
    assert counts[..] == counted && oldCounts[..] == Zeros(oldCounts.Length);
  }

  // ----- What an epoch leaves behind

  lemma {:induction false} SumOfZeros(n: nat)
    ensures SumOf(Zeros(n)) == 0
  {
    if n > 0 {
      SumOfZeros(n - 1);
      assert Zeros(n)[..n - 1] == Zeros(n - 1);
    }
  }

  /** After each epoch the counts tell how many data each cluster got, and add up to all. */
  lemma EpochCounts(c: Clusters, data: seq<Vector>, assignments: seq<nat>, dims: nat, k: nat)
    requires Shaped(c, dims) && DataShaped(data, dims) && Assignable(assignments, |data|, |c.centroids|)
    requires c.oldCounts == Zeros(|c.centroids|) && k < |c.centroids|
    ensures NextEpoch(c, data, assignments, dims).counts[k] == CountAt(assignments, |data|, k)
    ensures SumOf(NextEpoch(c, data, assignments, dims).counts) == |data|
  {
    AssignedCountsEach(c, data, assignments, |data|, dims, k);
    AssignedCounts(c, data, assignments, |data|, dims);
    SumOfZeros(|c.centroids|);
  }

  /** Coordinate `p` of the centroid is that of the mean of the data the cluster got. */
  ghost predicate MeanAt(centroid: Vector, data: seq<Vector>, assignments: seq<nat>, k: nat, p: nat)
    requires DataShaped(data, |centroid|) && |data| <= |assignments| && p < |centroid|
  {
    CountAt(assignments, |data|, k) as real * centroid[p] == SumAt(data, assignments, |data|, k, p)
  }

  /** The centroid of a cluster is the exact mean of the data it got in the epoch. */
  ghost predicate IsMean(centroid: Vector, data: seq<Vector>, assignments: seq<nat>, k: nat)
    requires DataShaped(data, |centroid|) && |data| <= |assignments|
  {
    forall p {:trigger MeanAt(centroid, data, assignments, k, p)} :: 0 <= p < |centroid| ==>
      MeanAt(centroid, data, assignments, k, p)
  }

  lemma MeanOfOne(c: real, n: real, total: real, end: real, start: real, sum: real)
    requires c >= 0.0 && n > 0.0 && total == c + n && total * end == c * start + sum
    ensures n * end == sum <==> c == 0.0 || n * start == sum
  {
    assert total * end == c * end + n * end;
    if n * end == sum && c != 0.0 {
      assert c * end == c * start;
      Cancel(c, end, start);
    }
    if n * start == sum {
      assert total * start == c * start + n * start;
      assert total * end == total * start;
      Cancel(total, end, start);
    }
  }

  lemma Cancel(a: real, x: real, y: real)
    requires a > 0.0 && a * x == a * y
    ensures x == y
  {
  }

  lemma WeightDecidesMean(c: Clusters, r: Clusters, data: seq<Vector>, assignments: seq<nat>, k: nat, p: nat)
    requires k < |c.centroids| == |r.centroids| == |c.counts| == |r.counts|
    requires p < |c.centroids[k]| == |r.centroids[k]| && DataShaped(data, |c.centroids[k]|) && |data| <= |assignments|
    requires c.counts[k] >= 0 && CountAt(assignments, |data|, k) > 0
    requires r.counts[k] == c.counts[k] + CountAt(assignments, |data|, k)
    requires Weight(r, k, p) == Weight(c, k, p) + SumAt(data, assignments, |data|, k, p)
    ensures MeanAt(r.centroids[k], data, assignments, k, p) <==>
      (c.counts[k] == 0 || MeanAt(c.centroids[k], data, assignments, k, p))
  {
    MeanOfOne(c.counts[k] as real, CountAt(assignments, |data|, k) as real, r.counts[k] as real,
      r.centroids[k][p], c.centroids[k][p], SumAt(data, assignments, |data|, k, p));
  }

  lemma EpochMeanAt(c: Clusters, data: seq<Vector>, assignments: seq<nat>, dims: nat, k: nat, p: nat)
    requires Shaped(c, dims) && DataShaped(data, dims) && Assignable(assignments, |data|, |c.centroids|)
    requires k < |c.centroids| && CountAt(assignments, |data|, k) > 0 && p < dims
    ensures MeanAt(Assigned(c, data, assignments, |data|, dims).centroids[k], data, assignments, k, p) <==>
      (c.counts[k] == 0 || MeanAt(c.centroids[k], data, assignments, k, p))
  {
    AssignedConserves(c, data, assignments, |data|, dims, k, p);
    AssignedCountsEach(c, data, assignments, |data|, dims, k);
    WeightDecidesMean(c, Assigned(c, data, assignments, |data|, dims), data, assignments, k, p);
  }

  /** After an epoch a non-empty cluster's centroid is the mean of its data exactly when the
      cluster entered the epoch with no weight, as in the first epoch, or was there already. */
  lemma EpochMeanIff(c: Clusters, data: seq<Vector>, assignments: seq<nat>, dims: nat, k: nat)
    requires Shaped(c, dims) && DataShaped(data, dims) && Assignable(assignments, |data|, |c.centroids|)
    requires k < |c.centroids| && CountAt(assignments, |data|, k) > 0
    ensures IsMean(NextEpoch(c, data, assignments, dims).centroids[k], data, assignments, k) <==>
      (c.counts[k] == 0 || IsMean(c.centroids[k], data, assignments, k))
  {
    var now, was := NextEpoch(c, data, assignments, dims).centroids[k], c.centroids[k];
    forall p | 0 <= p < dims
      ensures MeanAt(now, data, assignments, k, p) <==> (c.counts[k] == 0 || MeanAt(was, data, assignments, k, p))
    {
      EpochMeanAt(c, data, assignments, dims, k, p);
    }
    if c.counts[k] != 0 && IsMean(now, data, assignments, k) {
      forall p | 0 <= p < dims ensures MeanAt(was, data, assignments, k, p) {
        assert MeanAt(now, data, assignments, k, p);
      }
    }
  }

  // ----- Picking the first centroids

  /** The draws without those seen before. */
  function FirstDraws(draws: seq<nat>): (picks: seq<nat>)
    ensures |picks| <= |draws|
  {
    if draws == [] then []
    else
      var last := |draws| - 1;
      var picks := FirstDraws(draws[..last]);
      if draws[last] in picks then picks else picks + [draws[last]]
  }

  /** They are the draws themselves, each once. */
  lemma {:induction false} FirstDrawsAre(draws: seq<nat>)
    ensures Distinct(FirstDraws(draws))
    ensures forall d :: d in FirstDraws(draws) <==> d in draws
  {
    if draws != [] {
      var last := |draws| - 1;
      FirstDrawsAre(draws[..last]);
      assert draws == draws[..last] + [draws[last]];
    }
  }

  lemma FirstDrawsOfOneMore(draws: seq<nat>, n: nat)
    requires n < |draws|
    ensures FirstDraws(draws[..n + 1])
         == if draws[n] in FirstDraws(draws[..n]) then FirstDraws(draws[..n]) else FirstDraws(draws[..n]) + [draws[n]]
    ensures draws[..n + 1] == draws[..n] + [draws[n]]
  {
    assert draws[..n + 1][..n] == draws[..n];
  }

  /** How the picking ends: with enough picks, at a pick that names no datum, or not within the
      draws given. */
  datatype Picks = Picked(picks: seq<nat>) | NoSuchDatum | StillDrawing

  lemma NoDraws(draws: seq<nat>)
    ensures draws[..0] == [] && FirstDraws(draws[..0]) == []
  {
  }

  lemma DrawsOfOneMore(draws: seq<nat>, n: nat, d: nat)
    requires n < |draws|
    ensures d in draws[..n + 1] <==> d in draws[..n] || draws[n] == d
  {
    assert draws[..n + 1] == draws[..n] + [draws[n]];
  }

  lemma PickIsDraw(draws: seq<nat>, d: nat, size: nat)
    requires size !in draws && d in FirstDraws(draws)
    ensures d != size
  {
    FirstDrawsAre(draws);
  }

  /** The loop of `train_impl` that picks the first centroids, for the draws of its distribution,
      which reaches from zero to the size of the data, both included. */
  method PickCentroids(size: nat, draws: seq<nat>, clusters: nat) returns (r: Picks, taken: nat)
    requires forall d :: d in draws ==> d <= size
    ensures taken <= |draws|
    ensures r.Picked? ==>
      r.picks == FirstDraws(draws[..taken]) && |r.picks| == clusters && size !in draws[..taken]
    ensures r.NoSuchDatum? ==>
      && 0 < taken && draws[taken - 1] == size && size !in draws[..taken - 1]
      && |FirstDraws(draws[..taken - 1])| < clusters
    ensures r.StillDrawing? ==> taken == |draws| && size !in draws && |FirstDraws(draws)| < clusters
  {
    hide FirstDraws;
    NoDraws(draws);
    var picks: seq<nat> := [];
    taken := 0;
    for i := 0 to clusters
      invariant taken <= |draws| && |picks| == i
      invariant picks == FirstDraws(draws[..taken]) && size !in draws[..taken]
    {
      while taken < |draws| && draws[taken] in picks
        invariant taken <= |draws|
        invariant picks == FirstDraws(draws[..taken]) && size !in draws[..taken]
      {
        FirstDrawsOfOneMore(draws, taken);
        DrawsOfOneMore(draws, taken, size);
        PickIsDraw(draws[..taken], draws[taken], size);
        taken := taken + 1;
      }
      if taken == |draws| {
        assert draws[..taken] == draws;
        return StillDrawing, taken;
      }
      FirstDrawsOfOneMore(draws, taken);
      DrawsOfOneMore(draws, taken, size);
      taken := taken + 1;
      if draws[taken - 1] == size {
        return NoSuchDatum, taken;
      }
      picks := picks + [draws[taken - 1]];
    }
    return Picked(picks), taken;
  }

  /** The picks stand in the order in which they are drawn. */
  lemma {:induction false} FirstDrawsGrow(draws: seq<nat>, a: nat, b: nat)
    requires a <= b <= |draws|
    ensures FirstDraws(draws[..a]) <= FirstDraws(draws[..b])
  {
    if a < b {
      FirstDrawsGrow(draws, a, b - 1);
      FirstDrawsOfOneMore(draws, b - 1);
    }
  }

  /** If some of the draws would do, the picking ends with them. */
  lemma PicksWhereItCan(size: nat, draws: seq<nat>, clusters: nat, n: nat, t: nat)
    requires n <= |draws| && |FirstDraws(draws[..n])| < clusters && (n < |draws| ==> draws[n] == size)
    requires t <= |draws| && |FirstDraws(draws[..t])| == clusters
    ensures size in draws[..t]
  {
    if t <= n {
      FirstDrawsGrow(draws, t, n);
    } else {
      assert draws[..t][n] == size;
    }
  }

  /** All picks name data exactly when the draws taken miss the upper end of the distribution. */
  lemma PicksNameDataIff(size: nat, draws: seq<nat>)
    requires forall d :: d in draws ==> d <= size
    ensures (forall d :: d in FirstDraws(draws) ==> d < size) <==> size !in draws
  {
    FirstDrawsAre(draws);
    if size in draws {
      assert size in FirstDraws(draws);
    }
  }

  lemma PicksBelow(size: nat, draws: seq<nat>, taken: nat)
    requires taken <= |draws| && size !in draws[..taken] && forall d :: d in draws ==> d <= size
    ensures Distinct(FirstDraws(draws[..taken]))
    ensures forall d :: d in FirstDraws(draws[..taken]) ==> d < size
  {
    FirstDrawsAre(draws[..taken]);
    assert forall d :: d in draws[..taken] ==> d in draws;
  }

  /** One draw that names no datum of the only one there is. */
  lemma OneDrawMayMiss()
    ensures FirstDraws([1]) == [1] && !CanPick(1, [1], 1)
  {
    assert [1][..0] == [] && FirstDraws([]) == [];
    assert FirstDraws([1]) == [] + [1];
    forall t: nat | t <= 1 && |FirstDraws([1][..t])| == 1 ensures 1 in [1][..t] {
      assert t == 1;
    }
  }

  lemma {:induction false} FewDistinct(s: seq<nat>, n: nat)
    requires Distinct(s) && forall x :: x in s ==> x < n
    ensures |s| <= n
  {
    assert s == [] || s[0] in s;
    if n > 0 {
      if n - 1 in s {
        var i :| 0 <= i < |s| && s[i] == n - 1;
        var rest := s[..i] + s[i + 1..];
        assert forall x :: x in rest ==> x in s;
        FewDistinct(rest, n - 1);
      } else {
        FewDistinct(s, n - 1);
      }
    }
  }

  /** With more clusters than data no draws are enough without naming no datum, and with two more
      the loop never ends. */
  lemma TooManyClusters(size: nat, draws: seq<nat>, clusters: nat)
    requires forall d :: d in draws ==> d <= size
    ensures clusters > size && |FirstDraws(draws)| >= clusters ==> size in draws
    ensures clusters > size + 1 ==> |FirstDraws(draws)| < clusters
  {
    FirstDrawsAre(draws);
    FewDistinct(FirstDraws(draws), size + 1);
    if size !in draws {
      FewDistinct(FirstDraws(draws), size);
    }
  }

  // ----- Training

  /** One epoch takes `c` to `next`. */
  ghost predicate EpochStep(c: Clusters, next: Clusters, data: seq<Vector>, assignments: seq<nat>, batchSize: nat,
      dims: nat) {
    && batchSize > 0 && Shaped(c, dims) && DataShaped(data, dims) && c.oldCounts == Zeros(|c.centroids|)
    && |assignments| == |data| && Assignable(assignments, |data|, |c.centroids|)
    && AssignedFrozen(c, data, assignments, |data|, batchSize, dims)
    && next == NextEpoch(c, data, assignments, dims)
  }

  ghost predicate EpochAt(states: seq<Clusters>, runs: seq<seq<nat>>, data: seq<Vector>, e: nat, batchSize: nat,
      dims: nat) {
    e + 1 < |states| && e < |runs| && EpochStep(states[e], states[e + 1], data, runs[e], batchSize, dims)
  }

  ghost predicate IsTraining(states: seq<Clusters>, runs: seq<seq<nat>>, data: seq<Vector>, batchSize: nat, dims: nat) {
    && |states| == |runs| + 1
    && forall e {:trigger EpochAt(states, runs, data, e, batchSize, dims)} :: 0 <= e < |runs| ==>
        EpochAt(states, runs, data, e, batchSize, dims)
  }

  lemma TrainingOneMore(states: seq<Clusters>, runs: seq<seq<nat>>, next: Clusters, run: seq<nat>, data: seq<Vector>,
      batchSize: nat, dims: nat)
    requires IsTraining(states, runs, data, batchSize, dims)
    requires EpochStep(states[|runs|], next, data, run, batchSize, dims)
    ensures IsTraining(states + [next], runs + [run], data, batchSize, dims)
  {
    var s, r := states + [next], runs + [run];
    forall e | 0 <= e < |r| ensures EpochAt(s, r, data, e, batchSize, dims) {
      if e < |runs| {
        assert EpochAt(states, runs, data, e, batchSize, dims);
        assert s[e] == states[e] && s[e + 1] == states[e + 1] && r[e] == runs[e];
      } else {
        assert s[e] == states[e] && s[e + 1] == next && r[e] == run;
      }
    }
  }

  /** The epochs are all run, or the last is cut short by a datum without a nearest centroid. */
  ghost predicate Trains(states: seq<Clusters>, runs: seq<seq<nat>>, data: seq<Vector>, batchSize: nat, dims: nat,
      epochs: nat, ok: bool, trained: seq<Vector>, last: seq<nat>) {
    && batchSize > 0 && DataShaped(data, dims) && IsTraining(states, runs, data, batchSize, dims)
    && (ok ==> |runs| == epochs && trained == states[epochs].centroids)
    && (!ok ==>
        && |runs| < epochs && Shaped(states[|runs|], dims) && |last| < |data|
        && Assignable(last, |last|, |states[|runs|].centroids|)
        && AssignedFrozen(states[|runs|], data, last, |last|, batchSize, dims)
        && Stuck(states[|runs|], data, last, batchSize, dims))
  }

  /** The epochs of `train_impl`, from the centroids it picked. The ghost results record every
      epoch, and the assignments of one that an exception cut short. */
  method Train(data: seq<Vector>, picked: seq<Vector>, dims: nat, batchSize: nat, epochs: nat)
    returns (ok: bool, trained: seq<Vector>, ghost states: seq<Clusters>, ghost runs: seq<seq<nat>>,
      ghost last: seq<nat>)
    requires DataShaped(data, dims) && DataShaped(picked, dims) && batchSize > 0
    ensures states != [] && states[0] == Clusters(picked, Zeros(|picked|), Zeros(|picked|))
    ensures Trains(states, runs, data, batchSize, dims, epochs, ok, trained, last)
  {
    var centroids := new Vector[|picked|](k requires 0 <= k < |picked| => picked[k]);
    var counts := new int[|picked|](_ => 0);
    var oldCounts := new int[|picked|](_ => 0);
    assert centroids[..] == picked && counts[..] == Zeros(|picked|) && oldCounts[..] == Zeros(|picked|);
    states, runs := [Now(centroids, counts, oldCounts)], [];
    for e := 0 to epochs
      invariant fresh(centroids) && fresh(counts) && fresh(oldCounts)
      invariant |runs| == e && IsTraining(states, runs, data, batchSize, dims)
      invariant states[0] == Clusters(picked, Zeros(|picked|), Zeros(|picked|))
      invariant states[e] == Now(centroids, counts, oldCounts)
      invariant Shaped(states[e], dims) && states[e].oldCounts == Zeros(oldCounts.Length)
    {
      ghost var run;
      ok, run := RunEpoch(data, centroids, counts, oldCounts, dims, batchSize);
      if !ok {
        return false, [], states, runs, run;
      }
      TrainingOneMore(states, runs, Now(centroids, counts, oldCounts), run, data, batchSize, dims);
      states, runs := states + [Now(centroids, counts, oldCounts)], runs + [run];
    }
    return true, centroids[..], states, runs, [];
  }

  /** The data a training starts from. */
  function Chosen(data: seq<Vector>, picks: seq<nat>): (picked: seq<Vector>)
    requires forall d :: d in picks ==> d < |data|
    ensures |picked| == |picks|
  {
    seq(|picks|, i requires 0 <= i < |picks| =>
      assert picks[i] in picks;
      data[picks[i]])
  }

  lemma ChosenAre(data: seq<Vector>, picks: seq<nat>)
    requires forall d :: d in picks ==> d < |data|
    ensures forall i :: 0 <= i < |picks| ==> picks[i] < |data| && Chosen(data, picks)[i] == data[picks[i]]
  {
    assert forall i :: 0 <= i < |picks| ==> picks[i] in picks;
  }

  lemma ChosenShaped(data: seq<Vector>, picks: seq<nat>, dims: nat)
    requires DataShaped(data, dims) && forall d :: d in picks ==> d < |data|
    ensures DataShaped(Chosen(data, picks), dims)
  {
    forall i | 0 <= i < |picks| ensures |Chosen(data, picks)[i]| == dims {
      assert picks[i] in picks;
    }
  }

  /** Some of the draws, from the first on, make enough picks and all of them name data. */
  ghost predicate CanPick(size: nat, draws: seq<nat>, clusters: nat) {
    exists t: nat :: t <= |draws| && |FirstDraws(draws[..t])| == clusters && size !in draws[..t]
  }

  /** `train_impl`: pick the first centroids, then run the epochs. */
  method TrainImpl(data: seq<Vector>, draws: seq<nat>, clusters: nat, dims: nat, batchSize: nat, epochs: nat)
    returns (r: Picks, ok: bool, trained: seq<Vector>, ghost states: seq<Clusters>, ghost runs: seq<seq<nat>>,
      ghost last: seq<nat>)
    requires DataShaped(data, dims) && batchSize > 0 && forall d :: d in draws ==> d <= |data|
    ensures r.Picked? <==> CanPick(|data|, draws, clusters)
    ensures r.Picked? ==>
      && (forall i :: 0 <= i < |r.picks| ==> r.picks[i] < |data|) && Distinct(r.picks) && |r.picks| == clusters
      && states != [] && |states[0].centroids| == |states[0].counts| == clusters
      && (forall i :: 0 <= i < clusters ==> states[0].centroids[i] == data[r.picks[i]] && states[0].counts[i] == 0)
      && Trains(states, runs, data, batchSize, dims, epochs, ok, trained, last)
  {
    var taken;
    r, taken := PickCentroids(|data|, draws, clusters);
    ok, trained, states, runs, last := false, [], [], [], [];
    if r.Picked? {
      PicksBelow(|data|, draws, taken);
      ChosenShaped(data, r.picks, dims);
      ChosenAre(data, r.picks);
      ok, trained, states, runs, last := Train(data, Chosen(data, r.picks), dims, batchSize, epochs);
    } else {
      assert draws[..|draws|] == draws;
      forall t: nat | t <= |draws| && |FirstDraws(draws[..t])| == clusters ensures |data| in draws[..t] {
        PicksWhereItCan(|data|, draws, clusters, if r.NoSuchDatum? then taken - 1 else taken, t);
      }
    }
  }

  /** In every training the counts add up to the size of the data after each epoch, and after
      the first each non-empty cluster's centroid is the mean of its data. */
  lemma TrainingCountsAndFirstMeans(states: seq<Clusters>, runs: seq<seq<nat>>, data: seq<Vector>, batchSize: nat,
      dims: nat, e: nat, k: nat)
    requires IsTraining(states, runs, data, batchSize, dims) && e < |runs|
    requires k < |states[e].centroids|
    ensures k < |states[e + 1].centroids| == |states[e + 1].counts| && |runs[e]| == |data| && DataShaped(data, dims)
    ensures SumOf(states[e + 1].counts) == |data|
    ensures states[e + 1].counts[k] == CountAt(runs[e], |data|, k)
    ensures |states[e + 1].centroids[k]| == dims
    ensures e == 0 && states[0].counts == Zeros(|states[0].centroids|) && states[1].counts[k] > 0 ==>
      IsMean(states[1].centroids[k], data, runs[0], k)
  {
    assert EpochAt(states, runs, data, e, batchSize, dims);
    EpochCounts(states[e], data, runs[e], dims, k);
    if CountAt(runs[e], |data|, k) > 0 {
      EpochMeanIff(states[e], data, runs[e], dims, k);
    }
  }

  // ----- A training whose second epoch misses a mean

  /** Against a single minibatch all data are assigned as the epoch begins. */
  lemma OneBatchFrozen(c: Clusters, data: seq<Vector>, assignments: seq<nat>, batchSize: nat, dims: nat)
    requires Shaped(c, dims) && DataShaped(data, dims) && |assignments| == |data| <= batchSize && batchSize > 0
    requires Assignable(assignments, |data|, |c.centroids|)
    requires forall i :: 0 <= i < |data| ==> assignments[i] == NearestOf(data[i], c.centroids, |c.centroids|).id
    ensures AssignedFrozen(c, data, assignments, |data|, batchSize, dims)
  {
    forall i | 0 <= i < |data| ensures FrozenAt(c, data, assignments, i, batchSize, dims) {
      BatchStartIs(i, batchSize, 0);
    }
  }

  lemma DistanceOfOne(x: real, y: real)
    ensures SquaredDistance([x], [y]) == Mul(x - y, x - y)
  {
    var d := Minus([x], [y]);
    assert d == [x - y] && d[..0] == [];
    assert Inner(d[..0], d[..0]) == 0.0;
  }

  lemma NearestOfTwo(x: real, a: real, b: real)
    requires Mul(x - a, x - a) < FLOAT_MAX
    ensures NearestOf([x], [[a], [b]], 2).id == if Mul(x - b, x - b) < Mul(x - a, x - a) then 1 else 0
  {
    hide Mul, SquaredDistance;
    var centroids := [[a], [b]];
    DistanceOfOne(x, a);
    DistanceOfOne(x, b);
    assert NearestOf([x], centroids, 0) == Sentinel(Less);
    assert NearestOf([x], centroids, 1) == Neighbor(0, SquaredDistance([x], centroids[0]));
  }

  /** Two clusters in one dimension, their fresh counts included. */
  function Two(a: real, b: real, m: nat, n: nat, s: nat, t: nat): (c: Clusters)
    ensures Shaped(c, 1) && |c.centroids| == 2
  {
    Clusters([[a], [b]], [m, n], [s, t])
  }

  lemma AssignToFirst(a: real, b: real, m: nat, n: nat, s: nat, t: nat, x: real)
    ensures Assign(Two(a, b, m, n, s, t), [x], 0)
      == Two(BlendAt(1.0 / (m + 1) as real, a, x), b, m + 1, n, s + 1, t)
  {
    assert Blend([a], [x], m + 1) == [BlendAt(1.0 / (m + 1) as real, a, x)];
  }

  lemma AssignToSecond(a: real, b: real, m: nat, n: nat, s: nat, t: nat, x: real)
    ensures Assign(Two(a, b, m, n, s, t), [x], 1)
      == Two(a, BlendAt(1.0 / (n + 1) as real, b, x), m, n + 1, s, t + 1)
  {
    assert Blend([b], [x], n + 1) == [BlendAt(1.0 / (n + 1) as real, b, x)];
  }

  /** An epoch of three data in a single minibatch, step by step. */
  lemma EpochOfThree(c: Clusters, data: seq<Vector>, assignments: seq<nat>, dims: nat, c1: Clusters, c2: Clusters,
      c3: Clusters)
    requires Shaped(c, dims) && DataShaped(data, dims) && c.oldCounts == Zeros(|c.centroids|)
    requires |data| == |assignments| == 3 && Assignable(assignments, 3, |c.centroids|)
    requires forall i :: 0 <= i < 3 ==> assignments[i] == NearestOf(data[i], c.centroids, |c.centroids|).id
    requires Assign(c, data[0], assignments[0]) == c1
    requires Assign(c1, data[1], assignments[1]) == c2
    requires Assign(c2, data[2], assignments[2]) == c3
    ensures EpochStep(c, Clusters(c3.centroids, c3.oldCounts, Zeros(|c.centroids|)), data, assignments, 3, dims)
  {
    hide NearestOf, Assign, AssignedFrozen;
    OneBatchFrozen(c, data, assignments, 3, dims);
    assert Assigned(c, data, assignments, 1, dims) == c1;
    assert Assigned(c, data, assignments, 2, dims) == c2;
  }

  const POINTS: seq<Vector> := [[0.0], [2.0], [10.0]]

  lemma FirstEpoch()
    ensures EpochStep(Two(0.0, 2.0, 0, 0, 0, 0), Two(0.0, 6.0, 1, 2, 0, 0), POINTS, [0, 1, 1], 3, 1)
  {
    hide EpochStep, NearestOf, Assign;
    NearestOfTwo(0.0, 0.0, 2.0);
    NearestOfTwo(2.0, 0.0, 2.0);
    NearestOfTwo(10.0, 0.0, 2.0);
    AssignToFirst(0.0, 2.0, 0, 0, 0, 0, 0.0);
    AssignToSecond(0.0, 2.0, 1, 0, 1, 0, 2.0);
    AssignToSecond(0.0, 2.0, 1, 1, 1, 1, 10.0);
    EpochOfThree(Two(0.0, 2.0, 0, 0, 0, 0), POINTS, [0, 1, 1], 1, Two(0.0, 2.0, 1, 0, 1, 0),
      Two(0.0, 2.0, 1, 1, 1, 1), Two(0.0, 6.0, 1, 2, 1, 2));
  }

  lemma SecondEpoch()
    ensures EpochStep(Two(0.0, 6.0, 1, 2, 0, 0), Two(2.0 / 3.0, 22.0 / 3.0, 2, 1, 0, 0), POINTS, [0, 0, 1], 3, 1)
  {
    hide EpochStep, NearestOf, Assign;
    NearestOfTwo(0.0, 0.0, 6.0);
    NearestOfTwo(2.0, 0.0, 6.0);
    NearestOfTwo(10.0, 0.0, 6.0);
    AssignToFirst(0.0, 6.0, 1, 2, 0, 0, 0.0);
    AssignToFirst(0.0, 6.0, 2, 2, 1, 0, 2.0);
    AssignToSecond(2.0 / 3.0, 6.0, 3, 2, 2, 0, 10.0);
    EpochOfThree(Two(0.0, 6.0, 1, 2, 0, 0), POINTS, [0, 0, 1], 1, Two(0.0, 6.0, 2, 2, 1, 0),
      Two(2.0 / 3.0, 6.0, 3, 2, 2, 0), Two(2.0 / 3.0, 22.0 / 3.0, 3, 3, 2, 1));
  }

  /** A training from the first two of three points: in its second epoch the first cluster gets
      the points at 0 and 2, and its centroid ends at 2/3. */
  lemma LaterEpochMissesMean() returns (states: seq<Clusters>)
    ensures FirstDraws([0, 1]) == [0, 1]
    ensures |states| == 3 && states[0] == Clusters(Chosen(POINTS, [0, 1]), Zeros(2), Zeros(2))
    ensures IsTraining(states, [[0, 1, 1], [0, 0, 1]], POINTS, 3, 1)
    ensures CountAt([0, 0, 1], 3, 0) == 2 && states[2].centroids == [[2.0 / 3.0], [22.0 / 3.0]]
    ensures !IsMean(states[2].centroids[0], POINTS, [0, 0, 1], 0)
  {
    states := [Two(0.0, 2.0, 0, 0, 0, 0), Two(0.0, 6.0, 1, 2, 0, 0), Two(2.0 / 3.0, 22.0 / 3.0, 2, 1, 0, 0)];
    TwoEpochs(states);
    assert [0, 1][..1] == [0] && [0, 1][..0] == [] && [0][..0] == [];
    assert FirstDraws([0]) == [0];
    assert SumAt(POINTS, [0, 0, 1], 3, 0, 0) == 2.0;
    assert !MeanAt(states[2].centroids[0], POINTS, [0, 0, 1], 0, 0);
  }

  lemma TwoEpochs(states: seq<Clusters>)
    requires states ==
      [Two(0.0, 2.0, 0, 0, 0, 0), Two(0.0, 6.0, 1, 2, 0, 0), Two(2.0 / 3.0, 22.0 / 3.0, 2, 1, 0, 0)]
    ensures IsTraining(states, [[0, 1, 1], [0, 0, 1]], POINTS, 3, 1)
  {
    hide EpochStep, Two;
    FirstEpoch();
    SecondEpoch();
    assert EpochAt(states, [[0, 1, 1], [0, 0, 1]], POINTS, 0, 3, 1);
    assert EpochAt(states, [[0, 1, 1], [0, 0, 1]], POINTS, 1, 3, 1);
  }
}
