/** Pairwise summation, the mean of a dataset and the datum nearest to it
    (include/svs/core/medioid.h), over exact reals. */
module Medioid {
  import opened Arithmetic
  import opened Common
  import opened Vectors
  import opened Neighbors
  import Threads

  // ----- Counted sums

  datatype Sums = Sums(count: nat, sums: Vector)

  function Nothing(dims: nat): (s: Sums)
    ensures |s.sums| == dims
  {
    Sums(0, Zero(dims))
  }

  function Plus(a: Sums, b: Sums): (s: Sums)
    requires |a.sums| == |b.sums|
    ensures |s.sums| == |a.sums|
  {
    Sums(a.count + b.count, Sum(a.sums, b.sums))
  }

  lemma PlusNothing(a: Sums)
    ensures Plus(a, Nothing(|a.sums|)) == a == Plus(Nothing(|a.sums|), a)
  {
    assert Sum(a.sums, Zero(|a.sums|)) == a.sums == Sum(Zero(|a.sums|), a.sums);
  }

  lemma PlusAssociates(a: Sums, b: Sums, c: Sums)
    requires |a.sums| == |b.sums| == |c.sums|
    ensures Plus(Plus(a, b), c) == Plus(a, Plus(b, c))
  {
    assert Sum(Sum(a.sums, b.sums), c.sums) == Sum(a.sums, Sum(b.sums, c.sums));
  }

  lemma PlusCommutes(a: Sums, b: Sums)
    requires |a.sums| == |b.sums|
    ensures Plus(a, b) == Plus(b, a)
  {
    assert Sum(a.sums, b.sums) == Sum(b.sums, a.sums);
  }

  lemma PlusSwaps(a: Sums, b: Sums, c: Sums)
    requires |a.sums| == |b.sums| == |c.sums|
    ensures Plus(Plus(a, b), c) == Plus(Plus(a, c), b)
  {
    PlusAssociates(a, b, c);
    PlusCommutes(b, c);
    PlusAssociates(a, c, b);
  }

  /** `CountSum`. */
  class CountSum {
    var count: nat
    var sums: Vector

    ghost function State(): Sums
      reads this
    {
      Sums(count, sums)
    }

    constructor (dims: nat)
      ensures State() == Nothing(dims)
    {
      count := 0;
      sums := Zero(dims);
    }

    /** `operator+=`. */
    method PlusEquals(other: CountSum)
      requires |other.sums| == |sums|
      modifies this
      ensures State() == Plus(old(State()), old(other.State()))
    {
      ghost var mine, its := sums, other.sums;
      for p := 0 to |sums|
        invariant |sums| == |other.sums| == |mine|
        invariant count == old(count) && other.count == old(other.count)
        invariant forall l :: 0 <= l < p ==> sums[l] == mine[l] + its[l]
        invariant forall l :: p <= l < |mine| ==> sums[l] == mine[l] && other.sums[l] == its[l]
      {
        sums := sums[p := sums[p] + other.sums[p]];
      }
      assert sums == Sum(mine, its);
      count := count + other.count;
    }

    method Add(x: Vector)
      requires |x| == |sums|
      modifies this
      ensures State() == Plus(old(State()), Sums(1, x))
    {
      ghost var mine := sums;
      for p := 0 to |sums|
        invariant |sums| == |mine| && count == old(count)
        invariant forall l :: 0 <= l < |mine| ==> sums[l] == if l < p then mine[l] + x[l] else mine[l]
      {
        sums := sums[p := sums[p] + x[p]];
      }
      assert sums == Sum(mine, x);
      count := count + 1;
    }

    /** The means; `None` stands for the quotients by zero of an empty sum. */
    method Finish() returns (mean: Option<Vector>)
      ensures mean == MeanOf(State())
      ensures mean.None? <==> count == 0
      ensures mean.Some? ==>
        |mean.value| == |sums| && forall p :: 0 <= p < |sums| ==> count as real * mean.value[p] == sums[p]
    {
      if count == 0 {
        return None;
      }
      var means := Zero(|sums|);
      for p := 0 to |sums|
        invariant |means| == |sums|
        invariant forall l :: 0 <= l < p ==> means[l] == sums[l] / count as real
      {
        means := means[p := sums[p] / count as real];
      }
      assert means == MeanOf(State()).value;
      MeanTimesCount(State());
      return Some(means);
    }
  }

  function MeanOf(s: Sums): (mean: Option<Vector>)
    ensures mean.Some? ==> |mean.value| == |s.sums|
  {
    if s.count == 0 then None
    else Some(seq(|s.sums|, p requires 0 <= p < |s.sums| => s.sums[p] / s.count as real))
  }

  lemma MeanTimesCount(s: Sums)
    requires s.count > 0
    ensures forall p :: 0 <= p < |s.sums| ==> s.count as real * MeanOf(s).value[p] == s.sums[p]
  {
    forall p | 0 <= p < |s.sums| ensures s.count as real * MeanOf(s).value[p] == s.sums[p] {
      QuotientTimes(s.sums[p], s.count as real);
    }
  }

  lemma QuotientTimes(r: real, n: real)
    requires n != 0.0
    ensures n * (r / n) == r
  {
  }

  // ----- One left-to-right pass

  /** The dataset, which data count, and the map applied before they are added. */
  datatype Input = Input(data: seq<Vector>, keep: nat -> bool, view: Vector -> Vector, dims: nat) {
    ghost predicate Valid() {
      forall i :: 0 <= i < |data| ==> |view(data[i])| == dims
    }
  }

  function Term(input: Input, i: nat): (s: Sums)
    requires input.Valid() && i < |input.data|
    ensures |s.sums| == input.dims
  {
    if input.keep(i) then Sums(1, input.view(input.data[i])) else Nothing(input.dims)
  }

  /** Start from nothing and add the data kept in `start..stop`, left to right. */
  function Linear(input: Input, start: nat, stop: nat): (s: Sums)
    requires input.Valid() && start <= stop <= |input.data|
    ensures |s.sums| == input.dims
    decreases stop
  {
    if stop == start then Nothing(input.dims)
    else Plus(Linear(input, start, stop - 1), Term(input, stop - 1))
  }

  /** The data kept among the first `n`. */
  ghost function Kept(input: Input, n: nat): set<nat> {
    set i: nat | i < n && input.keep(i)
  }

  /** Coordinate `p` of their sum. */
  function KeptSum(input: Input, n: nat, p: nat): real
    requires input.Valid() && n <= |input.data| && p < input.dims
  {
    if n == 0 then 0.0
    else if input.keep(n - 1) then KeptSum(input, n - 1, p) + input.view(input.data[n - 1])[p]
    else KeptSum(input, n - 1, p)
  }

  /** A pass counts the data kept and adds them up, coordinate by coordinate. */
  lemma {:induction false} LinearCountsKept(input: Input, n: nat)
    requires input.Valid() && n <= |input.data|
    ensures Linear(input, 0, n).count == |Kept(input, n)|
    ensures forall p :: 0 <= p < input.dims ==> Linear(input, 0, n).sums[p] == KeptSum(input, n, p)
  {
    if n == 0 {
      assert Kept(input, 0) == {};
    } else {
      LinearCountsKept(input, n - 1);
      assert Kept(input, n) == Kept(input, n - 1) + if input.keep(n - 1) then {n - 1} else {};
    }
  }

  /** The mean of the data kept; none is kept if there is none. */
  ghost predicate IsMeanOfKept(input: Input, mean: Option<Vector>)
    requires input.Valid()
  {
    var n := |input.data|;
    && (mean.None? <==> Kept(input, n) == {})
    && (mean.Some? ==>
      && |mean.value| == input.dims
      && forall p :: 0 <= p < input.dims ==> |Kept(input, n)| as real * mean.value[p] == KeptSum(input, n, p))
  }

  lemma LinearMean(input: Input)
    requires input.Valid()
    ensures IsMeanOfKept(input, MeanOf(Linear(input, 0, |input.data|)))
  {
    var s := Linear(input, 0, |input.data|);
    LinearCountsKept(input, |input.data|);
    if s.count > 0 {
      MeanTimesCount(s);
    }
  }

  lemma {:induction false} LinearSplits(input: Input, start: nat, mid: nat, stop: nat)
    requires input.Valid() && start <= mid <= stop <= |input.data|
    ensures Plus(Linear(input, start, mid), Linear(input, mid, stop)) == Linear(input, start, stop)
    decreases stop
  {
    var left := Linear(input, start, mid);
    if mid == stop {
      PlusNothing(left);
    } else {
      LinearSplits(input, start, mid, stop - 1);
      PlusAssociates(left, Linear(input, mid, stop - 1), Term(input, stop - 1));
    }
  }

  // ----- Pairwise

  /** `op_pairwise` over one range: halve it until it is short enough for a linear sum. */
  method OpPairwise(input: Input, start: nat, stop: nat, threshold: nat) returns (accum: CountSum)
    requires input.Valid() && start <= stop <= |input.data| && threshold >= 1
    ensures fresh(accum) && accum.State() == Linear(input, start, stop)
    decreases stop - start
  {
    if stop - start > threshold {
      var mid := (start + stop) / 2;
      var left := OpPairwise(input, start, mid, threshold);
      var right := OpPairwise(input, mid, stop, threshold);
      left.PlusEquals(right);
      LinearSplits(input, start, mid, stop);
      return left;
    }
    accum := new CountSum(input.dims);
    for i := start to stop
      invariant fresh(accum) && accum.State() == Linear(input, start, i)
    {
      PlusNothing(Linear(input, start, i));
      if !input.keep(i) {
        continue;
      }
      accum.Add(input.view(input.data[i]));
    }
  }

  ghost predicate HalvesShrink(start: nat, stop: nat) {
    var mid := (start + stop) / 2;
    mid - start < stop - start && stop - mid < stop - start
  }

  /** Halving shortens every range that is halved exactly when the threshold is not zero: a
      threshold of zero hands a range of one back to itself. */
  lemma PairwiseStopsIff(threshold: nat)
    ensures threshold >= 1 <==>
      forall start: nat, stop: nat {:trigger HalvesShrink(start, stop)} ::
        stop > start + threshold ==> HalvesShrink(start, stop)
  {
    if threshold == 0 {
      assert !HalvesShrink(0, 1);
    }
  }

  // ----- Threaded

  /** The sum of several sums, first to last. */
  function SumAll(parts: seq<Sums>, dims: nat): (s: Sums)
    requires forall k :: 0 <= k < |parts| ==> |parts[k].sums| == dims
    ensures |s.sums| == dims
  {
    if parts == [] then Nothing(dims)
    else Plus(SumAll(parts[..|parts| - 1], dims), parts[|parts| - 1])
  }

  lemma {:induction false} SumAllOfUpdate(parts: seq<Sums>, dims: nat, k: nat, x: Sums)
    requires forall j :: 0 <= j < |parts| ==> |parts[j].sums| == dims
    requires k < |parts| && |x.sums| == dims
    ensures SumAll(parts[k := Plus(parts[k], x)], dims) == Plus(SumAll(parts, dims), x)
  {
    var last, updated := |parts| - 1, parts[k := Plus(parts[k], x)];
    var front := SumAll(parts[..last], dims);
    if k == last {
      assert updated[..last] == parts[..last];
      PlusAssociates(front, parts[last], x);
    } else {
      SumAllOfUpdate(parts[..last], dims, k, x);
      assert updated[..last] == parts[..last][k := Plus(parts[k], x)];
      PlusSwaps(front, x, parts[last]);
    }
  }

  lemma {:induction false} SumAllOfNothing(parts: seq<Sums>, dims: nat)
    requires forall k :: 0 <= k < |parts| ==> parts[k] == Nothing(dims)
    ensures forall k :: 0 <= k < |parts| ==> |parts[k].sums| == dims
    ensures SumAll(parts, dims) == Nothing(dims)
  {
    if parts != [] {
      SumAllOfNothing(parts[..|parts| - 1], dims);
      PlusNothing(Nothing(dims));
    }
  }

  /** The parts that are done, the others still nothing. */
  function DoneParts(parts: seq<Sums>, todo: set<nat>, dims: nat): (s: seq<Sums>)
    ensures |s| == |parts|
  {
    seq(|parts|, k requires 0 <= k < |parts| => if k in todo then Nothing(dims) else parts[k])
  }

  /** The chunks of the partition, each summed on its own. */
  function Chunks(input: Input, batch: nat, n: nat): (parts: seq<Sums>)
    requires input.Valid() && (n == 0 || (n - 1) * batch <= |input.data|)
    ensures |parts| == n
    ensures forall k :: 0 <= k < n ==> |parts[k].sums| == input.dims
  {
    if n == 0 then []
    else
      MulGrows(n - 1, batch);
      Chunks(input, batch, n - 1) + [Linear(input, (n - 1) * batch, Min(n * batch, |input.data|))]
  }

  lemma MulGrows(n: nat, batch: nat)
    ensures (n + 1) * batch == n * batch + batch
    ensures n > 0 ==> (n - 1) * batch <= n * batch
  {
    if n > 0 {
      assert n * batch == (n - 1) * batch + batch;
    }
  }

  lemma {:induction false} ChunksAre(input: Input, batch: nat, n: nat, k: nat)
    requires input.Valid() && k < n && (n - 1) * batch <= |input.data|
    ensures k * batch <= Min((k + 1) * batch, |input.data|)
    ensures Chunks(input, batch, n)[k] == Linear(input, k * batch, Min((k + 1) * batch, |input.data|))
  {
    MulGrows(n - 1, batch);
    if k < n - 1 {
      ChunksAre(input, batch, n - 1, k);
    }
  }

  lemma {:induction false} ChunksAddUp(input: Input, batch: nat, n: nat)
    requires input.Valid() && (n == 0 || (n - 1) * batch <= |input.data|)
    ensures SumAll(Chunks(input, batch, n), input.dims) == Linear(input, 0, Min(n * batch, |input.data|))
  {
    if n > 0 {
      MulGrows(n - 1, batch);
      ChunksAddUp(input, batch, n - 1);
      var parts := Chunks(input, batch, n);
      assert parts[..n - 1] == Chunks(input, batch, n - 1);
      LinearSplits(input, 0, (n - 1) * batch, Min(n * batch, |input.data|));
    }
  }

  /** The threads' sums, each an object of its own. */
  ghost predicate Holds(tls: seq<CountSum>, states: seq<Sums>, dims: nat)
    reads tls
  {
    && |tls| == |states|
    && (forall t :: 0 <= t < |tls| ==> tls[t].State() == states[t] && |states[t].sums| == dims)
    && (forall t, u :: 0 <= t < u < |tls| ==> tls[t] != tls[u])
  }

  method NewSums(n: nat, dims: nat) returns (tls: seq<CountSum>)
    ensures |tls| == n && fresh(tls) && Holds(tls, seq(n, _ => Nothing(dims)), dims)
  {
    tls := [];
    for i := 0 to n
      invariant |tls| == i && fresh(tls)
      invariant forall t :: 0 <= t < i ==> tls[t].State() == Nothing(dims)
      invariant forall t, u :: 0 <= t < u < i ==> tls[t] != tls[u]
    {
      var one := new CountSum(dims);
      tls := tls + [one];
    }
  }

  lemma ChunkDone(states: seq<Sums>, chunks: seq<Sums>, todo: set<nat>, t: nat, b: nat, dims: nat)
    requires forall k :: 0 <= k < |states| ==> |states[k].sums| == dims
    requires forall k :: 0 <= k < |chunks| ==> |chunks[k].sums| == dims
    requires t < |states| && b < |chunks| && b in todo
    requires SumAll(states, dims) == SumAll(DoneParts(chunks, todo, dims), dims)
    ensures SumAll(states[t := Plus(states[t], chunks[b])], dims) == SumAll(DoneParts(chunks, todo - {b}, dims), dims)
  {
    var done := DoneParts(chunks, todo, dims);
    SumAllOfUpdate(states, dims, t, chunks[b]);
    SumAllOfUpdate(done, dims, b, chunks[b]);
    PlusNothing(chunks[b]);
    assert done[b := Plus(done[b], chunks[b])] == DoneParts(chunks, todo - {b}, dims);
  }

  ghost predicate Partitioned(input: Input, batch: nat, count: nat, chunks: seq<Sums>) {
    && input.Valid() && |chunks| == count
    && forall b: nat {:trigger chunks[b]} :: b < count ==>
      && b * batch <= Min((b + 1) * batch, |input.data|)
      && chunks[b] == Linear(input, b * batch, Min((b + 1) * batch, |input.data|))
  }

  /** A thread sums one chunk. */
  method RunChunk(input: Input, batch: nat, b: nat, threshold: nat, tls: seq<CountSum>, t: nat,
      ghost states: seq<Sums>, ghost chunks: seq<Sums>) returns (ghost after: seq<Sums>)
    requires Partitioned(input, batch, |chunks|, chunks) && b < |chunks| && threshold >= 1
    requires Holds(tls, states, input.dims) && t < |tls|
    modifies tls[t]
    ensures after == states[t := Plus(states[t], chunks[b])] && Holds(tls, after, input.dims)
  {
    ghost var chunk := chunks[b];
    var part := OpPairwise(input, b * batch, Min((b + 1) * batch, |input.data|), threshold);
    tls[t].PlusEquals(part);
    after := states[t := Plus(states[t], chunk)];
  }

  /** `threads::run` over the chunks: any thread takes any chunk still to do. */
  method RunChunks(input: Input, batch: nat, count: nat, threshold: nat, tls: seq<CountSum>, ghost chunks: seq<Sums>)
    returns (ghost states: seq<Sums>)
    requires Partitioned(input, batch, count, chunks) && threshold >= 1 && tls != []
    requires Holds(tls, seq(|tls|, _ => Nothing(input.dims)), input.dims)
    modifies tls
    ensures Holds(tls, states, input.dims)
    ensures forall b :: 0 <= b < count ==> |chunks[b].sums| == input.dims
    ensures SumAll(states, input.dims) == SumAll(chunks, input.dims)
  {
    states := seq(|tls|, _ => Nothing(input.dims));
    var todo := Threads.Indices(count);
    SumAllOfNothing(states, input.dims);
    SumAllOfNothing(DoneParts(chunks, todo, input.dims), input.dims);
    while todo != {}
      invariant forall b :: b in todo ==> b < count
      invariant Holds(tls, states, input.dims)
      invariant forall b :: 0 <= b < count ==> |chunks[b].sums| == input.dims
      invariant SumAll(states, input.dims) == SumAll(DoneParts(chunks, todo, input.dims), input.dims)
      decreases todo
    {
      var b :| b in todo;
      var t :| 0 <= t < |tls|;
      ChunkDone(states, chunks, todo, t, b, input.dims);
      states := RunChunk(input, batch, b, threshold, tls, t, states, chunks);
      todo := todo - {b};
    }
    assert DoneParts(chunks, todo, input.dims) == chunks;
  }

  /** The threads' sums added up. */
  method SumThreads(tls: seq<CountSum>, ghost states: seq<Sums>, dims: nat) returns (accum: CountSum)
    requires Holds(tls, states, dims)
    ensures accum.State() == SumAll(states, dims)
  {
    accum := new CountSum(dims);
    for t := 0 to |tls|
      invariant fresh(accum) && Holds(tls, states, dims)
      invariant accum.State() == SumAll(states[..t], dims)
    {
      accum.PlusEquals(tls[t]);
      assert states[..t + 1][..t] == states[..t];
    }
    assert states[..|tls|] == states;
  }

  lemma PartitionIs(input: Input, batch: nat, count: nat)
    requires input.Valid() && batch > 0 && count == DivRoundUp(|input.data|, batch)
    ensures count > 0 ==> (count - 1) * batch <= |input.data|
    ensures Partitioned(input, batch, count, Chunks(input, batch, count))
    ensures SumAll(Chunks(input, batch, count), input.dims) == Linear(input, 0, |input.data|)
  {
    RoundUpCovers(|input.data|, batch);
    forall b: nat | b < count
      ensures b * batch <= Min((b + 1) * batch, |input.data|)
      ensures Chunks(input, batch, count)[b] == Linear(input, b * batch, Min((b + 1) * batch, |input.data|))
    {
      ChunksAre(input, batch, count, b);
    }
    ChunksAddUp(input, batch, count);
  }

  /** `compute_medioid`: the mean of the data kept, whatever threads took which chunks. */
  method ComputeMedioid(input: Input, threads: nat, batch: nat, threshold: nat) returns (mean: Option<Vector>)
    requires input.Valid() && threads > 0 && batch > 0 && threshold >= 1
    ensures mean == MeanOf(Linear(input, 0, |input.data|)) && IsMeanOfKept(input, mean)
  {
    LinearMean(input);
    var tls := NewSums(threads, input.dims);
    var count := DivRoundUp(|input.data|, batch);
    PartitionIs(input, batch, count);
    ghost var states := RunChunks(input, batch, count, threshold, tls, Chunks(input, batch, count));
    var accum := SumThreads(tls, states, input.dims);
    mean := accum.Finish();
  }

  // ----- The nearest datum

  /** The loop over the coordinates. */
  method Distance(x: Vector, y: Vector) returns (distance: real)
    requires |x| == |y|
    ensures distance == SquaredDistance(x, y)
  {
    distance := 0.0;
    ghost var d := Minus(x, y);
    for k := 0 to |x|
      invariant distance == Inner(d[..k], d[..k])
    {
      var diff := x[k] - y[k];
      distance := distance + Mul(diff, diff);
      assert d[..k + 1][..k] == d[..k];
    }
    assert d[..|x|] == d;
  }

  /** `n` is a datum kept with its distance to `mean`, or the sentinel. */
  ghost predicate IsCandidate(input: Input, mean: Vector, n: Neighbor)
    requires input.Valid() && |mean| == input.dims
  {
    n == Sentinel(Less) ||
      (n.id < |input.data| && input.keep(n.id) && n.distance < FLOAT_MAX
       && n.distance == SquaredDistance(mean, input.view(input.data[n.id])))
  }

  /** No datum kept is nearer than `distance`. */
  ghost predicate NoneNearer(input: Input, mean: Vector, i: nat, distance: real)
    requires input.Valid() && |mean| == input.dims
  {
    i < |input.data| && input.keep(i) ==> distance <= SquaredDistance(mean, input.view(input.data[i]))
  }

  /** `id` is a datum kept that is nearest to `mean`, or it is no datum and none is kept within
      the largest `float`. */
  ghost predicate IsNearestKept(input: Input, mean: Vector, id: nat)
    requires input.Valid() && |mean| == input.dims
  {
    if id == ID_MAX then forall i :: 0 <= i < |input.data| ==> NoneNearer(input, mean, i, FLOAT_MAX)
    else
      && id < |input.data| && input.keep(id)
      && var distance := SquaredDistance(mean, input.view(input.data[id]));
        && distance < FLOAT_MAX
        && forall i :: 0 <= i < |input.data| ==> NoneNearer(input, mean, i, distance)
  }

  /** The threads' nearest: any thread looks at any datum still to do. */
  method FindClosest(input: Input, mean: Vector, threads: nat) returns (closest: seq<Neighbor>, ghost owner: seq<nat>)
    requires input.Valid() && |mean| == input.dims && threads > 0
    ensures |closest| == threads && |owner| == |input.data|
    ensures forall t :: 0 <= t < threads ==> IsCandidate(input, mean, closest[t])
    ensures forall i :: 0 <= i < |input.data| ==>
      owner[i] < threads && NoneNearer(input, mean, i, closest[owner[i]].distance)
  {
    closest := seq(threads, _ => Sentinel(Less));
    owner := seq(|input.data|, _ => 0);
    var todo := Threads.Indices(|input.data|);
    while todo != {}
      invariant |closest| == threads && |owner| == |input.data|
      invariant forall i :: i in todo ==> i < |input.data|
      invariant forall t :: 0 <= t < threads ==> IsCandidate(input, mean, closest[t])
      invariant forall i :: 0 <= i < |input.data| && i !in todo ==>
        owner[i] < threads && NoneNearer(input, mean, i, closest[owner[i]].distance)
      decreases todo
    {
      var i :| i in todo;
      var t: nat :| t < threads;
      todo := todo - {i};
      if input.keep(i) {
        var distance := Distance(mean, input.view(input.data[i]));
        if distance < closest[t].distance {
          closest := closest[t := Neighbor(i, distance)];
        }
      }
      owner := owner[i := t];
    }
  }

  /** The pass over the threads' nearest. */
  method LeastOf(input: Input, mean: Vector, closest: seq<Neighbor>, ghost owner: seq<nat>) returns (id: nat)
    requires input.Valid() && |input.data| <= ID_MAX && |mean| == input.dims && |owner| == |input.data|
    requires forall t :: 0 <= t < |closest| ==> IsCandidate(input, mean, closest[t])
    requires forall i :: 0 <= i < |input.data| ==>
      owner[i] < |closest| && NoneNearer(input, mean, i, closest[owner[i]].distance)
    ensures IsNearestKept(input, mean, id)
  {
    var least := Sentinel(Less);
    for t := 0 to |closest|
      invariant IsCandidate(input, mean, least)
      invariant forall u :: 0 <= u < t ==> least.distance <= closest[u].distance
    {
      if Better(Less, closest[t], least) {
        least := closest[t];
      }
    }
    forall i | 0 <= i < |input.data| ensures NoneNearer(input, mean, i, least.distance) {
      assert least.distance <= closest[owner[i]].distance;
    }
    return least.id;
  }

  /** `find_medioid`: a datum kept that is nearest to the mean of those kept, whatever threads
      looked at which data. */
  method FindMedioid(input: Input, threads: nat, batch: nat, threshold: nat) returns (id: nat)
    requires input.Valid() && |input.data| <= ID_MAX && threads > 0 && batch > 0 && threshold >= 1
    ensures var mean := MeanOf(Linear(input, 0, |input.data|));
      && IsMeanOfKept(input, mean)
      && if mean.None? then id == ID_MAX else IsNearestKept(input, mean.value, id)
  {
    var medioid := ComputeMedioid(input, threads, batch, threshold);
    if medioid.None? {
      return ID_MAX;
    }
    var closest, owner := FindClosest(input, medioid.value, threads);
    id := LeastOf(input, medioid.value, closest, owner);
  }
}
