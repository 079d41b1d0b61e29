/** In-place, batched, two-phase compaction of a dataset (include/svs/core/compact.h).

    `newToOld[i]` names the old position of the row that has to end up at position `i`.
    Rows travel through a buffer that holds one batch; inside each of the two phases the
    threads may handle the rows of the batch in any order. */
module Compaction {
  import Threads
  import opened Algorithms
  import opened Arithmetic

  /** What one batch does: positions `start..stop` receive the rows they name. */
  function BatchStep<T>(data: seq<T>, newToOld: seq<nat>, start: nat, stop: nat): (r: seq<T>)
    requires start <= stop <= |newToOld| && InRange(newToOld, |data|)
    ensures |r| == |data|
  {
    seq(|data|, k requires 0 <= k < |data| =>
      if start <= k < stop then data[newToOld[k]] else data[k])
  }

  predicate InRange(newToOld: seq<nat>, n: nat) {
    |newToOld| <= n && forall i :: 0 <= i < |newToOld| ==> newToOld[i] < n
  }

  /** The batches from position `start` on, one after the other. */
  function CompactedFrom<T>(data: seq<T>, newToOld: seq<nat>, batch: nat, start: nat): (r: seq<T>)
    requires InRange(newToOld, |data|) && (batch > 0 || |newToOld| <= start)
    ensures |r| == |data|
    decreases |newToOld| - start
  {
    if |newToOld| <= start then data
    else
      var stop := Min(start + batch, |newToOld|);
      CompactedFrom(BatchStep(data, newToOld, start, stop), newToOld, batch, stop)
  }

  /** `compact_data`. False means that the dimension check threw. */
  method CompactData<T>(data: array<T>, dataDims: nat, buffer: array<T>, bufferDims: nat, newToOld: seq<nat>)
    returns (ok: bool)
    requires data != buffer
    requires InRange(newToOld, data.Length)
    requires buffer.Length > 0 || newToOld == []
    modifies data, buffer
    ensures ok <==> dataDims == bufferDims
    ensures !ok ==> data[..] == old(data[..]) && buffer[..] == old(buffer[..])
    ensures ok ==> data[..] == CompactedFrom(old(data[..]), newToOld, buffer.Length, 0)
  {
    if dataDims != bufferDims {
      return false;
    }
    var batchSize := buffer.Length;
    var start, end := 0, |newToOld|;
    while start < end
      invariant 0 <= start <= end
      invariant CompactedFrom(data[..], newToOld, batchSize, start)
             == CompactedFrom(old(data[..]), newToOld, batchSize, 0)
    {
      var stop := Min(start + batchSize, end);
      ghost var before := data[..];
      CopyToBuffer(data, buffer, newToOld, start, stop);
      CopyBack(data, buffer, start, stop);
      assert data[..] == BatchStep(before, newToOld, start, stop);
      start := stop;
    }
    return true;
  }

  /** First phase: gather the batch into the buffer, rows in any order. */
  method CopyToBuffer<T>(data: array<T>, buffer: array<T>, newToOld: seq<nat>, start: nat, stop: nat)
    requires data != buffer && InRange(newToOld, data.Length)
    requires start <= stop <= |newToOld| && stop - start <= buffer.Length
    modifies buffer
    ensures forall j :: 0 <= j < stop - start ==> buffer[j] == data[newToOld[start + j]]
  {
    var remaining := Threads.Indices(stop - start);
    while remaining != {}
      invariant forall j :: j in remaining ==> 0 <= j < stop - start
      invariant forall j :: 0 <= j < stop - start && j !in remaining ==> buffer[j] == data[newToOld[start + j]]
      decreases remaining
    {
      var j :| j in remaining;
      buffer[j] := data[newToOld[start + j]];
      remaining := remaining - {j};
    }
  }

  /** Second phase: write the buffer back to the new positions, rows in any order. */
  method CopyBack<T>(data: array<T>, buffer: array<T>, start: nat, stop: nat)
    requires data != buffer
    requires start <= stop <= data.Length && stop - start <= buffer.Length
    modifies data
    ensures forall k :: 0 <= k < data.Length ==>
      data[k] == if start <= k < stop then buffer[k - start] else old(data[k])
  {
    var remaining := Threads.Indices(stop - start);
    while remaining != {}
      invariant forall j :: j in remaining ==> 0 <= j < stop - start
      invariant forall k :: 0 <= k < data.Length ==>
        data[k] == if start <= k < stop && k - start !in remaining then buffer[k - start] else old(data[k])
      decreases remaining
    {
      var j :| j in remaining;
      data[start + j] := buffer[j];
      remaining := remaining - {j};
    }
  }

  // ----- What compaction has to achieve, and when it does

  /** Every listed position holds the row it names, every other row is untouched. */
  ghost predicate Gathered<T>(before: seq<T>, newToOld: seq<nat>, after: seq<T>)
    requires InRange(newToOld, |before|)
  {
    && |after| == |before|
    && (forall i :: 0 <= i < |newToOld| ==> after[i] == before[newToOld[i]])
    && (forall k :: |newToOld| <= k < |before| ==> after[k] == before[k])
  }

  ghost predicate StrictlyIncreasing(s: seq<nat>) {
    forall i, j :: 0 <= i < j < |s| ==> s[i] < s[j]
  }

  ghost predicate NonDecreasing(s: seq<nat>) {
    forall i, j :: 0 <= i < j < |s| ==> s[i] <= s[j]
  }

  /** No row is fetched from a position that an earlier batch has overwritten with
      another row: the position read is inside or after the reader's own batch, or it
      names itself. */
  ghost predicate ReadsBeforeOverwrite(newToOld: seq<nat>, batch: nat)
    requires batch > 0
  {
    forall i :: 0 <= i < |newToOld| ==>
      newToOld[i] >= i - i % batch || newToOld[newToOld[i]] == newToOld[i]
  }

  /** Later batches leave the finished positions and everything after the list alone. */
  lemma {:induction false} FinishedStays<T>(data: seq<T>, newToOld: seq<nat>, batch: nat, start: nat)
    requires InRange(newToOld, |data|) && batch > 0
    ensures forall k :: 0 <= k < |data| && (k < start || |newToOld| <= k) ==>
      CompactedFrom(data, newToOld, batch, start)[k] == data[k]
    decreases |newToOld| - start
  {
    if start < |newToOld| {
      var stop := Min(start + batch, |newToOld|);
      FinishedStays(BatchStep(data, newToOld, start, stop), newToOld, batch, stop);
    }
  }

  lemma {:induction false} GatheredFrom<T>(orig: seq<T>, data: seq<T>, newToOld: seq<nat>, batch: nat, q: nat)
    requires InRange(newToOld, |orig|) && |data| == |orig| && batch > 0
    requires ReadsBeforeOverwrite(newToOld, batch)
    requires forall k :: 0 <= k < |orig| ==>
      data[k] == if k < q * batch && k < |newToOld| then orig[newToOld[k]] else orig[k]
    ensures Gathered(orig, newToOld, CompactedFrom(data, newToOld, batch, Min(q * batch, |newToOld|)))
    decreases |newToOld| - q * batch
  {
    var start := q * batch;
    if start < |newToOld| {
      assert (q + 1) * batch == start + batch;
      var stop := Min(start + batch, |newToOld|);
      var next := BatchStep(data, newToOld, start, stop);
      forall k | start <= k < stop ensures next[k] == orig[newToOld[k]] {
        BatchStartIs(k, batch, q);
        var p := newToOld[k];
        assert next[k] == data[p];
      }
      GatheredFrom(orig, next, newToOld, batch, q + 1);
    }
  }

  /** Exactly when in-place compaction is right. The guard of the function asks only for a
      non-decreasing list, which is not enough; this condition is. */
  lemma CompactionRightIff<T>(data: seq<T>, newToOld: seq<nat>, batch: nat)
    requires InRange(newToOld, |data|) && batch > 0
    ensures ReadsBeforeOverwrite(newToOld, batch) ==> Gathered(data, newToOld, CompactedFrom(data, newToOld, batch, 0))
    ensures Distinct(data) && Gathered(data, newToOld, CompactedFrom(data, newToOld, batch, 0))
      ==> ReadsBeforeOverwrite(newToOld, batch)
  {
    if ReadsBeforeOverwrite(newToOld, batch) {
      GatheredFrom(data, data, newToOld, batch, 0);
    }
    var after := CompactedFrom(data, newToOld, batch, 0);
    if Distinct(data) && Gathered(data, newToOld, after) {
      forall i | 0 <= i < |newToOld| && newToOld[i] < i - i % batch
        ensures newToOld[newToOld[i]] == newToOld[i]
      {
        RowReadFromFinishedPosition(data, newToOld, batch, 0, 0, i);
        var p := newToOld[i];
        assert data[p] == after[i] == after[p] == data[newToOld[p]];
      }
    }
  }

  /** A row fetched from before its own batch is whatever that position finally holds. */
  lemma {:induction false} RowReadFromFinishedPosition<T>(
      data: seq<T>, newToOld: seq<nat>, batch: nat, q: nat, start: nat, i: nat)
    requires InRange(newToOld, |data|) && batch > 0 && start == q * batch
    requires start <= i < |newToOld| && newToOld[i] < i - i % batch
    ensures var after := CompactedFrom(data, newToOld, batch, start); after[i] == after[newToOld[i]]
    decreases i - start
  {
    var stop := Min(start + batch, |newToOld|);
    var next := BatchStep(data, newToOld, start, stop);
    if i < stop {
      BatchStartIs(i, batch, q);
      FinishedStays(next, newToOld, batch, stop);
    } else {
      assert (q + 1) * batch == start + batch;
      RowReadFromFinishedPosition(next, newToOld, batch, q + 1, stop, i);
    }
  }

  lemma {:induction false} IncreasingReadsAhead(s: seq<nat>, i: nat)
    requires StrictlyIncreasing(s) && i < |s|
    ensures s[i] >= i
  {
    if i > 0 {
      IncreasingReadsAhead(s, i - 1);
    }
  }

  /** A strictly increasing list compacts correctly whatever the buffer size. */
  lemma IncreasingCompacts<T>(data: seq<T>, newToOld: seq<nat>, batch: nat)
    requires InRange(newToOld, |data|) && batch > 0 && StrictlyIncreasing(newToOld)
    ensures Gathered(data, newToOld, CompactedFrom(data, newToOld, batch, 0))
  {
    forall i | 0 <= i < |newToOld| ensures newToOld[i] >= i - i % batch {
      IncreasingReadsAhead(newToOld, i);
    }
    CompactionRightIff(data, newToOld, batch);
  }

  /** A sorted list with a repeat, accepted by the guard, that loses a row. */
  lemma RepeatsCanLoseRows()
    ensures var list: seq<nat> := [0, 0, 1];
      && NonDecreasing(list)
      && CompactedFrom(["a", "b", "c"], list, 1, 0) == ["a", "a", "a"]
      && !Gathered(["a", "b", "c"], list, CompactedFrom(["a", "b", "c"], list, 1, 0))
  {
    var list: seq<nat> := [0, 0, 1];
    var d0 := ["a", "b", "c"];
    var d1 := BatchStep(d0, list, 0, 1);
    assert d1 == d0;
    var d2 := BatchStep(d1, list, 1, 2);
    assert d2 == ["a", "a", "c"];
    var d3 := BatchStep(d2, list, 2, 3);
    assert d3 == ["a", "a", "a"];
    assert CompactedFrom(d3, list, 1, 3) == d3;
    assert CompactedFrom(d2, list, 1, 2) == d3;
    assert CompactedFrom(d1, list, 1, 1) == d3;
    assert CompactedFrom(d0, list, 1, 0)[2] == "a" != d0[list[2]];
  }
}
