/** A dynamic index compacted as a whole: the rows move with `compact_data`, then every
    internal id that changed is remapped, in increasing order of its new value. This is
    how a client uses the two pieces; the index itself is not part of this model. */
module IndexCompaction {
  import opened Translation
  import Compaction

  /** `newToOld` lists exactly the internal ids in use, in increasing order. */
  ghost predicate ListsInternals(newToOld: seq<InternalId>, i2e: map<InternalId, ExternalId>) {
    && Compaction.StrictlyIncreasing(newToOld)
    && (forall i :: i in newToOld <==> i in i2e)
  }

  /** After the first `k` remaps: the pairs of the listed ids below `k` sit at their new
      places, the others where they were. */
  ghost predicate RemappedUpTo(orig: Tables, newToOld: seq<InternalId>, k: nat, t: Tables)
    requires ListsInternals(newToOld, orig.i2e) && k <= |newToOld|
  {
    && t.Inverse()
    && t.e2i.Keys == orig.e2i.Keys
    && (forall j :: 0 <= j < k ==> j in t.i2e && t.i2e[j] == orig.i2e[newToOld[j]])
    && (forall j :: k <= j < |newToOld| ==> newToOld[j] in t.i2e && t.i2e[newToOld[j]] == orig.i2e[newToOld[j]])
  }

  /** Any internal id in use belongs to some listed pair, moved or not yet moved. */
  lemma WhichPair(orig: Tables, newToOld: seq<InternalId>, k: nat, t: Tables, i: InternalId) returns (j: nat)
    requires orig.Inverse() && ListsInternals(newToOld, orig.i2e) && k <= |newToOld|
    requires RemappedUpTo(orig, newToOld, k, t) && i in t.i2e
    ensures j < |newToOld| && i == if j < k then j else newToOld[j]
  {
    var e := t.i2e[i];
    var was := orig.e2i[e];
    assert was in newToOld;
    j :| 0 <= j < |newToOld| && newToOld[j] == was;
    assert t.e2i[e] == i;
  }

  /** One remap meets both documented assumptions and moves on by one id. */
  lemma RemapStep(orig: Tables, newToOld: seq<InternalId>, k: nat, t: Tables)
    requires orig.Inverse() && ListsInternals(newToOld, orig.i2e) && k < |newToOld|
    requires RemappedUpTo(orig, newToOld, k, t)
    ensures newToOld[k] == k ==> RemappedUpTo(orig, newToOld, k + 1, t)
    ensures newToOld[k] != k ==>
      && newToOld[k] in t.i2e && k < 0x1_0000_0000 && k !in t.i2e
      && RemappedUpTo(orig, newToOld, k + 1, RemapOne(t, newToOld[k], k))
  {
    hide RemapOne;
    Compaction.IncreasingReadsAhead(newToOld, k);
    if newToOld[k] != k {
      if k in t.i2e {
        var j := WhichPair(orig, newToOld, k, t, k);
        assert false;
      }
      RemapMoves(orig, newToOld, k, t);
    }
  }

  /** A pair that is in its place, or is now put there. */
  lemma RemappedBelow(orig: Tables, newToOld: seq<InternalId>, k: nat, t: Tables, j: nat)
    requires ListsInternals(newToOld, orig.i2e) && j <= k < |newToOld| && RemappedUpTo(orig, newToOld, k, t)
    requires k < newToOld[k] && k !in t.i2e
    ensures var u := RemapOne(t, newToOld[k], k); j in u.i2e && u.i2e[j] == orig.i2e[newToOld[j]]
  {
    RemapContents(t, newToOld[k], k);
  }

  /** A pair whose turn has not come. */
  lemma NotYetRemapped(orig: Tables, newToOld: seq<InternalId>, k: nat, t: Tables, j: nat)
    requires ListsInternals(newToOld, orig.i2e) && k < j < |newToOld| && RemappedUpTo(orig, newToOld, k, t)
    requires k < newToOld[k] && k !in t.i2e
    ensures var u := RemapOne(t, newToOld[k], k); newToOld[j] in u.i2e && u.i2e[newToOld[j]] == orig.i2e[newToOld[j]]
  {
    RemapContents(t, newToOld[k], k);
    assert newToOld[k] < newToOld[j];
  }

  lemma RemapMoves(orig: Tables, newToOld: seq<InternalId>, k: nat, t: Tables)
    requires ListsInternals(newToOld, orig.i2e) && k < |newToOld|
    requires RemappedUpTo(orig, newToOld, k, t)
    requires k < newToOld[k] && k !in t.i2e
    ensures RemappedUpTo(orig, newToOld, k + 1, RemapOne(t, newToOld[k], k))
  {
    hide RemapOne, Tables.Inverse;
    var u := RemapOne(t, newToOld[k], k);
    RemapContents(t, newToOld[k], k);
    forall j | 0 <= j < k + 1 ensures j in u.i2e && u.i2e[j] == orig.i2e[newToOld[j]] {
      RemappedBelow(orig, newToOld, k, t, j);
    }
    forall j | k + 1 <= j < |newToOld| ensures newToOld[j] in u.i2e && u.i2e[newToOld[j]] == orig.i2e[newToOld[j]] {
      NotYetRemapped(orig, newToOld, k, t, j);
    }
  }

  /** Once every id is remapped, the ids in use are the first ones and each external id
      leads to the row it led to before. */
  lemma AllReached<T>(orig: Tables, newToOld: seq<InternalId>, t: Tables, before: seq<T>, after: seq<T>)
    requires orig.Inverse() && ListsInternals(newToOld, orig.i2e)
    requires RemappedUpTo(orig, newToOld, |newToOld|, t)
    requires Compaction.InRange(newToOld, |before|) && Compaction.Gathered(before, newToOld, after)
    ensures forall i: InternalId :: i in t.i2e <==> i < |newToOld|
    ensures forall e :: e in t.e2i ==>
      orig.e2i[e] < |before| && t.e2i[e] < |after| && after[t.e2i[e]] == before[orig.e2i[e]]
  {
    forall i | i in t.i2e ensures i < |newToOld| {
      var j := WhichPair(orig, newToOld, |newToOld|, t, i);
    }
    forall e | e in t.e2i
      ensures orig.e2i[e] < |before| && t.e2i[e] < |after| && after[t.e2i[e]] == before[orig.e2i[e]]
    {
      var now := t.e2i[e];
      assert now < |newToOld|;
      assert orig.i2e[newToOld[now]] == e;
    }
  }

  method CompactIndex<T>(translator: IdTranslator, data: array<T>, buffer: array<T>, newToOld: seq<InternalId>)
    requires data != buffer && buffer.Length > 0
    requires translator.State().Inverse()
    requires ListsInternals(newToOld, translator.internalToExternal)
    requires Compaction.InRange(newToOld, data.Length)
    modifies translator, data, buffer
    ensures translator.State().Inverse()
    // The internal ids in use are exactly the first ones ...
    ensures forall i: InternalId :: i in translator.internalToExternal <==> i < |newToOld|
    // ... and every external id still reaches its datum.
    ensures translator.externalToInternal.Keys == old(translator.externalToInternal).Keys
    ensures forall e :: e in translator.externalToInternal ==>
      var was := old(translator.externalToInternal)[e];
      var now := translator.externalToInternal[e];
      was < data.Length && now < data.Length && data[..][now] == old(data[..])[was]
  {
    ghost var orig := translator.State();
    ghost var before := data[..];
    var ok := Compaction.CompactData(data, 0, buffer, 0, newToOld);
    Compaction.IncreasingCompacts(before, newToOld, buffer.Length);
    ghost var after := data[..];
    for k := 0 to |newToOld|
      invariant RemappedUpTo(orig, newToOld, k, translator.State())
      invariant data[..] == after
    {
      RemapStep(orig, newToOld, k, translator.State());
      if newToOld[k] != k {
        translator.RemapInternalId(newToOld[k], k);
      }
    }
    AllReached(orig, newToOld, translator.State(), before, after);
  }
}
