/** The two-way translation table between external and internal ids
    (include/svs/core/translation.h). */
module Translation {
  import opened Algorithms

  type InternalId = i: nat | i < 0x1_0000_0000
  type ExternalId = e: nat | e < 0x1_0000_0000_0000_0000

  /** The two hash maps, as one value. */
  datatype Tables = Tables(e2i: map<ExternalId, InternalId>, i2e: map<InternalId, ExternalId>) {

    /** The two maps are each other's inverse. */
    ghost predicate Inverse() {
      && (forall e :: e in e2i ==> e2i[e] in i2e && i2e[e2i[e]] == e)
      && (forall i :: i in i2e ==> i2e[i] in e2i && e2i[i2e[i]] == i)
    }
  }

  const EMPTY := Tables(map[], map[])

  /** How a call ends: normally, or with one of the exceptions. */
  datatype Outcome =
    | Done
    | CountMismatch
    | RepeatedExternal
    | RepeatedInternal
    | ExternalTaken(external: ExternalId)
    | InternalTaken(internal: InternalId)
    | ExternalMissing(external: ExternalId)
    | InternalMissing(internal: InternalId)
    | OutOfRange

  // ----- What the operations compute

  function InsertOne(t: Tables, e: ExternalId, i: InternalId): Tables {
    Tables(t.e2i[e := i], t.i2e[i := e])
  }

  function InsertPairs(t: Tables, external: seq<ExternalId>, internal: seq<InternalId>): Tables
    requires |external| == |internal|
  {
    if external == [] then t
    else
      var last := |external| - 1;
      InsertOne(InsertPairs(t, external[..last], internal[..last]), external[last], internal[last])
  }

  function RemapOne(t: Tables, from: InternalId, to: InternalId): Tables
    requires from in t.i2e
  {
    var external := t.i2e[from];
    Tables(t.e2i[external := to], (t.i2e - {from})[to := external])
  }

  /** Delete internal ids one by one; the flag turns false at the first id that is absent,
      where the lookup throws and the deletions made so far stay. */
  function DeleteInternals(t: Tables, ids: seq<InternalId>): (Tables, bool)
    decreases |ids|
  {
    if ids == [] then (t, true)
    else if ids[0] !in t.i2e then (t, false)
    else DeleteInternals(Tables(t.e2i - {t.i2e[ids[0]]}, t.i2e - {ids[0]}), ids[1..])
  }

  function DeleteExternals(t: Tables, ids: seq<ExternalId>): (Tables, bool)
    decreases |ids|
  {
    if ids == [] then (t, true)
    else if ids[0] !in t.e2i then (t, false)
    else DeleteExternals(Tables(t.e2i - {ids[0]}, t.i2e - {t.e2i[ids[0]]}), ids[1..])
  }

  /** Position of the first id whose presence among `keys` is `present`, or the length. */
  function FirstId<T(==)>(ids: seq<T>, keys: set<T>, present: bool): (k: nat)
    ensures k <= |ids| && (k < |ids| ==> (ids[k] in keys) == present)
    ensures forall j :: 0 <= j < k ==> (ids[j] in keys) != present
  {
    if ids == [] || (ids[0] in keys) == present then 0
    else
      var k := FirstId(ids[1..], keys, present);
      assert forall j :: 1 <= j < k + 1 ==> ids[j] == ids[1..][j - 1];
      k + 1
  }

  /** The verdict of the checks of `insert`, in the order in which they are made. */
  ghost function InsertVerdict(t: Tables, external: seq<ExternalId>, internal: seq<InternalId>, check: bool): Outcome {
    if |external| != |internal| then CountMismatch
    else if !check then Done
    else if !Distinct(external) then RepeatedExternal
    else if !Distinct(internal) then RepeatedInternal
    else
      var ke := FirstId(external, t.e2i.Keys, true);
      var ki := FirstId(internal, t.i2e.Keys, true);
      if ke < |external| then ExternalTaken(external[ke])
      else if ki < |internal| then InternalTaken(internal[ki])
      else Done
  }

  /** `check`: the position of the first id for which the check throws, or the length. */
  method Check<K(==), V>(ids: seq<K>, table: map<K, V>, present: bool) returns (k: nat)
    ensures k == FirstId(ids, table.Keys, present)
  {
    for j := 0 to |ids|
      invariant forall i :: 0 <= i < j ==> (ids[i] in table) != present
    {
      if (ids[j] in table) == present {
        return j;
      }
    }
    return |ids|;
  }

  // ----- The class

  class IdTranslator {
    var externalToInternal: map<ExternalId, InternalId>
    var internalToExternal: map<InternalId, ExternalId>

    function State(): Tables
      reads this
    {
      Tables(externalToInternal, internalToExternal)
    }

    constructor ()
      ensures State() == EMPTY
    {
      externalToInternal, internalToExternal := map[], map[];
    }

    /** The identity translation of `n` ids. */
    constructor Identity(n: nat)
      requires n <= 0x1_0000_0000
      ensures State().Inverse()
      ensures forall i: nat :: (i in externalToInternal <==> i < n) && (i < n ==> externalToInternal[i] == i)
      ensures forall i: nat :: i in internalToExternal <==> i < n
    {
      externalToInternal, internalToExternal := map[], map[];
      new;
      var ids: seq<InternalId> := seq(n, i requires 0 <= i < n => i);
      IdentityPairs(ids);
      var r := Insert(ids, ids, true);
    }

    method InsertTranslation(e: ExternalId, i: InternalId)
      modifies this
      ensures State() == InsertOne(old(State()), e, i)
    {
      externalToInternal := externalToInternal[e := i];
      internalToExternal := internalToExternal[i := e];
    }

    method Insert(external: seq<ExternalId>, internal: seq<InternalId>, check: bool) returns (r: Outcome)
      modifies this
      ensures r == InsertVerdict(old(State()), external, internal, check)
      ensures State() == if r == Done then InsertPairs(old(State()), external, internal) else old(State())
    {
      if |external| != |internal| {
        return CountMismatch;
      }
      if check {
        var unique := AllUnique(external);
        if !unique {
          return RepeatedExternal;
        }
        unique := AllUnique(internal);
        if !unique {
          return RepeatedInternal;
        }
        var bad := Check(external, externalToInternal, true);
        if bad < |external| {
          return ExternalTaken(external[bad]);
        }
        bad := Check(internal, internalToExternal, true);
        if bad < |internal| {
          return InternalTaken(internal[bad]);
        }
      }
      for k := 0 to |external|
        invariant State() == InsertPairs(old(State()), external[..k], internal[..k])
      {
        InsertTranslation(external[k], internal[k]);
        assert external[..k + 1][..k] == external[..k] && internal[..k + 1][..k] == internal[..k];
      }
      assert external[..|external|] == external && internal[..|internal|] == internal;
      return Done;
    }

    /** `remap_internal_id`, under the two assumptions its documentation states. */
    method RemapInternalId(from: InternalId, to: InternalId)
      requires from in internalToExternal
      requires to !in internalToExternal
      modifies this
      ensures State() == RemapOne(old(State()), from, to)
    {
      var external := internalToExternal[from];
      externalToInternal := externalToInternal[external := to];
      internalToExternal := internalToExternal - {from};
      internalToExternal := internalToExternal[to := external];
    }

    method DeleteInternal(ids: seq<InternalId>, check: bool) returns (r: Outcome)
      modifies this
      ensures var k := FirstId(ids, old(internalToExternal).Keys, false);
        if check && k < |ids| then
          r == InternalMissing(ids[k]) && State() == old(State())
        else
          (State(), r == Done) == DeleteInternals(old(State()), ids) && (r == Done || r == OutOfRange)
    {
      if check {
        var bad := Check(ids, internalToExternal, false);
        if bad < |ids| {
          return InternalMissing(ids[bad]);
        }
      }
      for k := 0 to |ids|
        invariant DeleteInternals(State(), ids[k..]) == DeleteInternals(old(State()), ids)
      {
        if ids[k] !in internalToExternal {
          return OutOfRange;
        }
        var e := internalToExternal[ids[k]];
        internalToExternal := internalToExternal - {ids[k]};
        externalToInternal := externalToInternal - {e};
        assert ids[k..][1..] == ids[k + 1..];
      }
      return Done;
    }

    method DeleteExternal(ids: seq<ExternalId>, check: bool) returns (r: Outcome)
      modifies this
      ensures var k := FirstId(ids, old(externalToInternal).Keys, false);
        if check && k < |ids| then
          r == ExternalMissing(ids[k]) && State() == old(State())
        else
          (State(), r == Done) == DeleteExternals(old(State()), ids) && (r == Done || r == OutOfRange)
    {
      if check {
        var bad := Check(ids, externalToInternal, false);
        if bad < |ids| {
          return ExternalMissing(ids[bad]);
        }
      }
      for k := 0 to |ids|
        invariant DeleteExternals(State(), ids[k..]) == DeleteExternals(old(State()), ids)
      {
        if ids[k] !in externalToInternal {
          return OutOfRange;
        }
        var i := externalToInternal[ids[k]];
        internalToExternal := internalToExternal - {i};
        externalToInternal := externalToInternal - {ids[k]};
        assert ids[k..][1..] == ids[k + 1..];
      }
      return Done;
    }
  }

  // ----- Inserts

  /** Exactly when one unchecked insertion keeps the maps inverse. */
  lemma InsertOneKeepsInverseIff(t: Tables, e: ExternalId, i: InternalId)
    requires t.Inverse()
    ensures InsertOne(t, e, i).Inverse() <==>
      (e !in t.e2i && i !in t.i2e) || (e in t.e2i && t.e2i[e] == i)
  {
    var u := InsertOne(t, e, i);
    if e in t.e2i && t.e2i[e] != i {
      assert t.e2i[e] in u.i2e && u.i2e[t.e2i[e]] == e && u.e2i[e] == i;
    }
    if i in t.i2e && t.i2e[i] != e {
      assert t.i2e[i] in u.e2i && u.e2i[t.i2e[i]] == i && u.i2e[i] == e;
    }
  }

  /** What an accepted checked insertion does, over the facts its checks establish. */
  ghost predicate Fresh(t: Tables, external: seq<ExternalId>, internal: seq<InternalId>) {
    && |external| == |internal| && Distinct(external) && Distinct(internal)
    && (forall k :: 0 <= k < |external| ==> external[k] !in t.e2i)
    && (forall k :: 0 <= k < |internal| ==> internal[k] !in t.i2e)
  }

  /** The checks pass exactly when the ids are distinct and free. */
  lemma ChecksPassIffFresh(t: Tables, external: seq<ExternalId>, internal: seq<InternalId>)
    ensures InsertVerdict(t, external, internal, true) == Done <==> Fresh(t, external, internal)
  {
    var ke, ki := FirstId(external, t.e2i.Keys, true), FirstId(internal, t.i2e.Keys, true);
    assert ke < |external| ==> external[ke] in t.e2i;
    assert ki < |internal| ==> internal[ki] in t.i2e;
  }

  ghost predicate FirstPresent<K>(ids: seq<K>, k: nat, keys: set<K>) {
    k < |ids| && ids[k] in keys && forall l :: 0 <= l < k ==> ids[l] !in keys
  }

  /** What each verdict of the checks says. */
  lemma VerdictSays(t: Tables, external: seq<ExternalId>, internal: seq<InternalId>)
    ensures var v := InsertVerdict(t, external, internal, true);
      && (v == CountMismatch <==> |external| != |internal|)
      && (v == RepeatedExternal <==> |external| == |internal| && !Distinct(external))
      && (v == RepeatedInternal <==> |external| == |internal| && Distinct(external) && !Distinct(internal))
      && (v.ExternalTaken? ==> exists k: nat :: FirstPresent(external, k, t.e2i.Keys) && v.external == external[k])
      && (v.InternalTaken? ==> exists k: nat :: FirstPresent(internal, k, t.i2e.Keys) && v.internal == internal[k])
      && (v.InternalTaken? ==> forall e :: e in external ==> e !in t.e2i)
      && !v.ExternalMissing? && !v.InternalMissing? && !v.OutOfRange?
    ensures InsertVerdict(t, external, internal, false) == if |external| == |internal| then Done else CountMismatch
  {
    var ke, ki := FirstId(external, t.e2i.Keys, true), FirstId(internal, t.i2e.Keys, true);
    assert ke < |external| ==> FirstPresent(external, ke, t.e2i.Keys);
    assert ki < |internal| ==> FirstPresent(internal, ki, t.i2e.Keys);
  }

  /** Insertions without checks: the last pair given for an id counts, in each map. */
  lemma {:induction false} LastPairCounts(t: Tables, external: seq<ExternalId>, internal: seq<InternalId>, k: nat)
    requires k < |external| == |internal|
    ensures var u := InsertPairs(t, external, internal);
      && (external[k] !in external[k + 1..] ==> external[k] in u.e2i && u.e2i[external[k]] == internal[k])
      && (internal[k] !in internal[k + 1..] ==> internal[k] in u.i2e && u.i2e[internal[k]] == external[k])
  {
    var last := |external| - 1;
    var es, ins := external[..last], internal[..last];
    if k < last {
      LastPairCounts(t, es, ins, k);
      assert external[k + 1..] == es[k + 1..] + [external[last]];
      assert internal[k + 1..] == ins[k + 1..] + [internal[last]];
    }
  }

  /** And other ids keep what they had. */
  lemma {:induction false} OtherPairsStay(t: Tables, external: seq<ExternalId>, internal: seq<InternalId>,
      e: ExternalId, i: InternalId)
    requires |external| == |internal|
    ensures var u := InsertPairs(t, external, internal);
      && (e !in external ==> (e in u.e2i <==> e in t.e2i) && (e in t.e2i ==> u.e2i[e] == t.e2i[e]))
      && (i !in internal ==> (i in u.i2e <==> i in t.i2e) && (i in t.i2e ==> u.i2e[i] == t.i2e[i]))
  {
    if external != [] {
      var last := |external| - 1;
      OtherPairsStay(t, external[..last], internal[..last], e, i);
      assert external[last] in external && internal[last] in internal;
    }
  }

  /** `u` is `t` with exactly the given pairs added. */
  ghost predicate Added(t: Tables, external: seq<ExternalId>, internal: seq<InternalId>, u: Tables)
    requires |external| == |internal|
  {
    && (forall e :: e in u.e2i <==> e in t.e2i || e in external)
    && (forall i :: i in u.i2e <==> i in t.i2e || i in internal)
    && (forall k :: 0 <= k < |external| ==> external[k] in u.e2i && u.e2i[external[k]] == internal[k])
    && (forall e :: e in t.e2i ==> e in u.e2i && u.e2i[e] == t.e2i[e])
  }

  lemma AddOne(t: Tables, external: seq<ExternalId>, internal: seq<InternalId>, u: Tables, e: ExternalId, i: InternalId)
    requires |external| == |internal| && Added(t, external, internal, u)
    requires e !in u.e2i && i !in u.i2e
    ensures Added(t, external + [e], internal + [i], InsertOne(u, e, i))
  {
    forall k | 0 <= k < |external| ensures external[k] != e {
      assert external[k] in u.e2i;
    }
  }

  /** An accepted checked insertion keeps the maps inverse, adds exactly the given pairs,
      and keeps every pair there was. */
  lemma {:induction false} CheckedInsertContents(t: Tables, external: seq<ExternalId>, internal: seq<InternalId>)
    requires t.Inverse() && Fresh(t, external, internal)
    ensures var u := InsertPairs(t, external, internal);
      u.Inverse() && Added(t, external, internal, u)
  {
    if external != [] {
      var last := |external| - 1;
      var es, ins := external[..last], internal[..last];
      assert external == es + [external[last]] && internal == ins + [internal[last]];
      CheckedInsertContents(t, es, ins);
      var mid := InsertPairs(t, es, ins);
      InsertOneKeepsInverseIff(mid, external[last], internal[last]);
      AddOne(t, es, ins, mid, external[last], internal[last]);
    }
  }

  /** Inserting the first ids as their own translations gives the identity. */
  lemma IdentityPairs(ids: seq<InternalId>)
    requires forall i :: 0 <= i < |ids| ==> ids[i] == i
    ensures InsertVerdict(EMPTY, ids, ids, true) == Done
    ensures var t := InsertPairs(EMPTY, ids, ids);
      && t.Inverse()
      && (forall i: nat :: (i in t.e2i <==> i < |ids|) && (i < |ids| ==> t.e2i[i] == i))
      && (forall i: nat :: i in t.i2e <==> i < |ids|)
  {
    hide InsertPairs, InsertVerdict;
    FirstIdsAre(ids);
    ChecksPassIffFresh(EMPTY, ids, ids);
    CheckedInsertContents(EMPTY, ids, ids);
    AddedToEmpty(ids, InsertPairs(EMPTY, ids, ids));
  }

  lemma FirstIdsAre(ids: seq<InternalId>)
    requires forall i :: 0 <= i < |ids| ==> ids[i] == i
    ensures Fresh(EMPTY, ids, ids) && forall i: nat :: i in ids <==> i < |ids|
  {
    forall i: nat | i < |ids| ensures i in ids {
      assert ids[i] == i;
    }
  }

  lemma AddedToEmpty(ids: seq<InternalId>, t: Tables)
    requires forall i :: 0 <= i < |ids| ==> ids[i] == i
    requires Added(EMPTY, ids, ids, t)
    ensures forall i: nat :: (i in t.e2i <==> i < |ids|) && (i < |ids| ==> t.e2i[i] == i)
    ensures forall i: nat :: i in t.i2e <==> i < |ids|
  {
    FirstIdsAre(ids);
    forall i: nat | i < |ids| ensures i in t.e2i && t.e2i[i] == i {
      assert ids[i] == i;
    }
  }

  // ----- Remaps

  /** Under the documented assumptions a remap keeps the maps inverse, moves one pair, and
      leaves every other pair alone. */
  lemma RemapContents(t: Tables, from: InternalId, to: InternalId)
    requires t.Inverse() && from in t.i2e && to !in t.i2e
    ensures var u := RemapOne(t, from, to);
      && u.Inverse()
      && u.e2i.Keys == t.e2i.Keys
      && u.i2e.Keys == t.i2e.Keys - {from} + {to}
      && u.i2e[to] == t.i2e[from]
      && (forall i :: i in t.i2e && i != from ==> u.i2e[i] == t.i2e[i])
  {
    var u := RemapOne(t, from, to);
    assert u.i2e.Keys == t.i2e.Keys - {from} + {to};
    forall e | e in u.e2i ensures u.e2i[e] in u.i2e && u.i2e[u.e2i[e]] == e {
      if e != t.i2e[from] {
        assert t.e2i[e] != from;
      }
    }
  }

  // ----- Deletes

  lemma DeletePairKeepsInverse(t: Tables, e: ExternalId)
    requires t.Inverse() && e in t.e2i
    ensures Tables(t.e2i - {e}, t.i2e - {t.e2i[e]}).Inverse()
  {
    var u := Tables(t.e2i - {e}, t.i2e - {t.e2i[e]});
    forall d | d in u.e2i ensures u.e2i[d] in u.i2e && u.i2e[u.e2i[d]] == d {
      assert t.i2e[t.e2i[d]] == d;
    }
    forall i | i in u.i2e ensures u.i2e[i] in u.e2i && u.e2i[u.i2e[i]] == i {
      assert t.e2i[t.i2e[i]] == i;
    }
  }

  /** Deleting by internal id keeps the maps inverse even when it throws half way. It runs
      to the end exactly when every id is present and none repeats, and then removes
      exactly those ids. */
  lemma {:induction false} DeleteInternalsContents(t: Tables, ids: seq<InternalId>)
    requires t.Inverse()
    ensures var (u, ok) := DeleteInternals(t, ids);
      && u.Inverse()
      && (ok <==> Distinct(ids) && Elements(ids) <= t.i2e.Keys)
      && (ok ==> u.i2e == t.i2e - Elements(ids))
      && (forall e :: e in u.e2i ==> e in t.e2i && u.e2i[e] == t.e2i[e])
    decreases |ids|
  {
    if ids != [] {
      DistinctSplit(ids);
      if ids[0] in t.i2e {
        DeletePairKeepsInverse(t, t.i2e[ids[0]]);
        DeleteInternalsContents(Tables(t.e2i - {t.i2e[ids[0]]}, t.i2e - {ids[0]}), ids[1..]);
      }
    }
  }

  lemma {:induction false} DeleteExternalsContents(t: Tables, ids: seq<ExternalId>)
    requires t.Inverse()
    ensures var (u, ok) := DeleteExternals(t, ids);
      && u.Inverse()
      && (ok <==> Distinct(ids) && Elements(ids) <= t.e2i.Keys)
      && (ok ==> u.e2i == t.e2i - Elements(ids))
      && (forall e :: e in u.e2i ==> e in t.e2i && u.e2i[e] == t.e2i[e])
    decreases |ids|
  {
    if ids != [] {
      DistinctSplit(ids);
      if ids[0] in t.e2i {
        DeletePairKeepsInverse(t, ids[0]);
        DeleteExternalsContents(Tables(t.e2i - {ids[0]}, t.i2e - {t.e2i[ids[0]]}), ids[1..]);
      }
    }
  }

  /** A delete that throws has removed exactly the ids before the first one that is missing or was
      given before. */
  lemma {:induction false} DeletedSoFar(t: Tables, ids: seq<InternalId>) returns (k: nat)
    requires t.Inverse()
    ensures k <= |ids| && Distinct(ids[..k]) && Elements(ids[..k]) <= t.i2e.Keys
    ensures k < |ids| ==> ids[k] !in t.i2e || ids[k] in ids[..k]
    ensures DeleteInternals(t, ids).1 <==> k == |ids|
    ensures DeleteInternals(t, ids).0.i2e == t.i2e - Elements(ids[..k])
    decreases |ids|
  {
    if ids == [] || ids[0] !in t.i2e {
      return 0;
    }
    var u := Tables(t.e2i - {t.i2e[ids[0]]}, t.i2e - {ids[0]});
    DeletePairKeepsInverse(t, t.i2e[ids[0]]);
    hide Tables.Inverse, Distinct;
    var l := DeletedSoFar(u, ids[1..]);
    k := l + 1;
    DistinctSplit(ids[..k]);
    assert ids[..k][0] == ids[0] && ids[..k][1..] == ids[1..][..l];
    assert ids[..k] == [ids[0]] + ids[1..][..l];
  }

  lemma {:induction false} DeletedSoFarExternal(t: Tables, ids: seq<ExternalId>) returns (k: nat)
    requires t.Inverse()
    ensures k <= |ids| && Distinct(ids[..k]) && Elements(ids[..k]) <= t.e2i.Keys
    ensures k < |ids| ==> ids[k] !in t.e2i || ids[k] in ids[..k]
    ensures DeleteExternals(t, ids).1 <==> k == |ids|
    ensures DeleteExternals(t, ids).0.e2i == t.e2i - Elements(ids[..k])
    decreases |ids|
  {
    if ids == [] || ids[0] !in t.e2i {
      return 0;
    }
    var u := Tables(t.e2i - {ids[0]}, t.i2e - {t.e2i[ids[0]]});
    DeletePairKeepsInverse(t, ids[0]);
    hide Tables.Inverse, Distinct;
    var l := DeletedSoFarExternal(u, ids[1..]);
    k := l + 1;
    DistinctSplit(ids[..k]);
    assert ids[..k][0] == ids[0] && ids[..k][1..] == ids[1..][..l];
    assert ids[..k] == [ids[0]] + ids[1..][..l];
  }

  /** Whether or not it throws, a delete leaves the table as it was exactly when it has nothing to
      delete or misses the first id. */
  lemma DeleteInternalsUnchangedIff(t: Tables, ids: seq<InternalId>)
    requires t.Inverse()
    ensures DeleteInternals(t, ids).0 == t <==> ids == [] || ids[0] !in t.i2e
  {
    if ids != [] && ids[0] in t.i2e {
      DeletePairKeepsInverse(t, t.i2e[ids[0]]);
      DeleteInternalsContents(Tables(t.e2i - {t.i2e[ids[0]]}, t.i2e - {ids[0]}), ids[1..]);
    }
  }

  lemma DeleteExternalsUnchangedIff(t: Tables, ids: seq<ExternalId>)
    requires t.Inverse()
    ensures DeleteExternals(t, ids).0 == t <==> ids == [] || ids[0] !in t.e2i
  {
    if ids != [] && ids[0] in t.e2i {
      DeletePairKeepsInverse(t, ids[0]);
      DeleteExternalsContents(Tables(t.e2i - {ids[0]}, t.i2e - {t.e2i[ids[0]]}), ids[1..]);
    }
  }

  /** A delete with its check, and whether it ran to the end. */
  ghost function CheckedDeleteInternals(t: Tables, ids: seq<InternalId>): (Tables, bool) {
    if FirstId(ids, t.i2e.Keys, false) < |ids| then (t, false) else DeleteInternals(t, ids)
  }

  ghost function CheckedDeleteExternals(t: Tables, ids: seq<ExternalId>): (Tables, bool) {
    if FirstId(ids, t.e2i.Keys, false) < |ids| then (t, false) else DeleteExternals(t, ids)
  }

  /** A checked delete is all or nothing exactly when the ids are distinct, as the source asks of
      its callers, or one of them is missing. */
  lemma CheckedDeleteInternalsWholeIff(t: Tables, ids: seq<InternalId>)
    requires t.Inverse()
    ensures var (u, ok) := CheckedDeleteInternals(t, ids);
      ok || u == t <==> Distinct(ids) || !(Elements(ids) <= t.i2e.Keys)
  {
    DeleteInternalsContents(t, ids);
    DeleteInternalsUnchangedIff(t, ids);
  }

  lemma CheckedDeleteExternalsWholeIff(t: Tables, ids: seq<ExternalId>)
    requires t.Inverse()
    ensures var (u, ok) := CheckedDeleteExternals(t, ids);
      ok || u == t <==> Distinct(ids) || !(Elements(ids) <= t.e2i.Keys)
  {
    DeleteExternalsContents(t, ids);
    DeleteExternalsUnchangedIff(t, ids);
  }

  /** A repeated id passes the existence check, yet the call throws half way, with the
      first deletion done. */
  lemma RepeatedDeleteIsPartial()
    ensures var t := Tables(map[7 := 1], map[1 := 7]);
      && t.Inverse()
      && FirstId([1, 1], t.i2e.Keys, false) == 2
      && DeleteInternals(t, [1, 1]) == (EMPTY, false)
  {
    var t := Tables(map[7 := 1], map[1 := 7]);
    var u := Tables(t.e2i - {7}, t.i2e - {1});
    assert u == EMPTY;
    assert [1, 1][1..] == [1];
    assert DeleteInternals(u, [1]) == (u, false);
  }

  // ----- Whole runs

  datatype Operation =
    | InsertIds(external: seq<ExternalId>, internal: seq<InternalId>)
    | RemapId(from: InternalId, to: InternalId)
    | DeleteByInternal(internal: seq<InternalId>)
    | DeleteByExternal(external: seq<ExternalId>)

  /** The documented assumptions; inserts and deletes make their own checks. */
  predicate Assumed(t: Tables, op: Operation) {
    op.RemapId? ==> op.from in t.i2e && op.to !in t.i2e
  }

  /** One checked operation, as the methods above perform it. */
  ghost function Apply(t: Tables, op: Operation): Tables
    requires Assumed(t, op)
  {
    match op
    case InsertIds(ext, ins) => if InsertVerdict(t, ext, ins, true) == Done then InsertPairs(t, ext, ins) else t
    case RemapId(from, to) => RemapOne(t, from, to)
    case DeleteByInternal(ids) => CheckedDeleteInternals(t, ids).0
    case DeleteByExternal(ids) => CheckedDeleteExternals(t, ids).0
  }

  /** The states of a run: each follows from the one before by one operation. */
  ghost predicate IsRun(states: seq<Tables>, ops: seq<Operation>) {
    && |states| == |ops| + 1
    && states[0] == EMPTY
    && forall k :: 0 <= k < |ops| ==> Assumed(states[k], ops[k]) && states[k + 1] == Apply(states[k], ops[k])
  }

  /** After every run of checked operations the maps are inverse and of one size. */
  lemma {:induction false} RunKeepsInverse(states: seq<Tables>, ops: seq<Operation>, n: nat)
    requires IsRun(states, ops) && n < |states|
    ensures states[n].Inverse() && |states[n].e2i| == |states[n].i2e|
  {
    if n > 0 {
      RunKeepsInverse(states, ops, n - 1);
      OperationKeepsInverse(states[n - 1], ops[n - 1]);
    }
    SameSize(states[n]);
  }

  lemma OperationKeepsInverse(t: Tables, op: Operation)
    requires t.Inverse() && Assumed(t, op)
    ensures Apply(t, op).Inverse()
  {
    match op
    case InsertIds(ext, ins) =>
      ChecksPassIffFresh(t, ext, ins);
      if Fresh(t, ext, ins) {
        CheckedInsertContents(t, ext, ins);
      }
    case RemapId(from, to) => RemapContents(t, from, to);
    case DeleteByInternal(ids) => DeleteInternalsContents(t, ids);
    case DeleteByExternal(ids) => DeleteExternalsContents(t, ids);
  }

  /** Inverse maps have as many entries each: the mismatch exception of `size` cannot occur. */
  lemma {:induction false} SameSize(t: Tables)
    requires t.Inverse()
    ensures |t.e2i| == |t.i2e|
    decreases |t.e2i|
  {
    if t.e2i == map[] {
      assert t.i2e.Keys == {};
    } else {
      var e :| e in t.e2i;
      var u := Tables(t.e2i - {e}, t.i2e - {t.e2i[e]});
      assert u.e2i.Keys == t.e2i.Keys - {e} && u.i2e.Keys == t.i2e.Keys - {t.e2i[e]};
      SameSize(u);
    }
  }
}
