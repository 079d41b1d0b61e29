/** Saving and loading the translation table (include/svs/core/translation.h): a stream of
    12-byte records, one per external id, little-endian. Only the external-to-internal
    direction is written. */
module TranslationFile {
  import opened Common
  import opened Translation
  import opened Algorithms
  import opened Arithmetic

  datatype Error = EmptyFile

  const EXTERNAL_BYTES := 8
  const INTERNAL_BYTES := 4
  const RECORD_BYTES := 12

  function Pow256(width: nat): (p: nat)
    ensures p > 0
  {
    if width == 0 then 1 else 256 * Pow256(width - 1)
  }

  /** `write_binary` of an unsigned integer: least significant byte first. */
  function Encode(x: nat, width: nat): (bytes: seq<Byte>)
    ensures |bytes| == width
  {
    if width == 0 then [] else [x % 256] + Encode(x / 256, width - 1)
  }

  /** `read_binary` of an unsigned integer. The destination starts out zero and nothing
      checks the stream, so bytes past its end read as zero. */
  function Decode(bytes: seq<Byte>, width: nat): (x: nat)
    ensures x < Pow256(width)
  {
    if width == 0 then 0
    else if bytes == [] then Decode(bytes, width - 1)
    else bytes[0] + 256 * Decode(bytes[1..], width - 1)
  }

  function Skip(bytes: seq<Byte>, width: nat): seq<Byte> {
    if |bytes| < width then [] else bytes[width..]
  }

  lemma Widths()
    ensures Pow256(EXTERNAL_BYTES) == 0x1_0000_0000_0000_0000
    ensures Pow256(INTERNAL_BYTES) == 0x1_0000_0000
  {
    assert Pow256(2) == 0x1_0000;
    assert Pow256(4) == 0x1_0000_0000;
    assert Pow256(6) == 0x1_0000_0000_0000;
  }

  function ReadExternal(bytes: seq<Byte>): ExternalId {
    Widths();
    Decode(bytes, EXTERNAL_BYTES)
  }

  function ReadInternal(bytes: seq<Byte>): InternalId {
    Widths();
    Decode(bytes, INTERNAL_BYTES)
  }

  function Record(e: ExternalId, i: InternalId): (r: seq<Byte>)
    ensures |r| == RECORD_BYTES
  {
    Encode(e, EXTERNAL_BYTES) + Encode(i, INTERNAL_BYTES)
  }

  /** The file when the table is iterated in the given order. */
  function SavedBytes(order: seq<ExternalId>, e2i: map<ExternalId, InternalId>): (bytes: seq<Byte>)
    requires forall e :: e in order ==> e in e2i
    ensures |bytes| == RECORD_BYTES * |order|
  {
    if order == [] then []
    else
      var last := |order| - 1;
      SavedBytes(order[..last], e2i) + Record(order[last], e2i[order[last]])
  }

  function LoadedFrom(t: Tables, count: nat, bytes: seq<Byte>): Tables
    decreases count
  {
    if count == 0 then t
    else
      var rest := Skip(bytes, EXTERNAL_BYTES);
      LoadedFrom(InsertOne(t, ReadExternal(bytes), ReadInternal(rest)), count - 1, Skip(rest, INTERNAL_BYTES))
  }

  /** What `load` makes of a file: none of an empty one, which cannot be opened for reading. */
  function Loaded(count: nat, bytes: seq<Byte>): Option<Tables> {
    if bytes == [] then None else Some(LoadedFrom(EMPTY, count, bytes))
  }

  /** An iteration order visits every key exactly once. */
  ghost predicate Visits(order: seq<ExternalId>, e2i: map<ExternalId, InternalId>) {
    Distinct(order) && forall e :: e in order <==> e in e2i
  }

  /** `save`: the number of points for the table, and the file. The hash map is iterated in
      an order of its own. */
  method Save(t: IdTranslator) returns (numPoints: nat, bytes: seq<Byte>, ghost order: seq<ExternalId>)
    ensures Visits(order, t.externalToInternal)
    ensures numPoints == |t.externalToInternal|
    ensures bytes == SavedBytes(order, t.externalToInternal)
  {
    var table := t.externalToInternal;
    bytes, order := [], [];
    var remaining := table.Keys;
    while remaining != {}
      invariant remaining <= table.Keys
      invariant forall e :: e in order <==> e in table && e !in remaining
      invariant Distinct(order)
      invariant bytes == SavedBytes(order, table)
      decreases remaining
    {
      var e :| e in remaining;
      bytes := bytes + (Encode(e, EXTERNAL_BYTES) + Encode(table[e], INTERNAL_BYTES));
      ghost var longer := order + [e];
      assert longer[..|order|] == order;
      order := longer;
      remaining := remaining - {e};
    }
    return |table|, bytes, order;
  }

  /** `load`, for any count and any file. Opening an empty file throws. */
  method Load(numPoints: nat, bytes: seq<Byte>) returns (r: Result<IdTranslator, Error>)
    ensures r.Err? <==> bytes == []
    ensures r.Ok? ==> fresh(r.value) && r.value.State() == LoadedFrom(EMPTY, numPoints, bytes)
  {
    if bytes == [] {
      return Err(EmptyFile);
    }
    var t := ReadRecords(numPoints, bytes);
    return Ok(t);
  }

  method ReadRecords(numPoints: nat, bytes: seq<Byte>) returns (t: IdTranslator)
    ensures fresh(t) && t.State() == LoadedFrom(EMPTY, numPoints, bytes)
  {
    t := new IdTranslator();
    var stream := bytes;
    for i := 0 to numPoints
      invariant fresh(t)
      invariant LoadedFrom(t.State(), numPoints - i, stream) == LoadedFrom(EMPTY, numPoints, bytes)
    {
      var external := ReadExternal(stream);
      stream := Skip(stream, EXTERNAL_BYTES);
      var internal := ReadInternal(stream);
      stream := Skip(stream, INTERNAL_BYTES);
      t.InsertTranslation(external, internal);
    }
  }

  // ----- Round trip

  lemma {:induction false} DecodeEncode(x: nat, width: nat, tail: seq<Byte>)
    requires x < Pow256(width)
    ensures Decode(Encode(x, width) + tail, width) == x
    ensures Skip(Encode(x, width) + tail, width) == tail
  {
    if width > 0 {
      var rest := Encode(x / 256, width - 1);
      assert (Encode(x, width) + tail)[1..] == rest + tail;
      DecodeEncode(x / 256, width - 1, tail);
    }
  }

  lemma ReadRecord(e: ExternalId, i: InternalId, tail: seq<Byte>)
    ensures var bytes := Record(e, i) + tail;
      && ReadExternal(bytes) == e
      && ReadInternal(Skip(bytes, EXTERNAL_BYTES)) == i
      && Skip(Skip(bytes, EXTERNAL_BYTES), INTERNAL_BYTES) == tail
  {
    Widths();
    var rest := Encode(i, INTERNAL_BYTES) + tail;
    assert Record(e, i) + tail == Encode(e, EXTERNAL_BYTES) + rest;
    DecodeEncode(e, EXTERNAL_BYTES, rest);
    DecodeEncode(i, INTERNAL_BYTES, tail);
  }

  /** Byte `b` of an encoded integer counts multiples of 256 to the power of `b`. */
  lemma {:induction false} EncodedByte(x: nat, width: nat, b: nat)
    requires b < width
    ensures Encode(x, width)[b] == x / Pow256(b) % 256
  {
    if b > 0 {
      EncodedByte(x / 256, width - 1, b - 1);
      QuotientTwice(x, Pow256(b - 1));
    }
  }

  lemma QuotientTwice(x: nat, p: nat)
    requires p > 0
    ensures x / 256 / p == x / (256 * p)
  {
    var q, r := x / 256, x % 256;
    var d, s := q / p, q % p;
    assert x == 256 * q + r && q == d * p + s;
    assert x == d * (256 * p) + (256 * s + r);
    BatchStartIs(x, 256 * p, d);
    assert x == x / (256 * p) * (256 * p) + x % (256 * p);
    SameMultiple(x / (256 * p), d, 256 * p);
  }

  lemma SameMultiple(a: nat, b: nat, p: nat)
    requires p > 0 && a * p == b * p
    ensures a == b
  {
  }

  /** Record k of the file occupies the twelve bytes from 12 k on: eight of external id,
      then four of internal id. */
  lemma {:induction false} RecordLayout(order: seq<ExternalId>, e2i: map<ExternalId, InternalId>, k: nat)
    requires (forall e :: e in order ==> e in e2i) && k < |order|
    ensures SavedBytes(order, e2i)[12 * k..12 * k + 12] == Record(order[k], e2i[order[k]])
    decreases |order|
  {
    var last := |order| - 1;
    if k < last {
      RecordLayout(order[..last], e2i, k);
    }
  }

  /** Byte by byte, as an outside reader finds it: the external id and then the internal one,
      least significant byte first. */
  lemma RecordBytes(order: seq<ExternalId>, e2i: map<ExternalId, InternalId>, k: nat, b: nat)
    requires (forall e :: e in order ==> e in e2i) && k < |order| && b < 12
    ensures SavedBytes(order, e2i)[12 * k + b]
      == if b < 8 then order[k] / Pow256(b) % 256 else e2i[order[k]] / Pow256(b - 8) % 256
  {
    RecordLayout(order, e2i, k);
    assert SavedBytes(order, e2i)[12 * k + b] == SavedBytes(order, e2i)[12 * k..12 * k + 12][b];
    if b < 8 {
      EncodedByte(order[k], EXTERNAL_BYTES, b);
    } else {
      EncodedByte(e2i[order[k]], INTERNAL_BYTES, b - 8);
    }
  }

  function Images(order: seq<ExternalId>, e2i: map<ExternalId, InternalId>): (r: seq<InternalId>)
    requires forall e :: e in order ==> e in e2i
    ensures |r| == |order|
  {
    seq(|order|, k requires 0 <= k < |order| => e2i[order[k]])
  }

  /** Loading the records of `order` inserts their pairs in order and stops at the tail. */
  lemma {:induction false} LoadReplaysSave(
      t: Tables, order: seq<ExternalId>, e2i: map<ExternalId, InternalId>, more: nat, tail: seq<Byte>)
    requires forall e :: e in order ==> e in e2i
    ensures LoadedFrom(t, |order| + more, SavedBytes(order, e2i) + tail)
         == LoadedFrom(InsertPairs(t, order, Images(order, e2i)), more, tail)
    decreases |order|
  {
    if order == [] {
      assert [] + tail == tail;
    } else {
      var last := |order| - 1;
      var (e, i) := (order[last], e2i[order[last]]);
      LoadReplaysSave(t, order[..last], e2i, more + 1, Record(e, i) + tail);
      ReadRecord(e, i, tail);
      assert SavedBytes(order, e2i) + tail == SavedBytes(order[..last], e2i) + (Record(e, i) + tail);
      assert Images(order, e2i)[..last] == Images(order[..last], e2i);
    }
  }

  /** A table filled from nothing with all of `t`'s pairs is `t`. */
  lemma AllPairsAdded(t: Tables, order: seq<ExternalId>, u: Tables)
    requires t.Inverse() && u.Inverse() && Visits(order, t.e2i)
    requires Added(EMPTY, order, Images(order, t.e2i), u)
    ensures u == t
  {
    forall e | e in t.e2i ensures e in u.e2i && u.e2i[e] == t.e2i[e] {
      var k :| 0 <= k < |order| && order[k] == e;
    }
    assert u.e2i == t.e2i;
    SameForwardSameBackward(t, u);
  }

  /** Either map of an inverse pair determines the other. */
  lemma SameForwardSameBackward(t: Tables, u: Tables)
    requires t.Inverse() && u.Inverse() && u.e2i == t.e2i
    ensures u == t
  {
    forall i: InternalId ensures (i in t.i2e <==> i in u.i2e) && (i in t.i2e ==> u.i2e[i] == t.i2e[i]) {
      if i in t.i2e {
        assert u.e2i[t.i2e[i]] == i;
      }
      if i in u.i2e {
        assert t.e2i[u.i2e[i]] == i;
      }
    }
    assert u.i2e == t.i2e;
  }

  /** The internal ids of distinct external ids are distinct. */
  lemma ImagesFresh(t: Tables, order: seq<ExternalId>)
    requires t.Inverse() && Visits(order, t.e2i)
    ensures Fresh(EMPTY, order, Images(order, t.e2i))
  {
    var images := Images(order, t.e2i);
    forall i, j | 0 <= i < j < |order| ensures images[i] != images[j] {
      assert t.i2e[images[i]] == order[i] && t.i2e[images[j]] == order[j];
    }
  }

  lemma NothingToLoad(t: Tables, bytes: seq<Byte>)
    ensures LoadedFrom(t, 0, bytes) == t
  {
  }

  /** Whatever order the map is iterated in, the records saved rebuild both maps. */
  lemma RecordsRebuild(t: Tables, order: seq<ExternalId>)
    requires t.Inverse() && Visits(order, t.e2i)
    ensures LoadedFrom(EMPTY, |order|, SavedBytes(order, t.e2i)) == t
  {
    hide LoadedFrom, SavedBytes, InsertPairs, Added, Tables.Inverse;
    var images := Images(order, t.e2i);
    LoadReplaysSave(EMPTY, order, t.e2i, 0, []);
    NothingToLoad(InsertPairs(EMPTY, order, images), []);
    assert SavedBytes(order, t.e2i) + [] == SavedBytes(order, t.e2i);
    ImagesFresh(t, order);
    CheckedInsertContents(EMPTY, order, images);
    AllPairsAdded(t, order, InsertPairs(EMPTY, order, images));
  }

  /** Whatever order the map is iterated in, loading what was saved returns the table if and only
      if the table is not empty. */
  lemma LoadSavedRebuilds(t: Tables, order: seq<ExternalId>)
    requires t.Inverse() && Visits(order, t.e2i)
    ensures Loaded(|t.e2i|, SavedBytes(order, t.e2i)) == Some(t) <==> t.e2i != map[]
    ensures Loaded(|t.e2i|, SavedBytes(order, t.e2i)) == None <==> t.e2i == map[]
  {
    DistinctKeys(order, t.e2i.Keys);
    RecordsRebuild(t, order);
    if order == [] {
      assert t.e2i.Keys == {};
    }
  }

  /** The empty table is saved as an empty file, which does not load. */
  lemma EmptyTableIsNotLoaded()
    ensures EMPTY.Inverse() && Visits([], EMPTY.e2i)
    ensures SavedBytes([], EMPTY.e2i) == [] && Loaded(0, []) == None
  {
  }

  lemma {:induction false} DistinctKeys(order: seq<ExternalId>, keys: set<ExternalId>)
    requires forall e :: e in order <==> e in keys
    requires Distinct(order)
    ensures |order| == |keys|
  {
    if order == [] {
      assert keys == {};
    } else {
      var last := |order| - 1;
      assert order == order[..last] + [order[last]];
      DistinctKeys(order[..last], keys - {order[last]});
    }
  }
}
