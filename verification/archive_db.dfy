/**
 * The archive itself: two keyed tables, `datasets` (one row per table id:
 * the compressed compact document, its timestamp and its dimension map) and
 * `registry` (one compressed entry per fingerprint), written in one
 * transaction per batch and read back row by row.
 *
 * The functions first say what a batch write and a read compute from the
 * tables; the class `JSONStatArchiveDB` then does it step by step and is
 * proved to compute exactly that.
 */
module ArchiveDb {
  import opened Wrappers
  import opened Json
  import opened Dimension
  import opened Codec
  import opened Compaction
  import opened CompactionFacts
  import TextOrder

  /** A row of the `datasets` table; `dim_map_json` is kept as the map it encodes. */
  datatype DatasetRow = DatasetRow(jsonZst: Bytes, timestamp: Option<string>, dimMap: map<string, string>)

  /** The contents of both tables. */
  datatype Tables = Tables(datasets: map<string, DatasetRow>, registry: map<string, Bytes>)

  /** One value of the `tables` argument of `write`: the document and its optional timestamp. */
  datatype Payload = Payload(data: Json, timestamp: Option<string>)

  /** What `read` yields for one table. */
  datatype Row = Row(tableId: string, doc: Json, timestamp: Option<string>)

  // ---------- writing ----------

  /**
   * `_upsert_registry` for each staged entry in turn: a fingerprint already
   * present keeps its row, a new one gets the first entry staged for it.
   */
  function UpsertAll(encode: Json -> Bytes, registry: map<string, Bytes>, staged: Fields): (r: map<string, Bytes>)
    ensures forall fp :: fp in r <==> fp in registry || Get(staged, fp).Some?
    ensures forall fp :: fp in r ==> r[fp] == if fp in registry then registry[fp] else encode(Get(staged, fp).value)
    decreases |staged|
  {
    if staged == [] then registry
    else
      var fp, entry := staged[0].0, staged[0].1;
      UpsertAll(encode, if fp in registry then registry else registry[fp := encode(entry)], staged[1..])
  }

  /**
   * One item of the batch: compact, upsert the registry entries, upsert the
   * dataset row.  It fails exactly when compaction raises; otherwise the row
   * of `tableId` is replaced and every registry row already there is kept.
   */
  function WriteOne(digest: CJson -> string, encode: Json -> Bytes, t: Tables, tableId: string, p: Payload): (r: Result<Tables, Error>)
    ensures r.Ok? <==> Compact(digest, p.data).Ok?
    ensures r.Ok? ==> var c := Compact(digest, p.data).value;
      r.value.datasets == t.datasets[tableId := DatasetRow(encode(c.doc), p.timestamp, c.dimMap)]
    ensures r.Ok? ==> forall fp :: fp in t.registry ==> fp in r.value.registry && r.value.registry[fp] == t.registry[fp]
  {
    var c :- Compact(digest, p.data);
    Ok(Tables(t.datasets[tableId := DatasetRow(encode(c.doc), p.timestamp, c.dimMap)],
              UpsertAll(encode, t.registry, c.staged)))
  }

  /**
   * The whole batch, in order; the first error abandons it.  The registry
   * only grows: no row present before the batch is removed or replaced.
   */
  function WriteAll(digest: CJson -> string, encode: Json -> Bytes, t: Tables, batch: seq<(string, Payload)>): (r: Result<Tables, Error>)
    ensures r.Ok? ==> forall fp :: fp in t.registry ==> fp in r.value.registry && r.value.registry[fp] == t.registry[fp]
    decreases |batch|
  {
    if batch == [] then Ok(t)
    else
      var t' :- WriteOne(digest, encode, t, batch[0].0, batch[0].1);
      WriteAll(digest, encode, t', batch[1..])
  }

  // ---------- reading ----------

  /** The table ids a read visits: the one asked for, or all of them in ascending order. */
  ghost function Selected(t: Tables, tableId: Option<string>): (r: seq<string>)
    ensures forall i :: 0 <= i < |r| ==> r[i] in t.datasets
  {
    if tableId.Some? && tableId.value != "" then
      (if tableId.value in t.datasets then [tableId.value] else [])
    else
      TextOrder.SortedKeys(t.datasets.Keys)
  }

  /**
   * The document read for one table id: the decoded row, rehydrated when
   * labels are asked for and it is a dataset, which it then stays, with its
   * other top-level keys as stored.  Asking whether a decoded value that is
   * not a dict is a dataset raises.
   */
  function ReadDoc(decode: Bytes -> Option<Json>, t: Tables, tableId: string, withLabels: bool): (r: Result<Json, Error>)
    requires tableId in t.datasets
    ensures var ds := decode(t.datasets[tableId].jsonZst);
      && (ds.None? ==> r == Err(DecodeError))
      && (ds.Some? && !withLabels ==> r == Ok(ds.value))
      && (ds.Some? && withLabels && !ds.value.Obj? ==> r == Err(AttributeError))
      && (ds.Some? && withLabels && LooksLikeDataset(ds.value) == Ok(false) ==> r == Ok(ds.value))
      && (ds.Some? && withLabels && LooksLikeDataset(ds.value) == Ok(true) && r.Ok? ==>
            && LooksLikeDataset(r.value) == Ok(true)
            && forall k :: k != "dimension" ==> Get(r.value.fields, k) == Get(ds.value.fields, k))
  {
    var row := t.datasets[tableId];
    match decode(row.jsonZst)
    case None => Err(DecodeError)
    case Some(ds) =>
      if !withLabels then Ok(ds)
      else
        var isDataset :- LooksLikeDataset(ds);
        if isDataset then Rehydrate(t.registry, decode, ds, row.dimMap) else Ok(ds)
  }

  /**
   * The rows read for `ids`: one row per id, in order, each the document
   * `ReadDoc` reads with the stored timestamp, up to the first id that
   * raises; and that error, if there was one.
   */
  function ReadRows(decode: Bytes -> Option<Json>, t: Tables, ids: seq<string>, withLabels: bool): (r: (seq<Row>, Option<Error>))
    requires forall i :: 0 <= i < |ids| ==> ids[i] in t.datasets
    ensures |r.0| <= |ids|
    ensures forall i :: 0 <= i < |r.0| ==>
      ReadDoc(decode, t, ids[i], withLabels).Ok? &&
      r.0[i] == Row(ids[i], ReadDoc(decode, t, ids[i], withLabels).value, t.datasets[ids[i]].timestamp)
    ensures r.1.None? <==> |r.0| == |ids|
    ensures r.1.Some? ==> ReadDoc(decode, t, ids[|r.0|], withLabels) == Err(r.1.value)
    decreases |ids|
  {
    if ids == [] then ([], None)
    else
      match ReadDoc(decode, t, ids[0], withLabels)
      case Err(e) => ([], Some(e))
      case Ok(doc) =>
        var rest := ReadRows(decode, t, ids[1..], withLabels);
        ([Row(ids[0], doc, t.datasets[ids[0]].timestamp)] + rest.0, rest.1)
  }

  // ---------- the store ----------

  /** Every fingerprint a stored dataset refers to has a registry row. */
  ghost predicate RefsResolve(t: Tables) {
    forall id, name :: id in t.datasets && name in t.datasets[id].dimMap ==> t.datasets[id].dimMap[name] in t.registry
  }

  class JSONStatArchiveDB {
    var datasets: map<string, DatasetRow>
    var registry: map<string, Bytes>
    /** SHA-1 of the sorted-key JSON text of a canonical value, as hex. */
    const digest: CJson -> string
    /** `_zstd_compress_bytes(_to_json_bytes(x), level)`, for the store's compression level. */
    const encode: Json -> Bytes
    /** `_from_json_bytes(_zstd_decompress_bytes(b))`; `None` where that raises. */
    const decode: Bytes -> Option<Json>

    function Snapshot(): Tables
      reads this
    {
      Tables(datasets, registry)
    }

    ghost predicate Valid()
      reads this
    {
      RefsResolve(Snapshot())
    }

    /** An empty archive. */
    constructor(digest: CJson -> string, encode: Json -> Bytes, decode: Bytes -> Option<Json>)
      ensures Valid()
      ensures this.digest == digest && this.encode == encode && this.decode == decode
      ensures datasets == map[] && registry == map[]
    {
      this.digest := digest;
      this.encode := encode;
      this.decode := decode;
      datasets := map[];
      registry := map[];
    }

    /** `_upsert_registry`: insert only when the fingerprint is absent. */
    method UpsertRegistry(fp: string, entry: Json)
      modifies this
      ensures datasets == old(datasets)
      ensures registry == if fp in old(registry) then old(registry) else old(registry)[fp := encode(entry)]
    {
      if fp !in registry {
        registry := registry[fp := encode(entry)];
      }
    }

    /** `_compact_and_registry`, one dimension id at a time. */
    method CompactAndRegistry(ds: Json) returns (r: Result<Compacted, Error>)
      ensures r == Compact(digest, ds)
    {
      var isDataset := LooksLikeDataset(ds);
      if isDataset.Err? {
        return Err(isDataset.error);
      }
      if !isDataset.value {
        return Ok(Compacted(ds, map[], []));
      }
      var dims := DimensionsOf(ds);
      var dimIds := DimIds(dims);
      if dimIds.Err? {
        return Err(dimIds.error);
      }
      var ids := dimIds.value;
      var p0 := Progress(dims, map[], []);
      var cDims, dimMap, staged := dims, map[], [];
      var i := 0;
      while i < |ids|
        invariant 0 <= i <= |ids|
        invariant CompactLoop(digest, dims, ids, p0) == CompactLoop(digest, dims, ids[i..], Progress(cDims, dimMap, staged))
      {
        assert ids[i..][0] == ids[i] && ids[i..][1..] == ids[i + 1..];
        var id := ids[i];
        if id.Arr? || id.Obj? {
          return Err(TypeError);
        }
        if !id.Str? {
          return Err(NonStringDimensionId);
        }
        var def := Describe(dims, id.s);
        if def.Err? {
          return Err(def.error);
        }
        var fp := Fingerprint(digest, id.s, def.value.index, def.value.labels);
        dimMap := dimMap[id.s := fp];
        if Get(staged, fp).None? {
          staged := staged + [(fp, RegistryEntry(id.s, def.value))];
        }
        var stripped := StripDimension(cDims, id.s, def.value.index);
        if stripped.Err? {
          return Err(stripped.error);
        }
        cDims := stripped.value;
        i := i + 1;
      }
      return Ok(Compacted(Obj(Set(ds.fields, "dimension", Obj(cDims))), dimMap, staged));
    }

    /** `_rehydrate`, one dimension id at a time, against the registry. */
    method Rehydrate(ds: Json, dimMap: map<string, string>) returns (r: Result<Json, Error>)
      requires LooksLikeDataset(ds) == Ok(true)
      ensures r == Compaction.Rehydrate(registry, decode, ds, dimMap)
    {
      var dims0 := DimensionsOf(ds);
      var dimIds := DimIds(dims0);
      if dimIds.Err? {
        return Err(dimIds.error);
      }
      var ids := dimIds.value;
      var dims := dims0;
      var i := 0;
      while i < |ids|
        invariant 0 <= i <= |ids|
        invariant RehydrateLoop(registry, decode, dimMap, dims0, ids) == RehydrateLoop(registry, decode, dimMap, dims, ids[i..])
      {
        assert ids[i..][0] == ids[i] && ids[i..][1..] == ids[i + 1..];
        var id := ids[i];
        if id.Arr? || id.Obj? {
          return Err(TypeError);
        }
        if id.Str? && id.s in dimMap && dimMap[id.s] != "" && dimMap[id.s] in registry {
          var reg := decode(registry[dimMap[id.s]]);
          if reg.None? {
            return Err(DecodeError);
          }
          if !reg.value.Obj? {
            return Err(AttributeError);
          }
          var d := ReattachDim(GetOr(dims, id.s, Obj([])), reg.value.fields);
          if d.Err? {
            return Err(d.error);
          }
          dims := Set(dims, id.s, d.value);
        }
        i := i + 1;
      }
      return Ok(Obj(Set(ds.fields, "dimension", Obj(dims))));
    }

    /** `write`: the whole batch in one transaction; on an error nothing is changed. */
    method Write(tables: seq<(string, Payload)>) returns (r: Result<(), Error>)
      requires Valid()
      modifies this
      ensures Valid()
      ensures var expected := WriteAll(digest, encode, old(Snapshot()), tables);
        if expected.Ok? then r.Ok? && Snapshot() == expected.value
        else r == Err(expected.error) && Snapshot() == old(Snapshot())
    {
      var savedDatasets, savedRegistry := datasets, registry;
      var i := 0;
      while i < |tables|
        invariant 0 <= i <= |tables|
        invariant savedDatasets == old(datasets) && savedRegistry == old(registry)
        invariant RefsResolve(Snapshot())
        invariant WriteAll(digest, encode, old(Snapshot()), tables) == WriteAll(digest, encode, Snapshot(), tables[i..])
      {
        assert tables[i..][0] == tables[i] && tables[i..][1..] == tables[i + 1..];
        var tableId, payload := tables[i].0, tables[i].1;
        var c := CompactAndRegistry(payload.data);
        if c.Err? {
          datasets, registry := savedDatasets, savedRegistry;
          return Err(c.error);
        }
        ghost var before := Snapshot();
        var staged := c.value.staged;
        var j := 0;
        while j < |staged|
          invariant 0 <= j <= |staged|
          invariant datasets == before.datasets
          invariant UpsertAll(encode, before.registry, staged) == UpsertAll(encode, registry, staged[j..])
        {
          assert staged[j..][0] == staged[j] && staged[j..][1..] == staged[j + 1..];
          UpsertRegistry(staged[j].0, staged[j].1);
          j := j + 1;
        }
        datasets := datasets[tableId := DatasetRow(encode(c.value.doc), payload.timestamp, c.value.dimMap)];
        WriteOneRefs(digest, encode, before, tableId, payload);
        i := i + 1;
      }
      return Ok(());
    }

    /** The body of `read`'s loop for one row: decode, and rehydrate a dataset when labels are asked for. */
    method ReadOne(tableId: string, withLabels: bool) returns (r: Result<Json, Error>)
      requires tableId in datasets
      ensures r == ReadDoc(decode, Snapshot(), tableId, withLabels)
    {
      var row := datasets[tableId];
      var ds := decode(row.jsonZst);
      if ds.None? {
        return Err(DecodeError);
      }
      if !withLabels {
        return Ok(ds.value);
      }
      var isDataset := LooksLikeDataset(ds.value);
      if isDataset.Err? {
        return Err(isDataset.error);
      }
      if !isDataset.value {
        return Ok(ds.value);
      }
      r := Rehydrate(ds.value, row.dimMap);
    }

    /** The table ids `read` queries: `WHERE table_id = ?` for a non-empty id, else every id, `ORDER BY table_id`. */
    method SelectIds(tableId: Option<string>) returns (ids: seq<string>)
      ensures ids == Selected(Snapshot(), tableId)
    {
      if tableId.Some? && tableId.value != "" {
        ids := if tableId.value in datasets then [tableId.value] else [];
      } else {
        ids := SortedIds(datasets.Keys);
      }
    }

    /** `read`: the rows asked for, up to the first error (which ends the iteration), and that error. */
    method Read(tableId: Option<string>, withLabels: bool) returns (rows: seq<Row>, failure: Option<Error>)
      ensures (rows, failure) == ReadRows(decode, Snapshot(), Selected(Snapshot(), tableId), withLabels)
    {
      ghost var t := Snapshot();
      var ids := SelectIds(tableId);
      rows, failure := [], None;
      ReadRowsStart(decode, t, ids, withLabels);
      var i := 0;
      while i < |ids|
        invariant 0 <= i <= |ids|
        invariant ReadRows(decode, t, ids, withLabels) == ReadRowsAfter(decode, t, ids, i, rows, withLabels)
      {
        ReadRowsStep(decode, t, ids, i, rows, withLabels);
        var doc := ReadOne(ids[i], withLabels);
        if doc.Err? {
          failure := Some(doc.error);
          return;
        }
        rows := rows + [Row(ids[i], doc.value, datasets[ids[i]].timestamp)];
        i := i + 1;
      }
      assert ids[i..] == [] && rows + [] == rows;
    }
  }

  /** The result of a read that has produced `rows` from `ids[..i]` and still has `ids[i..]` to go. */
  function ReadRowsAfter(decode: Bytes -> Option<Json>, t: Tables, ids: seq<string>, i: nat, rows: seq<Row>, withLabels: bool): (seq<Row>, Option<Error>)
    requires i <= |ids|
    requires forall k :: 0 <= k < |ids| ==> ids[k] in t.datasets
  {
    var rest := ReadRows(decode, t, ids[i..], withLabels);
    (rows + rest.0, rest.1)
  }

  lemma ReadRowsStep(decode: Bytes -> Option<Json>, t: Tables, ids: seq<string>, i: nat, rows: seq<Row>, withLabels: bool)
    requires i < |ids|
    requires forall k :: 0 <= k < |ids| ==> ids[k] in t.datasets
    ensures ReadRowsAfter(decode, t, ids, i, rows, withLabels) ==
      match ReadDoc(decode, t, ids[i], withLabels)
      case Err(e) => (rows, Some(e))
      case Ok(doc) => ReadRowsAfter(decode, t, ids, i + 1, rows + [Row(ids[i], doc, t.datasets[ids[i]].timestamp)], withLabels)
  {
    assert ids[i..][0] == ids[i] && ids[i..][1..] == ids[i + 1..];
    var rest := ReadRows(decode, t, ids[i + 1..], withLabels);
    match ReadDoc(decode, t, ids[i], withLabels)
    case Err(e) =>
      assert rows + [] == rows;
    case Ok(doc) =>
      assert rows + ([Row(ids[i], doc, t.datasets[ids[i]].timestamp)] + rest.0)
        == (rows + [Row(ids[i], doc, t.datasets[ids[i]].timestamp)]) + rest.0;
  }

  /** Nothing left to read: the rows produced so far. */
  lemma ReadRowsStart(decode: Bytes -> Option<Json>, t: Tables, ids: seq<string>, withLabels: bool)
    requires forall k :: 0 <= k < |ids| ==> ids[k] in t.datasets
    ensures ReadRowsAfter(decode, t, ids, 0, [], withLabels) == ReadRows(decode, t, ids, withLabels)
  {
    assert ids[0..] == ids;
    assert [] + ReadRows(decode, t, ids, withLabels).0 == ReadRows(decode, t, ids, withLabels).0;
  }

  /** `ORDER BY table_id`: the ids in ascending order. */
  method SortedIds(keys: set<string>) returns (ids: seq<string>)
    ensures ids == TextOrder.SortedKeys(keys)
  {
    ids := [];
    var rest := keys;
    while rest != {}
      invariant TextOrder.Ascending(ids)
      invariant forall x :: x in ids <==> x in keys && x !in rest
      invariant rest <= keys
      decreases |rest|
    {
      var x :| x in rest;
      ids := TextOrder.InsertAscending(x, ids);
      rest := rest - {x};
    }
    TextOrder.AscendingUnique(ids, TextOrder.SortedKeys(keys));
  }

  // ---------- properties ----------

  /** Writing one table keeps every reference resolvable. */
  lemma WriteOneRefs(digest: CJson -> string, encode: Json -> Bytes, t: Tables, tableId: string, p: Payload)
    requires RefsResolve(t)
    requires WriteOne(digest, encode, t, tableId, p).Ok?
    ensures RefsResolve(WriteOne(digest, encode, t, tableId, p).value)
  {
    var c := Compact(digest, p.data).value;
    var t' := WriteOne(digest, encode, t, tableId, p).value;
    if LooksLikeDataset(p.data) == Ok(true) {
      CompactDataset(digest, p.data);
      forall name | name in c.dimMap ensures c.dimMap[name] in t'.registry {
        var fp := c.dimMap[name];
        StagedExactly(digest, p.data, fp);
      }
    }
  }
}
