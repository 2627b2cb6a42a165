/**
 * What a write promises and what a later read gives back: the registry only
 * grows and never changes a stored entry, a batch is all or nothing, every
 * table written holds its last payload's compact document, rows that were
 * not written read as before, and a dataset reads back as it was written, up
 * to key order, once its labels are reattached.
 */
module ArchiveFacts {
  import opened Wrappers
  import opened Json
  import opened Dimension
  import opened Codec
  import opened Compaction
  import opened CompactionFacts
  import opened ArchiveDb

  // ---------- writing ----------

  /**
   * A batch fails exactly when one of its documents cannot be compacted,
   * and then with the error of the first such document.
   */
  lemma {:induction false} WriteAllFails(digest: CJson -> string, encode: Json -> Bytes, t: Tables, batch: seq<(string, Payload)>)
    ensures WriteAll(digest, encode, t, batch).Err? <==>
      exists i :: 0 <= i < |batch| && Compact(digest, batch[i].1.data).Err?
    ensures WriteAll(digest, encode, t, batch).Err? ==>
      exists i :: 0 <= i < |batch| && Compact(digest, batch[i].1.data) == Err(WriteAll(digest, encode, t, batch).error) &&
        forall j :: 0 <= j < i ==> Compact(digest, batch[j].1.data).Ok?
    decreases |batch|
  {
    if batch != [] {
      var w := WriteOne(digest, encode, t, batch[0].0, batch[0].1);
      if w.Ok? {
        WriteAllFails(digest, encode, w.value, batch[1..]);
        if exists i :: 0 <= i < |batch| && Compact(digest, batch[i].1.data).Err? {
          var i :| 0 <= i < |batch| && Compact(digest, batch[i].1.data).Err?;
          assert batch[1..][i - 1] == batch[i];
        }
        if WriteAll(digest, encode, t, batch).Err? {
          var i :| 0 <= i < |batch[1..]| && Compact(digest, batch[1..][i].1.data) == Err(WriteAll(digest, encode, t, batch).error) &&
            forall j :: 0 <= j < i ==> Compact(digest, batch[1..][j].1.data).Ok?;
          forall j | 0 <= j < i + 1 ensures Compact(digest, batch[j].1.data).Ok? {
            if j > 0 {
              assert batch[1..][j - 1] == batch[j];
            }
          }
          assert batch[1..][i] == batch[i + 1];
        }
      }
    }
  }

  /**
   * After a batch the archive holds the tables it held before and the ones
   * written; a table the batch does not name keeps its row.
   */
  lemma {:induction false} UnwrittenRowsUnchanged(digest: CJson -> string, encode: Json -> Bytes, t: Tables, batch: seq<(string, Payload)>, id: string)
    requires WriteAll(digest, encode, t, batch).Ok?
    ensures var r := WriteAll(digest, encode, t, batch).value;
      id in r.datasets <==> id in t.datasets || exists i :: 0 <= i < |batch| && batch[i].0 == id
    ensures var r := WriteAll(digest, encode, t, batch).value;
      (forall i :: 0 <= i < |batch| ==> batch[i].0 != id) && id in t.datasets ==> r.datasets[id] == t.datasets[id]
    decreases |batch|
  {
    if batch != [] {
      var t1 := WriteOne(digest, encode, t, batch[0].0, batch[0].1).value;
      UnwrittenRowsUnchanged(digest, encode, t1, batch[1..], id);
      if exists i :: 0 <= i < |batch| && batch[i].0 == id {
        var i :| 0 <= i < |batch| && batch[i].0 == id;
        if i > 0 {
          assert batch[1..][i - 1].0 == id;
        }
      }
      if exists i :: 0 <= i < |batch[1..]| && batch[1..][i].0 == id {
        var i :| 0 <= i < |batch[1..]| && batch[1..][i].0 == id;
        assert batch[i + 1].0 == id;
      }
    }
  }

  /** The row of a table is the one its last occurrence in the batch wrote (an upsert). */
  lemma {:induction false} LastWriteWins(digest: CJson -> string, encode: Json -> Bytes, t: Tables, batch: seq<(string, Payload)>, i: nat)
    requires WriteAll(digest, encode, t, batch).Ok?
    requires i < |batch|
    requires forall j :: i < j < |batch| ==> batch[j].0 != batch[i].0
    ensures Compact(digest, batch[i].1.data).Ok?
    ensures var r, c := WriteAll(digest, encode, t, batch).value, Compact(digest, batch[i].1.data).value;
      batch[i].0 in r.datasets && r.datasets[batch[i].0] == DatasetRow(encode(c.doc), batch[i].1.timestamp, c.dimMap)
    decreases |batch|
  {
    var t1 := WriteOne(digest, encode, t, batch[0].0, batch[0].1).value;
    if i == 0 {
      forall j | 0 <= j < |batch[1..]| ensures batch[1..][j].0 != batch[0].0 {
        assert batch[1..][j] == batch[j + 1];
      }
      UnwrittenRowsUnchanged(digest, encode, t1, batch[1..], batch[0].0);
    } else {
      forall j | i - 1 < j < |batch[1..]| ensures batch[1..][j].0 != batch[1..][i - 1].0 {
        assert batch[1..][j] == batch[j + 1];
      }
      LastWriteWins(digest, encode, t1, batch[1..], i - 1);
      assert batch[1..][i - 1] == batch[i];
    }
  }

  // ---------- reading ----------

  /** Rehydration only looks at the registry entries the dimension map names. */
  lemma {:induction false} RehydrateLoopAgree(r1: map<string, Bytes>, r2: map<string, Bytes>, decode: Bytes -> Option<Json>,
                                              dimMap: map<string, string>, dims: Fields, ids: seq<Json>)
    requires forall n :: n in dimMap ==> dimMap[n] in r1 && dimMap[n] in r2 && r2[dimMap[n]] == r1[dimMap[n]]
    ensures RehydrateLoop(r1, decode, dimMap, dims, ids) == RehydrateLoop(r2, decode, dimMap, dims, ids)
    decreases |ids|
  {
    if ids != [] {
      var s := RehydrateStep(r1, decode, dimMap, dims, ids[0]);
      assert s == RehydrateStep(r2, decode, dimMap, dims, ids[0]);
      if s.Ok? {
        RehydrateLoopAgree(r1, r2, decode, dimMap, s.value, ids[1..]);
      }
    }
  }

  /**
   * A table that later writes do not name reads back exactly as before,
   * labels included: its row is untouched and the registry entries it refers
   * to are never replaced.
   */
  lemma ReadAfterLaterWrites(digest: CJson -> string, encode: Json -> Bytes, decode: Bytes -> Option<Json>,
                             t: Tables, batch: seq<(string, Payload)>, id: string, withLabels: bool)
    requires RefsResolve(t)
    requires WriteAll(digest, encode, t, batch).Ok?
    requires id in t.datasets
    requires forall i :: 0 <= i < |batch| ==> batch[i].0 != id
    ensures id in WriteAll(digest, encode, t, batch).value.datasets
    ensures ReadDoc(decode, WriteAll(digest, encode, t, batch).value, id, withLabels) == ReadDoc(decode, t, id, withLabels)
  {
    var r := WriteAll(digest, encode, t, batch).value;
    UnwrittenRowsUnchanged(digest, encode, t, batch, id);
    var row := t.datasets[id];
    match decode(row.jsonZst)
    case None =>
    case Some(ds) =>
      if withLabels && LooksLikeDataset(ds) == Ok(true) {
        var dims := DimensionsOf(ds);
        if DimIds(dims).Ok? {
          RehydrateLoopAgree(t.registry, r.registry, decode, row.dimMap, dims, DimIds(dims).value);
        }
      }
  }

  /** With labels off, a table reads back as the compact document that was stored. */
  lemma ReadWithoutLabels(digest: CJson -> string, encode: Json -> Bytes, decode: Bytes -> Option<Json>,
                          t: Tables, tableId: string, p: Payload)
    requires WriteOne(digest, encode, t, tableId, p).Ok?
    requires Decodes(encode, decode, Compact(digest, p.data).value.doc)
    ensures var r := WriteOne(digest, encode, t, tableId, p).value;
      tableId in r.datasets && ReadDoc(decode, r, tableId, false) == Ok(Compact(digest, p.data).value.doc)
  {
  }

  /** A document that is not a dataset is stored as it is and reads back unchanged, with or without labels. */
  lemma NonDatasetRoundTrip(digest: CJson -> string, encode: Json -> Bytes, decode: Bytes -> Option<Json>,
                            t: Tables, tableId: string, p: Payload, withLabels: bool)
    requires LooksLikeDataset(p.data) == Ok(false)
    requires Decodes(encode, decode, p.data)
    ensures WriteOne(digest, encode, t, tableId, p).Ok?
    ensures var r := WriteOne(digest, encode, t, tableId, p).value;
      && r.registry == t.registry
      && tableId in r.datasets && r.datasets[tableId].dimMap == map[]
      && ReadDoc(decode, r, tableId, withLabels) == Ok(p.data)
  {
    CompactNotDataset(digest, p.data);
  }

  /**
   * Writing a dataset and reading it back with labels gives the dataset
   * again, up to key order.  What is assumed of the hash and the codec is
   * assumed of this dataset only: SHA-1 has no collision among the payloads
   * of its dimensions, and its compact document and registry entries decode
   * back.  The registry must hold no conflicting entry for its dimensions: a
   * fingerprint already registered must hold what this dataset would have
   * registered, since the first registration wins.
   */
  lemma WriteReadRoundTrip(digest: CJson -> string, encode: Json -> Bytes, decode: Bytes -> Option<Json>,
                           t: Tables, tableId: string, p: Payload)
    requires LooksLikeDataset(p.data) == Ok(true)
    requires WriteOne(digest, encode, t, tableId, p).Ok?
    requires Decodes(encode, decode, Compact(digest, p.data).value.doc)
    requires var names, dims := VisitedNames(p.data), DimensionsOf(p.data);
      && NoCollision(digest, dims, names)
      && (forall k :: k in names ==> Decodes(encode, decode, EntryOf(dims, k)))
      && "id" !in names
      && (forall i, j :: 0 <= i < j < |names| ==> names[i] != names[j])
      && (forall k :: k in names ==> Restorable(dims, k))
      && (forall k :: k in names && FpOf(digest, dims, k) in t.registry ==>
            decode(t.registry[FpOf(digest, dims, k)]) == Some(EntryOf(dims, k)))
    ensures var r := WriteOne(digest, encode, t, tableId, p).value;
      && tableId in r.datasets
      && ReadDoc(decode, r, tableId, true).Ok?
      && Canon(ReadDoc(decode, r, tableId, true).value) == Canon(p.data)
  {
    var ds := p.data;
    var c := Compact(digest, ds).value;
    var r := WriteOne(digest, encode, t, tableId, p).value;
    var names, dims := VisitedNames(ds), DimensionsOf(ds);
    CompactDataset(digest, ds);
    forall k | k in names
      ensures var fp := FpOf(digest, dims, k);
        fp != "" && fp in r.registry && decode(r.registry[fp]) == Some(EntryOf(dims, k))
    {
      var i :| 0 <= i < |names| && names[i] == k;
      forall j | 0 <= j < i ensures FpOf(digest, dims, names[j]) != FpOf(digest, dims, names[i]) {
        DistinctFingerprints(digest, dims, names, names[j], names[i]);
      }
      DistinctFingerprints(digest, dims, names, k, k);
      RegisteredAfterWrite(digest, encode, decode, t, tableId, p, i);
    }
    RoundTrip(digest, r.registry, decode, ds);
  }

  /**
   * After a write, the registry holds under the fingerprint of a visited
   * dimension that dimension's own entry, when it is the first dimension of
   * the dataset with that fingerprint and no earlier row conflicts.
   */
  lemma RegisteredAfterWrite(digest: CJson -> string, encode: Json -> Bytes, decode: Bytes -> Option<Json>,
                             t: Tables, tableId: string, p: Payload, i: nat)
    requires LooksLikeDataset(p.data) == Ok(true)
    requires WriteOne(digest, encode, t, tableId, p).Ok?
    requires i < |VisitedNames(p.data)|
    requires var names, dims := VisitedNames(p.data), DimensionsOf(p.data);
      && Decodes(encode, decode, EntryOf(dims, names[i]))
      && (forall j :: 0 <= j < i ==> FpOf(digest, dims, names[j]) != FpOf(digest, dims, names[i]))
      && (FpOf(digest, dims, names[i]) in t.registry ==>
            decode(t.registry[FpOf(digest, dims, names[i])]) == Some(EntryOf(dims, names[i])))
    ensures var r, names, dims := WriteOne(digest, encode, t, tableId, p).value, VisitedNames(p.data), DimensionsOf(p.data);
      var fp := FpOf(digest, dims, names[i]);
      fp in r.registry && decode(r.registry[fp]) == Some(EntryOf(dims, names[i]))
  {
    CompactDataset(digest, p.data);
    StagedFirstWins(digest, p.data, i);
  }

  /**
   * The first title registered for a definition is the one later datasets
   * read back.  Table A is written, then table B, in one batch; dimension `k`
   * of B has the fingerprint that `k` of A registered (the title is not
   * hashed, so the two may differ in title only).  Reading B with labels then
   * gives `k` the title A gave it, whatever title B was written with.
   */
  lemma FirstTitleWins(digest: CJson -> string, encode: Json -> Bytes, decode: Bytes -> Option<Json>,
                       t: Tables, idA: string, pA: Payload, idB: string, pB: Payload, i: nat, k: string)
    requires LooksLikeDataset(pA.data) == Ok(true) && LooksLikeDataset(pB.data) == Ok(true)
    requires WriteAll(digest, encode, t, [(idA, pA), (idB, pB)]).Ok?
    requires i < |VisitedNames(pA.data)| && VisitedNames(pA.data)[i] == k
    requires var namesA, dimsA, dimsB := VisitedNames(pA.data), DimensionsOf(pA.data), DimensionsOf(pB.data);
      var fp := FpOf(digest, dimsA, k);
      && fp != "" && fp !in t.registry
      && (forall j :: 0 <= j < i ==> FpOf(digest, dimsA, namesA[j]) != fp)
      && Decodes(encode, decode, EntryOf(dimsA, k))
      && Truthy(TitleOf(dimsA, k))
      && k in VisitedNames(pB.data) && "id" !in VisitedNames(pB.data)
      && FpOf(digest, dimsB, k) == fp
    requires Compact(digest, pB.data).Ok? && Decodes(encode, decode, Compact(digest, pB.data).value.doc)
    ensures var r := WriteAll(digest, encode, t, [(idA, pA), (idB, pB)]).value;
      && idB in r.datasets
      && (ReadDoc(decode, r, idB, true).Ok? ==> DimTitle(ReadDoc(decode, r, idB, true).value, k) == Some(TitleOf(DimensionsOf(pA.data), k)))
  {
    var t1 := WriteOne(digest, encode, t, idA, pA).value;
    WriteTwo(digest, encode, t, (idA, pA), (idB, pB));
    var r := WriteOne(digest, encode, t1, idB, pB).value;
    var dimsA := DimensionsOf(pA.data);
    RegisteredAfterWrite(digest, encode, decode, t, idA, pA, i);
    CompactDataset(digest, pA.data);
    EntryTitle(dimsA, k);
    ReadsRegisteredTitle(digest, encode, decode, r, idB, pB, k, EntryOf(dimsA, k));
  }

  /** A batch of two writes is the first write followed by the second. */
  lemma WriteTwo(digest: CJson -> string, encode: Json -> Bytes, t: Tables, a: (string, Payload), b: (string, Payload))
    requires WriteAll(digest, encode, t, [a, b]).Ok?
    ensures WriteOne(digest, encode, t, a.0, a.1).Ok?
    ensures var t1 := WriteOne(digest, encode, t, a.0, a.1).value;
      WriteOne(digest, encode, t1, b.0, b.1).Ok? &&
      WriteAll(digest, encode, t, [a, b]).value == WriteOne(digest, encode, t1, b.0, b.1).value
  {
    assert [a, b][1..] == [b];
    var t1 := WriteOne(digest, encode, t, a.0, a.1).value;
    assert WriteAll(digest, encode, t, [a, b]) == WriteAll(digest, encode, t1, [b]);
    assert [b][1..] == [];
    var t2 := WriteOne(digest, encode, t1, b.0, b.1).value;
    assert WriteAll(digest, encode, t1, [b]) == WriteAll(digest, encode, t2, []);
  }

  /** The registry entry of a describable dimension is a dict carrying the dimension's title. */
  lemma EntryTitle(dims: Fields, k: string)
    requires Describe(dims, k).Ok?
    ensures EntryOf(dims, k).Obj? && GetOr(EntryOf(dims, k).fields, "dimension_label", Null) == TitleOf(dims, k)
  {
    var def := Describe(dims, k).value;
    EntryLookups(k, def);
    assert EntryOf(dims, k) == RegistryEntry(k, def);
    assert TitleOf(dims, k) == def.title;
  }

  /**
   * A dataset row written from `p`, read back with labels: dimension `k`, when
   * the registry row its fingerprint names holds `entry`, gets the title
   * `entry` carries, if that is non-empty.
   */
  lemma ReadsRegisteredTitle(digest: CJson -> string, encode: Json -> Bytes, decode: Bytes -> Option<Json>,
                             r: Tables, tableId: string, p: Payload, k: string, entry: Json)
    requires LooksLikeDataset(p.data) == Ok(true)
    requires Compact(digest, p.data).Ok? && Decodes(encode, decode, Compact(digest, p.data).value.doc)
    requires var c := Compact(digest, p.data).value;
      tableId in r.datasets && r.datasets[tableId].jsonZst == encode(c.doc) && r.datasets[tableId].dimMap == c.dimMap
    requires k in VisitedNames(p.data) && "id" !in VisitedNames(p.data)
    requires var fp := FpOf(digest, DimensionsOf(p.data), k);
      fp != "" && fp in r.registry && decode(r.registry[fp]) == Some(entry) && entry.Obj?
    requires Truthy(GetOr(entry.fields, "dimension_label", Null))
    ensures ReadDoc(decode, r, tableId, true).Ok? ==>
      DimTitle(ReadDoc(decode, r, tableId, true).value, k) == Some(GetOr(entry.fields, "dimension_label", Null))
  {
    var c := Compact(digest, p.data).value;
    CompactDataset(digest, p.data);
    assert ReadDoc(decode, r, tableId, true) == Rehydrate(r.registry, decode, c.doc, c.dimMap);
    if ReadDoc(decode, r, tableId, true).Ok? {
      CompactKeepsIds(digest, p.data);
      VisitedId(p.data, k);
      assert c.dimMap[k] == FpOf(digest, DimensionsOf(p.data), k);
      RehydratedTitle(r.registry, decode, c.doc, c.dimMap, k, entry);
    }
  }

  /** A visited name is one of the ids of the dataset. */
  lemma VisitedId(ds: Json, k: string)
    requires LooksLikeDataset(ds) == Ok(true)
    requires DimIds(DimensionsOf(ds)).Ok?
    requires forall i :: 0 <= i < |DimIds(DimensionsOf(ds)).value| ==> DimIds(DimensionsOf(ds)).value[i].Str?
    requires k in VisitedNames(ds)
    ensures Str(k) in DimIds(DimensionsOf(ds)).value
  {
    var ids := DimIds(DimensionsOf(ds)).value;
    var n :| 0 <= n < |ids| && Names(ids)[n] == k;
    assert ids[n] == Str(k);
  }

  /**
   * Rehydration gives a usable dimension the title its registry entry
   * carries, when that title is non-empty.
   */
  lemma RehydratedTitle(registry: map<string, Bytes>, decode: Bytes -> Option<Json>, doc: Json,
                        dimMap: map<string, string>, k: string, entry: Json)
    requires LooksLikeDataset(doc) == Ok(true)
    requires Rehydrate(registry, decode, doc, dimMap).Ok?
    requires Str(k) in DimIds(DimensionsOf(doc)).value
    requires Usable(registry, dimMap, k) && decode(registry[dimMap[k]]) == Some(entry)
    requires entry.Obj? && Truthy(GetOr(entry.fields, "dimension_label", Null))
    ensures DimTitle(Rehydrate(registry, decode, doc, dimMap).value, k) == Some(GetOr(entry.fields, "dimension_label", Null))
  {
    RehydrateReattaches(registry, decode, doc, dimMap, k);
    TitleFromRegistry(GetOr(DimensionsOf(doc), k, Obj([])), entry.fields);
  }

  // ---------- titles ----------

  /** A dimension's title is not part of its fingerprint. */
  lemma TitleNotFingerprinted(digest: CJson -> string, dims: Fields, name: string, title: Json)
    requires Get(dims, name).Some? && Get(dims, name).value.Obj?
    ensures var d := Get(dims, name).value.fields;
      FpOf(digest, Set(dims, name, Obj(Set(d, "label", title))), name) == FpOf(digest, dims, name)
  {
    var d := Get(dims, name).value.fields;
    GetSet(dims, name, Obj(Set(d, "label", title)), name);
    GetSet(d, "label", title, "category");
  }

  /** On reading, a dimension gets its title from the registry entry whenever that entry has one. */
  lemma TitleFromRegistry(d: Json, reg: Fields)
    requires ReattachDim(d, reg).Ok?
    ensures var title := GetOr(reg, "dimension_label", Null);
      Get(ReattachDim(d, reg).value.fields, "label") == if Truthy(title) then Some(title) else Get(d.fields, "label")
  {
    var storedIndex, labels := GetOr(reg, "index", Null), GetOr(reg, "labels", Null);
    var title := GetOr(reg, "dimension_label", Null);
    var cat1 := if Truthy(storedIndex) then SetItem(CategoryOf(d.fields), "index", storedIndex) else Ok(CategoryOf(d.fields));
    var cat2 := if Truthy(labels) then SetItem(cat1.value, "label", labels) else cat1;
    var d1 := if Truthy(title) then Set(d.fields, "label", title) else d.fields;
    assert ReattachDim(d, reg).value == Obj(Set(d1, "category", cat2.value));
    GetSet(d1, "category", cat2.value, "label");
    GetSet(d.fields, "label", title, "label");
  }

  /** A rehydrated category's labels are the registry's labels whenever those are non-empty, else they are kept. */
  lemma LabelsFromRegistry(d: Json, reg: Fields)
    requires ReattachDim(d, reg).Ok?
    requires CategoryOf(d.fields).Obj?
    ensures var labels := GetOr(reg, "labels", Null);
      var cat := Get(ReattachDim(d, reg).value.fields, "category");
      && cat.Some? && cat.value.Obj?
      && Get(cat.value.fields, "label") == if Truthy(labels) then Some(labels) else Get(CategoryOf(d.fields).fields, "label")
  {
    var storedIndex, labels := GetOr(reg, "index", Null), GetOr(reg, "labels", Null);
    var title := GetOr(reg, "dimension_label", Null);
    var c0 := CategoryOf(d.fields).fields;
    var cat1 := if Truthy(storedIndex) then Set(c0, "index", storedIndex) else c0;
    var cat2 := if Truthy(labels) then Set(cat1, "label", labels) else cat1;
    var d1 := if Truthy(title) then Set(d.fields, "label", title) else d.fields;
    assert ReattachDim(d, reg).value == Obj(Set(d1, "category", Obj(cat2)));
    GetSet(d1, "category", Obj(cat2), "category");
    GetSet(cat1, "label", labels, "label");
    GetSet(c0, "index", storedIndex, "label");
  }

  /**
   * On reading, a dimension's category index is the registry entry's index
   * whenever that is non-empty: the list written at compaction, even where
   * the document first gave a position map.
   */
  lemma IndexFromRegistry(d: Json, reg: Fields)
    requires ReattachDim(d, reg).Ok?
    requires CategoryOf(d.fields).Obj?
    ensures var storedIndex := GetOr(reg, "index", Null);
      var cat := Get(ReattachDim(d, reg).value.fields, "category");
      && cat.Some? && cat.value.Obj?
      && Get(cat.value.fields, "index") == if Truthy(storedIndex) then Some(storedIndex) else Get(CategoryOf(d.fields).fields, "index")
  {
    var storedIndex, labels := GetOr(reg, "index", Null), GetOr(reg, "labels", Null);
    var title := GetOr(reg, "dimension_label", Null);
    var c0 := CategoryOf(d.fields).fields;
    var cat1 := if Truthy(storedIndex) then Set(c0, "index", storedIndex) else c0;
    var cat2 := if Truthy(labels) then Set(cat1, "label", labels) else cat1;
    var d1 := if Truthy(title) then Set(d.fields, "label", title) else d.fields;
    assert ReattachDim(d, reg).value == Obj(Set(d1, "category", Obj(cat2)));
    GetSet(d1, "category", Obj(cat2), "category");
    GetSet(cat1, "label", labels, "index");
    GetSet(c0, "index", storedIndex, "index");
  }
}
