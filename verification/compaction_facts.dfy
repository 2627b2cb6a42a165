/**
 * What `_compact_and_registry` promises about its three results, and what
 * `_rehydrate` gives back from them.
 */
module CompactionFacts {
  import opened Wrappers
  import opened Json
  import opened Dimension
  import opened Codec
  import opened Compaction

  /** The `dimension` dict of a compacted document ([] if there is none). */
  function CompactDims(c: Compacted): Fields {
    if c.doc.Obj? && Get(c.doc.fields, "dimension").Some? && Get(c.doc.fields, "dimension").value.Obj?
    then Get(c.doc.fields, "dimension").value.fields
    else []
  }

  // ---------- compaction ----------

  /**
   * Compacting a dataset: every id is a string; the result is again a
   * dataset whose other top-level keys are untouched; its dimensions,
   * dimension map and staged entries are those `CompactInv` describes for
   * the names visited.
   */
  lemma CompactDataset(digest: CJson -> string, ds: Json)
    requires LooksLikeDataset(ds) == Ok(true)
    requires Compact(digest, ds).Ok?
    ensures DimIds(DimensionsOf(ds)).Ok?
    ensures forall i :: 0 <= i < |DimIds(DimensionsOf(ds)).value| ==> DimIds(DimensionsOf(ds)).value[i].Str?
    ensures var c := Compact(digest, ds).value;
      && c.doc == Obj(Set(ds.fields, "dimension", Obj(CompactDims(c))))
      && LooksLikeDataset(c.doc) == Ok(true)
      && DimensionsOf(c.doc) == CompactDims(c)
      && (forall k :: k != "dimension" ==> Get(c.doc.fields, k) == Get(ds.fields, k))
      && CompactInv(digest, DimensionsOf(ds), VisitedNames(ds), Progress(CompactDims(c), c.dimMap, c.staged))
  {
    var dims := DimensionsOf(ds);
    var ids := DimIds(dims).value;
    var p0 := Progress(dims, map[], []);
    assert Pairs(digest, dims, []) == [];
    assert MapInv(digest, dims, [], map[]);
    CompactLoopInv(digest, dims, ids, [], p0);
    assert [] + Names(ids) == VisitedNames(ds);
    var p := CompactLoop(digest, dims, ids, p0).value;
    var c := Compact(digest, ds).value;
    forall k ensures Get(c.doc.fields, k) == if k == "dimension" then Some(Obj(p.cDims)) else Get(ds.fields, k) {
      GetSet(ds.fields, "dimension", Obj(p.cDims), k);
    }
  }

  /** A document that is not a dataset is stored as it is, with no registry references. */
  lemma CompactNotDataset(digest: CJson -> string, ds: Json)
    requires LooksLikeDataset(ds) == Ok(false)
    ensures Compact(digest, ds) == Ok(Compacted(ds, map[], []))
  {
  }

  /**
   * In the compact document a visited dimension has lost its title and its
   * category labels, and its category index is the resolved index list;
   * every other key of the dimension and of its category is kept.  A
   * dimension that is not visited is untouched.
   */
  lemma CompactedDimension(digest: CJson -> string, ds: Json, k: string)
    requires LooksLikeDataset(ds) == Ok(true)
    requires Compact(digest, ds).Ok?
    ensures var dims, cDims := DimensionsOf(ds), CompactDims(Compact(digest, ds).value);
      if k in VisitedNames(ds) then
        && Describe(dims, k).Ok?
        && var d := GetOr(dims, k, Obj([])).fields;
        && Get(cDims, k).Some? && Get(cDims, k).value.Obj?
        && var s := Get(cDims, k).value.fields;
        && Get(s, "label") == None
        && Get(s, "category").Some? && Get(s, "category").value.Obj?
        && var c := Get(s, "category").value.fields;
        && Get(c, "index") == Some(Arr(Describe(dims, k).value.index))
        && Get(c, "label") == None
        && (forall j :: j != "category" && j != "label" ==> Get(s, j) == Get(d, j))
        && (forall j :: j != "index" && j != "label" ==> Get(c, j) == Get(CategoryOf(d).fields, j))
      else Get(cDims, k) == Get(dims, k)
  {
    CompactDataset(digest, ds);
    var dims := DimensionsOf(ds);
    if k in VisitedNames(ds) {
      var d := GetOr(dims, k, Obj([])).fields;
      StrippedShape(d, CategoryOf(d).fields, Describe(dims, k).value.index);
    }
  }

  /** A fingerprint is staged exactly when some visited dimension has it. */
  lemma StagedExactly(digest: CJson -> string, ds: Json, fp: string)
    requires LooksLikeDataset(ds) == Ok(true)
    requires Compact(digest, ds).Ok?
    ensures Get(Compact(digest, ds).value.staged, fp).Some? <==>
      exists k :: k in VisitedNames(ds) && FpOf(digest, DimensionsOf(ds), k) == fp
  {
    CompactDataset(digest, ds);
    var dims, names := DimensionsOf(ds), VisitedNames(ds);
    GetDedup(Pairs(digest, dims, names), fp);
    PairsHas(digest, dims, names, fp);
  }

  /** A fingerprint occurs among the pairs exactly when some name has it. */
  lemma PairsHas(digest: CJson -> string, dims: Fields, names: seq<string>, fp: string)
    ensures Get(Pairs(digest, dims, names), fp).Some? <==> exists k :: k in names && FpOf(digest, dims, k) == fp
  {
    var pairs := Pairs(digest, dims, names);
    GetSomeIff(pairs, fp);
    if exists k :: k in names && FpOf(digest, dims, k) == fp {
      var k :| k in names && FpOf(digest, dims, k) == fp;
      var i :| 0 <= i < |names| && names[i] == k;
      assert pairs[i].0 == fp;
    }
  }

  /**
   * The entry staged under a fingerprint describes the first visited
   * dimension that has it.
   */
  lemma StagedFirstWins(digest: CJson -> string, ds: Json, i: nat)
    requires LooksLikeDataset(ds) == Ok(true)
    requires Compact(digest, ds).Ok?
    requires i < |VisitedNames(ds)|
    requires var names, dims := VisitedNames(ds), DimensionsOf(ds);
      forall j :: 0 <= j < i ==> FpOf(digest, dims, names[j]) != FpOf(digest, dims, names[i])
    ensures var names, dims := VisitedNames(ds), DimensionsOf(ds);
      Get(Compact(digest, ds).value.staged, FpOf(digest, dims, names[i])) == Some(EntryOf(dims, names[i]))
  {
    CompactDataset(digest, ds);
    var dims, names := DimensionsOf(ds), VisitedNames(ds);
    var pairs := Pairs(digest, dims, names);
    GetDedup(pairs, FpOf(digest, dims, names[i]));
    GetFirst(pairs, i);
  }

  // ---------- rehydration ----------

  /** An id `_rehydrate` skips: not a string, or without a usable reference in the dimension map and the registry. */
  predicate Unresolved(registry: map<string, Bytes>, dimMap: map<string, string>, id: Json) {
    !id.Str? || id.s !in dimMap || dimMap[id.s] == "" || dimMap[id.s] !in registry
  }

  lemma {:induction false} RehydrateLoopUnresolved(registry: map<string, Bytes>, decode: Bytes -> Option<Json>,
                                                   dimMap: map<string, string>, dims: Fields, ids: seq<Json>)
    requires forall i :: 0 <= i < |ids| ==> !ids[i].Arr? && !ids[i].Obj? && Unresolved(registry, dimMap, ids[i])
    ensures RehydrateLoop(registry, decode, dimMap, dims, ids) == Ok(dims)
    decreases |ids|
  {
    if ids != [] {
      assert RehydrateStep(registry, decode, dimMap, dims, ids[0]) == Ok(dims);
      forall i | 0 <= i < |ids[1..]| ensures !ids[1..][i].Arr? && !ids[1..][i].Obj? && Unresolved(registry, dimMap, ids[1..][i]) {
        assert ids[1..][i] == ids[i + 1];
      }
      RehydrateLoopUnresolved(registry, decode, dimMap, dims, ids[1..]);
    }
  }

  /**
   * Rehydration degrades gracefully: a dataset none of whose dimensions has
   * a usable reference (no dimension map, say, or an empty registry) is
   * given back unchanged.
   */
  lemma RehydrateUnresolved(registry: map<string, Bytes>, decode: Bytes -> Option<Json>, ds: Json, dimMap: map<string, string>)
    requires LooksLikeDataset(ds) == Ok(true)
    requires DimIds(DimensionsOf(ds)).Ok?
    requires var ids := DimIds(DimensionsOf(ds)).value;
      forall i :: 0 <= i < |ids| ==> !ids[i].Arr? && !ids[i].Obj? && Unresolved(registry, dimMap, ids[i])
    ensures Rehydrate(registry, decode, ds, dimMap) == Ok(ds)
  {
    var dims := DimensionsOf(ds);
    RehydrateLoopUnresolved(registry, decode, dimMap, dims, DimIds(dims).value);
    SetUnchanged(ds.fields, "dimension", Obj(dims));
  }

  /** The reference of dimension `k` can be followed: a non-empty fingerprint with a registry row. */
  predicate Usable(registry: map<string, Bytes>, dimMap: map<string, string>, k: string) {
    k in dimMap && dimMap[k] != "" && dimMap[k] in registry
  }

  lemma OrEmptyTwice(j: Json)
    ensures OrEmpty(OrEmpty(j)) == OrEmpty(j)
  {
  }

  /** Setting a category's index and labels a second time to the same values changes nothing. */
  lemma CategoryTwice(c0: Json, idx: Json, labels: Json)
    requires Truthy(idx) || Truthy(labels) ==> c0.Obj?
    ensures var c1 := if Truthy(idx) then Obj(Set(c0.fields, "index", idx)) else c0;
      var c2 := if Truthy(labels) then Obj(Set(c1.fields, "label", labels)) else c1;
      var c3 := if Truthy(idx) then Obj(Set(c2.fields, "index", idx)) else c2;
      (if Truthy(labels) then Obj(Set(c3.fields, "label", labels)) else c3) == c2
  {
    var c1 := if Truthy(idx) then Obj(Set(c0.fields, "index", idx)) else c0;
    var c2 := if Truthy(labels) then Obj(Set(c1.fields, "label", labels)) else c1;
    if Truthy(idx) {
      GetSet(c0.fields, "index", idx, "index");
      if Truthy(labels) {
        GetSet(c1.fields, "label", labels, "index");
      }
      SetUnchanged(c2.fields, "index", idx);
    }
    if Truthy(labels) {
      GetSet(c1.fields, "label", labels, "label");
      SetUnchanged(c2.fields, "label", labels);
    }
  }

  /** Reattaching the same registry entry a second time changes nothing. */
  lemma ReattachTwice(d: Json, reg: Fields)
    requires ReattachDim(d, reg).Ok?
    ensures ReattachDim(ReattachDim(d, reg).value, reg) == ReattachDim(d, reg)
  {
    var idx, labels, title := GetOr(reg, "index", Null), GetOr(reg, "labels", Null), GetOr(reg, "dimension_label", Null);
    var c0 := CategoryOf(d.fields);
    var c1 := if Truthy(idx) then Obj(Set(c0.fields, "index", idx)) else c0;
    var c2 := if Truthy(labels) then Obj(Set(c1.fields, "label", labels)) else c1;
    var x := if Truthy(title) then Set(d.fields, "label", title) else d.fields;
    var out := Set(x, "category", c2);
    assert ReattachDim(d, reg) == Ok(Obj(out));
    GetSet(x, "category", c2, "category");
    OrEmptyTwice(GetOr(d.fields, "category", Obj([])));
    assert CategoryOf(out) == c2;
    CategoryTwice(c0, idx, labels);
    if Truthy(title) {
      GetSet(x, "category", c2, "label");
      GetSet(d.fields, "label", title, "label");
      SetUnchanged(out, "label", title);
    }
    SetUnchanged(out, "category", c2);
    ReattachDimShape(Obj(out), reg);
  }

  /** `ReattachDim` spelled out, for a dimension that is a dict whose category can take what is set. */
  lemma ReattachDimShape(d: Json, reg: Fields)
    requires d.Obj?
    requires Truthy(GetOr(reg, "index", Null)) || Truthy(GetOr(reg, "labels", Null)) ==> CategoryOf(d.fields).Obj?
    ensures var idx, labels, title := GetOr(reg, "index", Null), GetOr(reg, "labels", Null), GetOr(reg, "dimension_label", Null);
      var c0 := CategoryOf(d.fields);
      var c1 := if Truthy(idx) then Obj(Set(c0.fields, "index", idx)) else c0;
      var c2 := if Truthy(labels) then Obj(Set(c1.fields, "label", labels)) else c1;
      var x := if Truthy(title) then Set(d.fields, "label", title) else d.fields;
      ReattachDim(d, reg) == Ok(Obj(Set(x, "category", c2)))
  {
  }

  /**
   * After the loop of `_rehydrate`, a dimension that was visited with a
   * usable reference carries the registry entry reattached (once or several
   * times, to the same effect); any other dimension is as it was.
   */
  lemma {:induction false} RehydrateLoopAt(registry: map<string, Bytes>, decode: Bytes -> Option<Json>,
                                           dimMap: map<string, string>, dims: Fields, ids: seq<Json>, k: string)
    requires RehydrateLoop(registry, decode, dimMap, dims, ids).Ok?
    ensures var out := RehydrateLoop(registry, decode, dimMap, dims, ids).value;
      if Str(k) in ids && Usable(registry, dimMap, k) then
        && decode(registry[dimMap[k]]).Some? && decode(registry[dimMap[k]]).value.Obj?
        && var reg := decode(registry[dimMap[k]]).value.fields;
        && ReattachDim(GetOr(dims, k, Obj([])), reg).Ok?
        && Get(out, k) == Some(ReattachDim(GetOr(dims, k, Obj([])), reg).value)
      else Get(out, k) == Get(dims, k)
    decreases |ids|
  {
    if ids != [] {
      var id := ids[0];
      var dims1 := RehydrateStep(registry, decode, dimMap, dims, id).value;
      assert RehydrateLoop(registry, decode, dimMap, dims, ids) == RehydrateLoop(registry, decode, dimMap, dims1, ids[1..]);
      RehydrateLoopAt(registry, decode, dimMap, dims1, ids[1..], k);
      assert Str(k) in ids <==> id == Str(k) || Str(k) in ids[1..];
      if id == Str(k) && Usable(registry, dimMap, k) {
        var reg := decode(registry[dimMap[k]]).value.fields;
        var once := ReattachDim(GetOr(dims, k, Obj([])), reg).value;
        assert dims1 == Set(dims, k, once);
        GetSet(dims, k, once, k);
        if Str(k) in ids[1..] {
          ReattachTwice(GetOr(dims, k, Obj([])), reg);
        }
      } else if id.Str? && Usable(registry, dimMap, id.s) {
        var reg := decode(registry[dimMap[id.s]]).value.fields;
        GetSet(dims, id.s, ReattachDim(GetOr(dims, id.s, Obj([])), reg).value, k);
      }
    }
  }

  /**
   * `_rehydrate` leaves a dimension whose reference is unusable (no map
   * entry, an empty fingerprint, no registry row) as it is, whatever it does
   * to the other dimensions.
   */
  lemma RehydrateSkips(registry: map<string, Bytes>, decode: Bytes -> Option<Json>, ds: Json, dimMap: map<string, string>, k: string)
    requires LooksLikeDataset(ds) == Ok(true)
    requires Rehydrate(registry, decode, ds, dimMap).Ok?
    requires !Usable(registry, dimMap, k)
    ensures Get(DimensionsOf(Rehydrate(registry, decode, ds, dimMap).value), k) == Get(DimensionsOf(ds), k)
  {
    var dims := DimensionsOf(ds);
    var ids := DimIds(dims).value;
    RehydrateLoopAt(registry, decode, dimMap, dims, ids, k);
    var out := RehydrateLoop(registry, decode, dimMap, dims, ids).value;
    GetSet(ds.fields, "dimension", Obj(out), "dimension");
  }

  /**
   * A visited dimension whose reference is usable comes back with the
   * registry entry reattached, as `ReattachDim` describes: the entry's title
   * and labels, whichever dataset registered them first.
   */
  lemma RehydrateReattaches(registry: map<string, Bytes>, decode: Bytes -> Option<Json>, ds: Json, dimMap: map<string, string>, k: string)
    requires LooksLikeDataset(ds) == Ok(true)
    requires Rehydrate(registry, decode, ds, dimMap).Ok?
    requires Str(k) in DimIds(DimensionsOf(ds)).value
    requires Usable(registry, dimMap, k)
    ensures decode(registry[dimMap[k]]).Some? && decode(registry[dimMap[k]]).value.Obj?
    ensures var reg, dims := decode(registry[dimMap[k]]).value.fields, DimensionsOf(ds);
      && ReattachDim(GetOr(dims, k, Obj([])), reg).Ok?
      && Get(DimensionsOf(Rehydrate(registry, decode, ds, dimMap).value), k) == Some(ReattachDim(GetOr(dims, k, Obj([])), reg).value)
  {
    var dims := DimensionsOf(ds);
    var ids := DimIds(dims).value;
    RehydrateLoopAt(registry, decode, dimMap, dims, ids, k);
    var out := RehydrateLoop(registry, decode, dimMap, dims, ids).value;
    GetSet(ds.fields, "dimension", Obj(out), "dimension");
  }

  /** The title (`label`) of dimension `k` of a document, if the document has such a dimension. */
  function DimTitle(doc: Json, k: string): Option<Json> {
    if doc.Obj? && Get(doc.fields, "dimension").Some? && Get(doc.fields, "dimension").value.Obj? then
      match Get(Get(doc.fields, "dimension").value.fields, k)
      case Some(Obj(d)) => Get(d, "label")
      case _ => None
    else None
  }

  /** Compaction leaves `dimension.id` alone unless a dimension is itself named "id". */
  lemma CompactKeepsIds(digest: CJson -> string, ds: Json)
    requires LooksLikeDataset(ds) == Ok(true)
    requires Compact(digest, ds).Ok?
    requires "id" !in VisitedNames(ds)
    ensures DimIds(CompactDims(Compact(digest, ds).value)) == DimIds(DimensionsOf(ds))
  {
    CompactDataset(digest, ds);
    assert Get(CompactDims(Compact(digest, ds).value), "id") == Get(DimensionsOf(ds), "id");
  }

  // ---------- compaction followed by rehydration ----------

  /**
   * A dimension that compaction followed by rehydration gives back: a dict
   * whose category is a dict with a list `index`, whose category labels are
   * missing or a non-empty dict, and whose title is missing or non-empty.
   */
  predicate Restorable(dims: Fields, k: string) {
    match Get(dims, k)
    case Some(Obj(d)) =>
      && (match Get(d, "category")
          case Some(Obj(cat)) =>
            && (match Get(cat, "index") case Some(Arr(_)) => true case _ => false)
            && (match Get(cat, "label") case None => true case Some(l) => l.Obj? && Truthy(l))
          case _ => false)
      && (match Get(d, "label") case None => true case Some(t) => Truthy(t))
    case _ => false
  }

  /** Dimension `name` as `_rehydrate` rebuilds it from its compact form and its registry entry. */
  function Restored(dims: Fields, name: string): Json {
    var e := EntryOf(dims, name);
    if e.Obj? then
      match ReattachDim(StrippedOf(dims, name), e.fields)
      case Ok(d) => d
      case Err(_) => Null
    else Null
  }

  /** What `_rehydrate` reads back from a registry entry. */
  lemma EntryLookups(name: string, def: Def)
    ensures var reg := RegistryEntry(name, def).fields;
      && GetOr(reg, "index", Null) == Arr(def.index)
      && GetOr(reg, "labels", Null) == def.labels
      && GetOr(reg, "dimension_label", Null) == def.title
  {
    var reg := RegistryEntry(name, def).fields;
    assert Get(reg, "index") == Get(reg[1..], "index");
    assert Get(reg, "labels") == Get(reg[1..][1..], "labels");
    var tail := reg[1..][1..];
    assert Get(reg, "dimension_label") == Get(tail, "dimension_label");
    assert tail[1..] == [("dimension_label", def.title)];
    assert Get(tail, "dimension_label") == Some(def.title);
  }

  /** The definition of a restorable dimension. */
  lemma DescribeRestorable(dims: Fields, name: string)
    requires Restorable(dims, name)
    ensures var d := Get(dims, name).value.fields;
      var cat := Get(d, "category").value.fields;
      && CategoryOf(d) == Obj(cat)
      && Describe(dims, name).Ok?
      && var def := Describe(dims, name).value;
      && Get(cat, "index") == Some(Arr(def.index))
      && (if Truthy(def.labels) then Get(cat, "label") == Some(def.labels) else Get(cat, "label") == None)
      && (if Truthy(def.title) then Get(d, "label") == Some(def.title) else Get(d, "label") == None)
  {
  }

  /** The category of a restorable dimension comes back, up to key order. */
  lemma RestoreCategory(cat: Fields, index: seq<Json>, labels: Json)
    requires Get(cat, "index") == Some(Arr(index))
    requires if Truthy(labels) then Get(cat, "label") == Some(labels) else Get(cat, "label") == None
    ensures var c := Delete(Set(cat, "index", Arr(index)), "label");
      CanonFields(if Truthy(labels) then Set(c, "label", labels) else c) == CanonFields(cat)
  {
    var c := Delete(Set(cat, "index", Arr(index)), "label");
    CanonFieldsDelete(Set(cat, "index", Arr(index)), "label");
    CanonFieldsSet(cat, "index", Arr(index));
    CanonFieldsPresent(cat, "index", Arr(index));
    CanonFieldsPutBack(cat, c, "label", Truthy(labels), labels);
  }

  /** A restorable dimension comes back, up to key order, once its title and category are put back. */
  lemma RestoreTitle(d: Fields, cat: Fields, c: Fields, cat2: Fields, title: Json)
    requires Get(d, "category") == Some(Obj(cat))
    requires CanonFields(cat2) == CanonFields(cat)
    requires if Truthy(title) then Get(d, "label") == Some(title) else Get(d, "label") == None
    ensures var s := Delete(Set(d, "category", Obj(c)), "label");
      var d2 := if Truthy(title) then Set(s, "label", title) else s;
      CanonFields(Set(d2, "category", Obj(cat2))) == CanonFields(d)
  {
    var f := Set(d, "category", Obj(c));
    var s := Delete(f, "label");
    var d2 := if Truthy(title) then Set(s, "label", title) else s;
    GetSet(d, "category", Obj(c), "label");
    CanonFieldsDelete(f, "label");
    CanonFieldsPutBack(f, s, "label", Truthy(title), title);
    CanonFieldsSet(d2, "category", Obj(cat2));
    CanonFieldsSet(d, "category", Obj(c));
    CanonFieldsPresent(d, "category", Obj(cat));
    assert Canon(Obj(cat2)) == Canon(Obj(cat));
  }

  /** `_rehydrate` on a dimension whose category is a dict, step by step. */
  lemma ReattachDimObj(d: Fields, reg: Fields)
    requires CategoryOf(d).Obj?
    ensures var c := CategoryOf(d).fields;
      var index, labels, title := GetOr(reg, "index", Null), GetOr(reg, "labels", Null), GetOr(reg, "dimension_label", Null);
      var c1 := if Truthy(index) then Set(c, "index", index) else c;
      var c2 := if Truthy(labels) then Set(c1, "label", labels) else c1;
      var d2 := if Truthy(title) then Set(d, "label", title) else d;
      ReattachDim(Obj(d), reg) == Ok(Obj(Set(d2, "category", Obj(c2))))
  {
  }

  /** A restorable dimension is rebuilt as it was, up to key order. */
  lemma RestoreDim(dims: Fields, name: string)
    requires Restorable(dims, name)
    ensures Describe(dims, name).Ok? && EntryOf(dims, name).Obj?
    ensures ReattachDim(StrippedOf(dims, name), EntryOf(dims, name).fields).Ok?
    ensures Canon(Restored(dims, name)) == Canon(Get(dims, name).value)
  {
    var d := Get(dims, name).value.fields;
    var cat := Get(d, "category").value.fields;
    DescribeRestorable(dims, name);
    var def := Describe(dims, name).value;
    var reg := RegistryEntry(name, def).fields;
    EntryLookups(name, def);
    var c := Delete(Set(cat, "index", Arr(def.index)), "label");
    var s := Stripped(d, cat, def.index);
    StrippedShape(d, cat, def.index);
    assert CategoryOf(s) == Obj(c);
    SetUnchanged(c, "index", Arr(def.index));
    var cat2 := if Truthy(def.labels) then Set(c, "label", def.labels) else c;
    var d2 := if Truthy(def.title) then Set(s, "label", def.title) else s;
    ReattachDimObj(s, reg);
    RestoreCategory(cat, def.index, def.labels);
    RestoreTitle(d, cat, c, cat2, def.title);
  }

  /** The dimension map sends `name` to a fingerprint under which the registry holds the entry of that dimension. */
  predicate Resolves(registry: map<string, Bytes>, decode: Bytes -> Option<Json>, dimMap: map<string, string>,
                     dims: Fields, name: string)
  {
    name in dimMap && dimMap[name] != "" && dimMap[name] in registry && decode(registry[dimMap[name]]) == Some(EntryOf(dims, name))
  }

  /** A dimension compacted from a restorable one whose reference resolves. */
  predicate Ready(registry: map<string, Bytes>, decode: Bytes -> Option<Json>, dimMap: map<string, string>,
                  dims: Fields, cDims: Fields, name: string)
  {
    Get(cDims, name) == Some(StrippedOf(dims, name)) && Restorable(dims, name) && Resolves(registry, decode, dimMap, dims, name)
  }

  /** One turn of the loop of `_rehydrate` on a ready dimension rebuilds it. */
  lemma RestoreStep(registry: map<string, Bytes>, decode: Bytes -> Option<Json>, dimMap: map<string, string>,
                    dims: Fields, cDims: Fields, r: Fields, name: string)
    requires Ready(registry, decode, dimMap, dims, cDims, name)
    requires Get(r, name) == Get(cDims, name)
    ensures RehydrateStep(registry, decode, dimMap, r, Str(name)) == Ok(Set(r, name, Restored(dims, name)))
  {
    RestoreDim(dims, name);
  }

  /** What has been rebuilt so far: the dimensions `done`, and nothing else. */
  ghost predicate RestoredSoFar(dims: Fields, cDims: Fields, r: Fields, done: seq<string>) {
    forall k :: Get(r, k) == if k in done then Some(Restored(dims, k)) else Get(cDims, k)
  }

  /** The ids still to visit: distinct ready dimensions not yet rebuilt. */
  ghost predicate StillReady(registry: map<string, Bytes>, decode: Bytes -> Option<Json>, dimMap: map<string, string>,
                             dims: Fields, cDims: Fields, ids: seq<Json>, done: seq<string>)
  {
    && (forall i :: 0 <= i < |ids| ==> ids[i].Str? && ids[i].s !in done && Ready(registry, decode, dimMap, dims, cDims, ids[i].s))
    && (forall i, j :: 0 <= i < j < |ids| ==> ids[i] != ids[j])
  }

  lemma RestoredSoFarStep(dims: Fields, cDims: Fields, r: Fields, done: seq<string>, name: string)
    requires RestoredSoFar(dims, cDims, r, done)
    ensures RestoredSoFar(dims, cDims, Set(r, name, Restored(dims, name)), done + [name])
  {
    forall k ensures Get(Set(r, name, Restored(dims, name)), k) == if k in done + [name] then Some(Restored(dims, k)) else Get(cDims, k) {
      GetSet(r, name, Restored(dims, name), k);
    }
  }

  lemma StillReadyTail(registry: map<string, Bytes>, decode: Bytes -> Option<Json>, dimMap: map<string, string>,
                       dims: Fields, cDims: Fields, ids: seq<Json>, done: seq<string>)
    requires ids != []
    requires StillReady(registry, decode, dimMap, dims, cDims, ids, done)
    ensures StillReady(registry, decode, dimMap, dims, cDims, ids[1..], done + [ids[0].s])
  {
    var rest := ids[1..];
    forall i | 0 <= i < |rest| ensures rest[i].Str? && rest[i].s !in done + [ids[0].s] {
      assert rest[i] == ids[i + 1] && ids[0] != ids[i + 1];
    }
    forall i, j | 0 <= i < j < |rest| ensures rest[i] != rest[j] {
      assert rest[i] == ids[i + 1] && rest[j] == ids[j + 1];
    }
  }

  /** The loop of `_rehydrate` over distinct ready dimensions rebuilds each of them and touches nothing else. */
  lemma {:induction false} RestoreLoop(registry: map<string, Bytes>, decode: Bytes -> Option<Json>, dimMap: map<string, string>,
                                       dims: Fields, cDims: Fields, r: Fields, ids: seq<Json>, done: seq<string>)
    requires RestoredSoFar(dims, cDims, r, done)
    requires StillReady(registry, decode, dimMap, dims, cDims, ids, done)
    ensures RehydrateLoop(registry, decode, dimMap, r, ids).Ok?
    ensures RestoredSoFar(dims, cDims, RehydrateLoop(registry, decode, dimMap, r, ids).value, done + Names(ids))
    decreases |ids|
  {
    if ids == [] {
      assert done + Names(ids) == done;
    } else {
      var name := ids[0].s;
      RestoreHead(registry, decode, dimMap, dims, cDims, r, ids, done);
      RestoreLoop(registry, decode, dimMap, dims, cDims, Set(r, name, Restored(dims, name)), ids[1..], done + [name]);
      NamesAfter(done, ids);
    }
  }

  /** The first turn of that loop: the first dimension is rebuilt, and the rest is still to do. */
  lemma RestoreHead(registry: map<string, Bytes>, decode: Bytes -> Option<Json>, dimMap: map<string, string>,
                    dims: Fields, cDims: Fields, r: Fields, ids: seq<Json>, done: seq<string>)
    requires ids != []
    requires RestoredSoFar(dims, cDims, r, done)
    requires StillReady(registry, decode, dimMap, dims, cDims, ids, done)
    ensures ids[0].Str?
    ensures var name := ids[0].s;
      var r1 := Set(r, name, Restored(dims, name));
      && RehydrateLoop(registry, decode, dimMap, r, ids) == RehydrateLoop(registry, decode, dimMap, r1, ids[1..])
      && RestoredSoFar(dims, cDims, r1, done + [name])
      && StillReady(registry, decode, dimMap, dims, cDims, ids[1..], done + [name])
  {
    var name := ids[0].s;
    assert Get(r, name) == Get(cDims, name);
    RestoreStep(registry, decode, dimMap, dims, cDims, r, name);
    RestoredSoFarStep(dims, cDims, r, done, name);
    StillReadyTail(registry, decode, dimMap, dims, cDims, ids, done);
  }

  /** Rebuilding the visited dimensions gives all dimensions back, up to key order. */
  lemma RestoredAll(dims: Fields, cDims: Fields, r: Fields, names: seq<string>)
    requires RestoredSoFar(dims, cDims, r, names)
    requires forall k :: k in names ==> Restorable(dims, k)
    requires forall k :: k !in names ==> Get(cDims, k) == Get(dims, k)
    ensures CanonFields(r) == CanonFields(dims)
  {
    forall k ensures (k in CanonFields(r) <==> k in CanonFields(dims)) && (k in CanonFields(r) ==> CanonFields(r)[k] == CanonFields(dims)[k]) {
      CanonFieldsGet(r, k);
      CanonFieldsGet(dims, k);
      if k in names {
        RestoreDim(dims, k);
      }
    }
  }

  /** Replacing the `dimension` dict twice, the second time by an equal one, gives the document back. */
  lemma DocumentBack(f: Fields, dims: Fields, cDims: Fields, r: Fields)
    requires Get(f, "dimension") == Some(Obj(dims))
    requires CanonFields(r) == CanonFields(dims)
    ensures Canon(Obj(Set(Set(f, "dimension", Obj(cDims)), "dimension", Obj(r)))) == Canon(Obj(f))
  {
    CanonFieldsSet(Set(f, "dimension", Obj(cDims)), "dimension", Obj(r));
    CanonFieldsSet(f, "dimension", Obj(cDims));
    CanonFieldsPresent(f, "dimension", Obj(dims));
  }

  /** After compaction every visited dimension is ready to be rebuilt, and the ids are unchanged. */
  lemma CompactedReady(digest: CJson -> string, registry: map<string, Bytes>, decode: Bytes -> Option<Json>, ds: Json)
    requires LooksLikeDataset(ds) == Ok(true)
    requires Compact(digest, ds).Ok?
    requires var names, dims := VisitedNames(ds), DimensionsOf(ds);
      && "id" !in names
      && (forall i, j :: 0 <= i < j < |names| ==> names[i] != names[j])
      && (forall k :: k in names ==> Restorable(dims, k))
      && (forall k :: k in names ==>
            var fp := FpOf(digest, dims, k);
            fp != "" && fp in registry && decode(registry[fp]) == Some(EntryOf(dims, k)))
    ensures var c := Compact(digest, ds).value; var dims := DimensionsOf(ds);
      && DimIds(dims).Ok?
      && c.doc == Obj(Set(ds.fields, "dimension", Obj(CompactDims(c))))
      && LooksLikeDataset(c.doc) == Ok(true)
      && DimensionsOf(c.doc) == CompactDims(c)
      && DimIds(CompactDims(c)) == DimIds(dims)
      && StillReady(registry, decode, c.dimMap, dims, CompactDims(c), DimIds(dims).value, [])
      && Names(DimIds(dims).value) == VisitedNames(ds)
      && (forall k :: k !in VisitedNames(ds) ==> Get(CompactDims(c), k) == Get(dims, k))
      && RestoredSoFar(dims, CompactDims(c), CompactDims(c), [])
  {
    CompactDataset(digest, ds);
    var c := Compact(digest, ds).value;
    var dims, cDims, names := DimensionsOf(ds), CompactDims(c), VisitedNames(ds);
    var ids := DimIds(dims).value;
    assert Get(cDims, "id") == Get(dims, "id");
    forall i | 0 <= i < |ids| ensures ids[i].Str? && ids[i].s !in [] && Ready(registry, decode, c.dimMap, dims, cDims, ids[i].s) {
      assert names[i] == ids[i].s;
    }
    forall i, j | 0 <= i < j < |ids| ensures ids[i] != ids[j] {
      assert names[i] == ids[i].s && names[j] == ids[j].s;
    }
  }

  /**
   * Rehydrating what compaction produced gives the dataset back, up to the
   * order of keys, provided that:
   *   - the dimension ids are distinct strings and none of them is "id";
   *   - every dimension is restorable (see `Restorable`);
   *   - the registry holds, under the fingerprint of each dimension, that
   *     dimension's own entry.
   * The last condition fails when an entry of another dimension with the same
   * fingerprint got there first: fingerprints leave the title out, so the
   * first title stored for a definition is the one every later dataset gets.
   */
  lemma RoundTrip(digest: CJson -> string, registry: map<string, Bytes>, decode: Bytes -> Option<Json>, ds: Json)
    requires LooksLikeDataset(ds) == Ok(true)
    requires Compact(digest, ds).Ok?
    requires var names, dims := VisitedNames(ds), DimensionsOf(ds);
      && "id" !in names
      && (forall i, j :: 0 <= i < j < |names| ==> names[i] != names[j])
      && (forall k :: k in names ==> Restorable(dims, k))
      && (forall k :: k in names ==>
            var fp := FpOf(digest, dims, k);
            fp != "" && fp in registry && decode(registry[fp]) == Some(EntryOf(dims, k)))
    ensures var c := Compact(digest, ds).value;
      && LooksLikeDataset(c.doc) == Ok(true)
      && Rehydrate(registry, decode, c.doc, c.dimMap).Ok?
      && Canon(Rehydrate(registry, decode, c.doc, c.dimMap).value) == Canon(ds)
  {
    CompactedReady(digest, registry, decode, ds);
    var c := Compact(digest, ds).value;
    var dims, cDims, names := DimensionsOf(ds), CompactDims(c), VisitedNames(ds);
    var ids := DimIds(dims).value;
    RestoreLoop(registry, decode, c.dimMap, dims, cDims, cDims, ids, []);
    var r := RehydrateLoop(registry, decode, c.dimMap, cDims, ids).value;
    assert [] + Names(ids) == names;
    RestoredAll(dims, cDims, r, names);
    assert Rehydrate(registry, decode, c.doc, c.dimMap) == Ok(Obj(Set(c.doc.fields, "dimension", Obj(r))));
    DocumentBack(ds.fields, dims, cDims, r);
  }
}
