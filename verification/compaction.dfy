/**
 * Compaction and rehydration of JSON-stat documents: what
 * `_compact_and_registry` and `_rehydrate` compute, as functions of the
 * document, followed by the properties of the pair.
 *
 * A document is a dataset when `class` is "dataset" and `dimension` is a
 * dict.  Compacting a dataset visits the names in `dimension.id`; for each
 * it records the fingerprint of the dimension in the dimension map, stages a
 * registry entry for a fingerprint not yet staged, and strips the labels
 * (category labels and the dimension title) from a copy of the document,
 * writing the category index as an explicit list.  Rehydrating visits the
 * names again and puts back what the registry holds for each.
 */
module Compaction {
  import opened Wrappers
  import opened Json
  import opened Dimension
  import opened Codec

  // ---------- reading a document ----------

  /** `_looks_like_dataset`; `ds.get` raises on anything but a dict. */
  function LooksLikeDataset(ds: Json): Result<bool, Error> {
    if !ds.Obj? then Err(AttributeError)
    else
      var dim := Get(ds.fields, "dimension");
      Ok(Get(ds.fields, "class") == Some(Str("dataset")) && dim.Some? && dim.value.Obj?)
  }

  /**
   * Whether a document is a dataset depends on the Python value only, not on
   * the order of its keys: a document read back equal up to key order is
   * classified as the one written.
   */
  lemma LooksLikeDatasetKeyOrder(a: Json, b: Json)
    requires Canon(a) == Canon(b)
    ensures LooksLikeDataset(a) == LooksLikeDataset(b)
  {
    if a.Obj? {
      CanonFieldsGet(a.fields, "class");
      CanonFieldsGet(b.fields, "class");
      CanonFieldsGet(a.fields, "dimension");
      CanonFieldsGet(b.fields, "dimension");
      var ca, cb := Get(a.fields, "class"), Get(b.fields, "class");
      if ca.Some? && cb.Some? && Canon(ca.value) == Canon(cb.value) && ca.value.Str? {
        assert Canon(cb.value).CStr?;
      }
    }
  }

  /** The `dimension` dict of a document that looks like a dataset. */
  function DimensionsOf(ds: Json): Fields
    requires LooksLikeDataset(ds) == Ok(true)
  {
    Get(ds.fields, "dimension").value.fields
  }

  /** `x or {}`. */
  function OrEmpty(j: Json): Json {
    if Truthy(j) then j else Obj([])
  }

  /**
   * What `for dim_name in dims.get("id", [])` visits: the items of a list,
   * the characters of a string, the keys of a dict; anything else is not
   * iterable.
   */
  function DimIds(dims: Fields): Result<seq<Json>, Error> {
    match GetOr(dims, "id", Arr([]))
    case Arr(items) => Ok(items)
    case Str(s) => Ok(seq(|s|, i requires 0 <= i < |s| => Str([s[i]])))
    case Obj(f) => Ok(Keys(f))
    case _ => Err(TypeError)
  }

  /** `d.get("category", {}) or {}`. */
  function CategoryOf(d: Fields): Json {
    OrEmpty(GetOr(d, "category", Obj([])))
  }

  /** A dimension definition as the registry keeps it. */
  datatype Def = Def(index: seq<Json>, labels: Json, title: Json)

  /**
   * The definition of dimension `name` read from the input document: its
   * resolved index list, its `category.label` if that is a dict (else null)
   * and its own `label` (else null).
   */
  function Describe(dims: Fields, name: string): (r: Result<Def, Error>)
    ensures !GetOr(dims, name, Obj([])).Obj? ==> r == Err(AttributeError)
    ensures var d := GetOr(dims, name, Obj([]));
      d.Obj? ==>
        var cat := CategoryOf(d.fields);
        && (r.Ok? <==> OrderedIndexList(cat).Ok?)
        && (r.Err? ==> r.error == OrderedIndexList(cat).error)
        && (r.Ok? ==>
              && cat.Obj?
              && r.value.index == OrderedIndexList(cat).value
              && (r.value.labels.Obj? <==> Get(cat.fields, "label").Some? && Get(cat.fields, "label").value.Obj?)
              && (r.value.labels.Obj? ==> Get(cat.fields, "label") == Some(r.value.labels))
              && (!r.value.labels.Obj? ==> r.value.labels == Null)
              && r.value.title == GetOr(d.fields, "label", Null))
  {
    var d := GetOr(dims, name, Obj([]));
    if !d.Obj? then Err(AttributeError)
    else
      var cat := CategoryOf(d.fields);
      var index :- OrderedIndexList(cat);
      var labels := match Get(cat.fields, "label") case Some(Obj(l)) => Obj(l) case _ => Null;
      Ok(Def(index, labels, GetOr(d.fields, "label", Null)))
  }

  /** The registry entry staged for a definition. */
  function RegistryEntry(name: string, def: Def): Json {
    Obj([("dimension", Str(name)), ("index", Arr(def.index)), ("labels", def.labels), ("dimension_label", def.title)])
  }

  // ---------- compaction ----------

  /** A dimension without its title, its category without labels and with an explicit index. */
  function Stripped(d: Fields, cat: Fields, index: seq<Json>): Fields {
    Delete(Set(d, "category", Obj(Delete(Set(cat, "index", Arr(index)), "label"))), "label")
  }

  /**
   * Strip dimension `name` in the copy `cDims` (a missing dimension is
   * created): `.get` on a dimension that is not a dict raises AttributeError,
   * setting `index` in a category that is not a dict raises TypeError.  The
   * stripped dimension has no title, and its category has the given index
   * and no labels; no other dimension changes.
   */
  function StripDimension(cDims: Fields, name: string, index: seq<Json>): (r: Result<Fields, Error>)
    ensures var cD := GetOr(cDims, name, Obj([]));
      && (!cD.Obj? ==> r == Err(AttributeError))
      && (cD.Obj? && !CategoryOf(cD.fields).Obj? ==> r == Err(TypeError))
      && (r.Ok? <==> cD.Obj? && CategoryOf(cD.fields).Obj?)
    ensures r.Ok? ==> forall k :: k != name ==> Get(r.value, k) == Get(cDims, k)
    ensures r.Ok? ==>
      && Get(r.value, name).Some? && Get(r.value, name).value.Obj?
      && var s := Get(r.value, name).value.fields;
      && Get(s, "label") == None
      && Get(s, "category").Some? && Get(s, "category").value.Obj?
      && Get(Get(s, "category").value.fields, "index") == Some(Arr(index))
      && Get(Get(s, "category").value.fields, "label") == None
  {
    var cD := GetOr(cDims, name, Obj([]));
    if !cD.Obj? then Err(AttributeError)
    else
      var cCat := CategoryOf(cD.fields);
      if !cCat.Obj? then Err(TypeError)
      else
        var s := Stripped(cD.fields, cCat.fields, index);
        StrippedShape(cD.fields, cCat.fields, index);
        SetEffect(cDims, name, Obj(s));
        Ok(Set(cDims, name, Obj(s)))
  }

  /** The compact copy's dimensions, the dimension map and the staged registry entries so far. */
  datatype Progress = Progress(cDims: Fields, dimMap: map<string, string>, staged: Fields)

  /** One turn of the loop over `dimension.id`. */
  function CompactStep(digest: CJson -> string, dims: Fields, p: Progress, id: Json): Result<Progress, Error> {
    if id.Arr? || id.Obj? then Err(TypeError)   // unhashable dict key
    else if !id.Str? then Err(NonStringDimensionId)
    else
      var name := id.s;
      var def :- Describe(dims, name);
      var fp := Fingerprint(digest, name, def.index, def.labels);
      var staged := AddNew(p.staged, fp, RegistryEntry(name, def));
      var cDims :- StripDimension(p.cDims, name, def.index);
      Ok(Progress(cDims, p.dimMap[name := fp], staged))
  }

  function CompactLoop(digest: CJson -> string, dims: Fields, ids: seq<Json>, p: Progress): Result<Progress, Error>
    decreases |ids|
  {
    if ids == [] then Ok(p)
    else
      var p' :- CompactStep(digest, dims, p, ids[0]);
      CompactLoop(digest, dims, ids[1..], p')
  }

  /** What `_compact_and_registry` returns. */
  datatype Compacted = Compacted(doc: Json, dimMap: map<string, string>, staged: Fields)

  /** `_compact_and_registry`: a document that is not a dataset passes through. */
  function Compact(digest: CJson -> string, ds: Json): Result<Compacted, Error> {
    var isDataset :- LooksLikeDataset(ds);
    if !isDataset then Ok(Compacted(ds, map[], []))
    else
      var dims := DimensionsOf(ds);
      var ids :- DimIds(dims);
      var p :- CompactLoop(digest, dims, ids, Progress(dims, map[], []));
      Ok(Compacted(Obj(Set(ds.fields, "dimension", Obj(p.cDims))), p.dimMap, p.staged))
  }

  // ---------- rehydration ----------

  /** `t[k] = v`, which raises unless `t` is a dict. */
  function SetItem(t: Json, k: string, v: Json): Result<Json, Error> {
    if t.Obj? then Ok(Obj(Set(t.fields, k, v))) else Err(TypeError)
  }

  /**
   * Put back into dimension `d` what registry entry `reg` holds: its index
   * if non-empty, its labels if non-empty, its title if non-empty.
   */
  function ReattachDim(d: Json, reg: Fields): (r: Result<Json, Error>)
    ensures !d.Obj? ==> r == Err(AttributeError)
    ensures d.Obj? ==>
      (r.Err? <==> (Truthy(GetOr(reg, "index", Null)) || Truthy(GetOr(reg, "labels", Null))) && !CategoryOf(d.fields).Obj?)
    ensures r.Ok? ==> r.value.Obj? && Get(r.value.fields, "category").Some?
    ensures r.Ok? ==> forall k :: k != "label" && k != "category" ==> Get(r.value.fields, k) == Get(d.fields, k)
  {
    if !d.Obj? then Err(AttributeError)
    else
      var storedIndex := GetOr(reg, "index", Null);     // `reg.get("index") or []` is truthy only when this is
      var labels := GetOr(reg, "labels", Null);
      var title := GetOr(reg, "dimension_label", Null);
      var cat :- if Truthy(storedIndex) then SetItem(CategoryOf(d.fields), "index", storedIndex) else Ok(CategoryOf(d.fields));
      var cat :- if Truthy(labels) then SetItem(cat, "label", labels) else Ok(cat);
      var d' := if Truthy(title) then Set(d.fields, "label", title) else d.fields;
      SetEffect(d.fields, "label", title);
      SetEffect(d', "category", cat);
      Ok(Obj(Set(d', "category", cat)))
  }

  /** Reattach dimension `name` of `dims` (a missing dimension is created). */
  function Reattach(dims: Fields, name: string, reg: Fields): Result<Fields, Error> {
    var d :- ReattachDim(GetOr(dims, name, Obj([])), reg);
    Ok(Set(dims, name, d))
  }

  /** One turn of the loop of `_rehydrate`; dimensions without a usable reference are skipped. */
  function RehydrateStep(registry: map<string, Bytes>, decode: Bytes -> Option<Json>, dimMap: map<string, string>,
                         dims: Fields, id: Json): Result<Fields, Error>
  {
    if id.Arr? || id.Obj? then Err(TypeError)   // unhashable dict key
    else if !id.Str? || id.s !in dimMap || dimMap[id.s] == "" || dimMap[id.s] !in registry then Ok(dims)
    else
      match decode(registry[dimMap[id.s]])
      case None => Err(DecodeError)
      case Some(reg) => if reg.Obj? then Reattach(dims, id.s, reg.fields) else Err(AttributeError)
  }

  function RehydrateLoop(registry: map<string, Bytes>, decode: Bytes -> Option<Json>, dimMap: map<string, string>,
                         dims: Fields, ids: seq<Json>): Result<Fields, Error>
    decreases |ids|
  {
    if ids == [] then Ok(dims)
    else
      var dims' :- RehydrateStep(registry, decode, dimMap, dims, ids[0]);
      RehydrateLoop(registry, decode, dimMap, dims', ids[1..])
  }

  /** `_rehydrate`, which is only ever called on a document that looks like a dataset. */
  function Rehydrate(registry: map<string, Bytes>, decode: Bytes -> Option<Json>, ds: Json, dimMap: map<string, string>): (r: Result<Json, Error>)
    requires LooksLikeDataset(ds) == Ok(true)
    ensures r.Ok? ==> LooksLikeDataset(r.value) == Ok(true)
    ensures r.Ok? ==> forall k :: k != "dimension" ==> Get(r.value.fields, k) == Get(ds.fields, k)
  {
    var dims := DimensionsOf(ds);
    var ids :- DimIds(dims);
    var dims' :- RehydrateLoop(registry, decode, dimMap, dims, ids);
    SetEffect(ds.fields, "dimension", Obj(dims'));
    Ok(Obj(Set(ds.fields, "dimension", Obj(dims'))))
  }

  // ---------- what compaction produces ----------

  /** The fingerprint recorded for dimension `name` ("" if it cannot be described). */
  function FpOf(digest: CJson -> string, dims: Fields, name: string): string {
    match Describe(dims, name)
    case Ok(def) => Fingerprint(digest, name, def.index, def.labels)
    case Err(_) => ""
  }

  /** The canonical payload whose digest is the fingerprint of dimension `name` (null if it cannot be described). */
  function PayloadOf(dims: Fields, name: string): CJson {
    match Describe(dims, name)
    case Ok(def) => Canon(FingerprintPayload(name, def.index, def.labels))
    case Err(_) => CNull
  }

  /**
   * What a round trip needs of SHA-1 on one dataset: among the dimensions
   * `names`, different payloads get different digests, and no digest is
   * empty.  It is a premise about the values at hand, not about the hash in
   * general.
   */
  ghost predicate NoCollision(digest: CJson -> string, dims: Fields, names: seq<string>) {
    && (forall a, b :: a in names && b in names && PayloadOf(dims, a) != PayloadOf(dims, b) ==>
          digest(PayloadOf(dims, a)) != digest(PayloadOf(dims, b)))
    && (forall a :: a in names ==> digest(PayloadOf(dims, a)) != "")
  }

  /** Without a collision, visited names get non-empty fingerprints, distinct for distinct names. */
  lemma DistinctFingerprints(digest: CJson -> string, dims: Fields, names: seq<string>, a: string, b: string)
    requires NoCollision(digest, dims, names)
    requires a in names && b in names
    requires Describe(dims, a).Ok? && Describe(dims, b).Ok?
    ensures FpOf(digest, dims, a) != ""
    ensures a != b ==> FpOf(digest, dims, a) != FpOf(digest, dims, b)
  {
    if a != b {
      var da, db := Describe(dims, a).value, Describe(dims, b).value;
      FingerprintSeparatesNames(a, da.index, da.labels, b, db.index, db.labels);
    }
  }

  /** The registry entry staged for dimension `name` (null if it cannot be described). */
  function EntryOf(dims: Fields, name: string): Json {
    match Describe(dims, name)
    case Ok(def) => RegistryEntry(name, def)
    case Err(_) => Null
  }

  /** The title of dimension `name` as compaction reads it (null if it cannot be described). */
  function TitleOf(dims: Fields, name: string): Json {
    match Describe(dims, name)
    case Ok(def) => def.title
    case Err(_) => Null
  }

  /** The compact form of dimension `name` (null if it cannot be described). */
  function StrippedOf(dims: Fields, name: string): Json {
    match Describe(dims, name)
    case Ok(def) =>
      var d := GetOr(dims, name, Obj([])).fields;
      Obj(Stripped(d, CategoryOf(d).fields, def.index))
    case Err(_) => Null
  }

  /** The names among the visited ids (an id that is not a string stands for ""). */
  function Names(ids: seq<Json>): (r: seq<string>)
    ensures |r| == |ids| && forall i :: 0 <= i < |ids| && ids[i].Str? ==> r[i] == ids[i].s
  {
    seq(|ids|, i requires 0 <= i < |ids| => if ids[i].Str? then ids[i].s else "")
  }

  lemma NamesCons(ids: seq<Json>)
    requires ids != [] && ids[0].Str?
    ensures Names(ids) == [ids[0].s] + Names(ids[1..])
  {
    assert Names(ids)[1..] == Names(ids[1..]);
  }

  /** The names visited after `done`, one id at a time. */
  lemma NamesAfter(done: seq<string>, ids: seq<Json>)
    requires ids != [] && ids[0].Str?
    ensures done + [ids[0].s] + Names(ids[1..]) == done + Names(ids)
  {
    NamesCons(ids);
  }

  /** The names compaction visits in a dataset. */
  function VisitedNames(ds: Json): seq<string>
    requires LooksLikeDataset(ds) == Ok(true)
  {
    match DimIds(DimensionsOf(ds))
    case Ok(ids) => Names(ids)
    case Err(_) => []
  }

  /** The (fingerprint, entry) pair of every name visited, in visiting order. */
  function Pairs(digest: CJson -> string, dims: Fields, done: seq<string>): (r: Fields)
    ensures |r| == |done|
  {
    seq(|done|, i requires 0 <= i < |done| => (FpOf(digest, dims, done[i]), EntryOf(dims, done[i])))
  }

  /**
   * The compact copy after visiting the names `done`: each of them can be
   * described and is stripped in the copy, and nothing else is touched.
   */
  ghost predicate CopyInv(dims: Fields, done: seq<string>, cDims: Fields) {
    && (forall k :: k in done ==> Describe(dims, k).Ok?)
    && (forall k :: Get(cDims, k) == if k in done then Some(StrippedOf(dims, k)) else Get(dims, k))
  }

  /** The dimension map after visiting `done`: each name visited, with its fingerprint. */
  ghost predicate MapInv(digest: CJson -> string, dims: Fields, done: seq<string>, dimMap: map<string, string>) {
    dimMap == (map k | k in done :: FpOf(digest, dims, k))
  }

  /** The staged entries after visiting `done`: each fingerprint with the entry of the first name that has it. */
  ghost predicate StagedInv(digest: CJson -> string, dims: Fields, done: seq<string>, staged: Fields) {
    staged == Dedup(Pairs(digest, dims, done))
  }

  ghost predicate CompactInv(digest: CJson -> string, dims: Fields, done: seq<string>, p: Progress) {
    && CopyInv(dims, done, p.cDims)
    && MapInv(digest, dims, done, p.dimMap)
    && StagedInv(digest, dims, done, p.staged)
  }

  /** The compact form of a dimension, seen through `Get`. */
  lemma StrippedShape(d: Fields, cat: Fields, index: seq<Json>)
    ensures var s := Stripped(d, cat, index);
      var c := Delete(Set(cat, "index", Arr(index)), "label");
      && Get(s, "label") == None
      && Get(s, "category") == Some(Obj(c))
      && Get(c, "index") == Some(Arr(index))
      && Get(c, "label") == None
      && (forall k :: k != "category" && k != "label" ==> Get(s, k) == Get(d, k))
      && (forall k :: k != "index" && k != "label" ==> Get(c, k) == Get(cat, k))
  {
    var c0 := Set(cat, "index", Arr(index));
    var c := Delete(c0, "label");
    var s0 := Set(d, "category", Obj(c));
    forall k ensures Get(c, k) == if k == "label" then None else if k == "index" then Some(Arr(index)) else Get(cat, k) {
      GetDelete(c0, "label", k);
      GetSet(cat, "index", Arr(index), k);
    }
    forall k ensures Get(Delete(s0, "label"), k) == if k == "label" then None else if k == "category" then Some(Obj(c)) else Get(d, k) {
      GetDelete(s0, "label", k);
      GetSet(d, "category", Obj(c), k);
    }
  }

  /** Stripping a stripped dimension again changes nothing. */
  lemma StrippedIdempotent(d: Fields, cat: Fields, index: seq<Json>)
    ensures var s := Stripped(d, cat, index);
      CategoryOf(s).Obj? && Stripped(s, CategoryOf(s).fields, index) == s
  {
    var s := Stripped(d, cat, index);
    var c := Delete(Set(cat, "index", Arr(index)), "label");
    StrippedShape(d, cat, index);
    assert c != [];
    assert CategoryOf(s) == Obj(c);
    SetUnchanged(c, "index", Arr(index));
    DeleteAbsent(c, "label");
    SetUnchanged(s, "category", Obj(c));
    DeleteAbsent(s, "label");
  }

  /** One turn keeps `CopyInv`, with one more name done. */
  lemma CopyStep(digest: CJson -> string, dims: Fields, done: seq<string>, p: Progress, id: Json)
    requires CopyInv(dims, done, p.cDims)
    requires CompactStep(digest, dims, p, id).Ok?
    ensures id.Str? && CopyInv(dims, done + [id.s], CompactStep(digest, dims, p, id).value.cDims)
  {
    var name := id.s;
    var def := Describe(dims, name).value;
    var p1 := CompactStep(digest, dims, p, id).value;
    var done1 := done + [name];
    var d := GetOr(dims, name, Obj([])).fields;
    var cD := GetOr(p.cDims, name, Obj([]));
    if name in done {
      StrippedIdempotent(d, CategoryOf(d).fields, def.index);
      assert cD == StrippedOf(dims, name);
    } else {
      assert cD == GetOr(dims, name, Obj([]));
    }
    assert p1.cDims == Set(p.cDims, name, StrippedOf(dims, name));
    forall k ensures Get(p1.cDims, k) == if k in done1 then Some(StrippedOf(dims, k)) else Get(dims, k) {
      GetSet(p.cDims, name, StrippedOf(dims, name), k);
    }
  }

  /** One turn keeps `MapInv` and `StagedInv`, with one more name done. */
  lemma RecordStep(digest: CJson -> string, dims: Fields, done: seq<string>, p: Progress, id: Json)
    requires MapInv(digest, dims, done, p.dimMap) && StagedInv(digest, dims, done, p.staged)
    requires CompactStep(digest, dims, p, id).Ok?
    ensures id.Str?
    ensures MapInv(digest, dims, done + [id.s], CompactStep(digest, dims, p, id).value.dimMap)
    ensures StagedInv(digest, dims, done + [id.s], CompactStep(digest, dims, p, id).value.staged)
  {
    var name := id.s;
    var def := Describe(dims, name).value;
    var fp := Fingerprint(digest, name, def.index, def.labels);
    assert FpOf(digest, dims, name) == fp;
    var entry := RegistryEntry(name, def);
    assert EntryOf(dims, name) == entry;
    var done1 := done + [name];
    var pairs1 := Pairs(digest, dims, done1);
    assert pairs1[..|done|] == Pairs(digest, dims, done);
    assert pairs1[|done|] == (fp, entry);
  }

  /**
   * The loop keeps any property of the state that one turn keeps, with the
   * names visited so far; every id it visits is a string.
   */
  lemma {:induction false} LoopKeeps(digest: CJson -> string, dims: Fields, ids: seq<Json>, done: seq<string>, p: Progress,
                                      inv: (seq<string>, Progress) -> bool)
    requires inv(done, p)
    requires CompactLoop(digest, dims, ids, p).Ok?
    requires forall d, q, id :: inv(d, q) && CompactStep(digest, dims, q, id).Ok? ==>
      id.Str? && inv(d + [id.s], CompactStep(digest, dims, q, id).value)
    ensures forall i :: 0 <= i < |ids| ==> ids[i].Str?
    ensures inv(done + Names(ids), CompactLoop(digest, dims, ids, p).value)
    decreases |ids|
  {
    if ids != [] {
      var p1 := CompactStep(digest, dims, p, ids[0]).value;
      var done1 := done + [ids[0].s];
      assert CompactLoop(digest, dims, ids, p) == CompactLoop(digest, dims, ids[1..], p1);
      LoopKeeps(digest, dims, ids[1..], done1, p1, inv);
      forall i | 0 < i < |ids| ensures ids[i].Str? {
        assert ids[i] == ids[1..][i - 1];
      }
      NamesCons(ids);
      assert done1 + Names(ids[1..]) == done + Names(ids);
    } else {
      assert done + Names(ids) == done;
    }
  }

  /** The whole loop keeps `CompactInv`; every id it visits is a string. */
  lemma CompactLoopInv(digest: CJson -> string, dims: Fields, ids: seq<Json>, done: seq<string>, p: Progress)
    requires CompactInv(digest, dims, done, p)
    requires CompactLoop(digest, dims, ids, p).Ok?
    ensures forall i :: 0 <= i < |ids| ==> ids[i].Str?
    ensures CompactInv(digest, dims, done + Names(ids), CompactLoop(digest, dims, ids, p).value)
  {
    var copy := (d, q: Progress) => CopyInv(dims, d, q.cDims);
    forall d, q, id | copy(d, q) && CompactStep(digest, dims, q, id).Ok?
      ensures id.Str? && copy(d + [id.s], CompactStep(digest, dims, q, id).value)
    {
      CopyStep(digest, dims, d, q, id);
    }
    LoopKeeps(digest, dims, ids, done, p, copy);
    var record := (d, q: Progress) => MapInv(digest, dims, d, q.dimMap) && StagedInv(digest, dims, d, q.staged);
    forall d, q, id | record(d, q) && CompactStep(digest, dims, q, id).Ok?
      ensures id.Str? && record(d + [id.s], CompactStep(digest, dims, q, id).value)
    {
      RecordStep(digest, dims, d, q, id);
    }
    LoopKeeps(digest, dims, ids, done, p, record);
  }
}
