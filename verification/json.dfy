/**
 * JSON values as the archive store handles them: the Python values that
 * `json.loads` produces (dict, list, str, number, bool, None).
 *
 * A Python dict is an association list that remembers insertion order, so
 * that `list(d.keys())` and the effect of `d[k] = v` / `del d[k]` on the
 * order of keys are modelled exactly.  `Canon` forgets that order: two values
 * with the same `Canon` are equal as Python values (`==`), which is also what
 * `json.dumps(..., sort_keys=True)` depends on.
 */
module Json {
  import opened Wrappers

  datatype Json =
    | Null
    | Bool(b: bool)
    | Num(n: real)   // JSON integers and fractions alike
    | Str(s: string)
    | Arr(items: seq<Json>)
    | Obj(fields: Fields)

  /** The items of a dict, in insertion order. */
  type Fields = seq<(string, Json)>

  /** Python truthiness (`if x:`, `x or y`). */
  predicate Truthy(j: Json) {
    match j
    case Null => false
    case Bool(b) => b
    case Num(n) => n != 0.0
    case Str(s) => s != ""
    case Arr(items) => items != []
    case Obj(fields) => fields != []
  }

  /** `d.get(k)`: the value stored under `k`, if any. */
  function Get(f: Fields, k: string): (r: Option<Json>)
    ensures r.Some? ==> (k, r.value) in f
  {
    if f == [] then None
    else if f[0].0 == k then Some(f[0].1)
    else Get(f[1..], k)
  }

  /** `d.get(k, default)`. */
  function GetOr(f: Fields, k: string, default: Json): Json {
    match Get(f, k)
    case Some(v) => v
    case None => default
  }

  /** `d[k] = v`: an existing key keeps its place, a new key goes last. */
  function Set(f: Fields, k: string, v: Json): Fields {
    if f == [] then [(k, v)]
    else if f[0].0 == k then [(k, v)] + f[1..]
    else [f[0]] + Set(f[1..], k, v)
  }

  /** `del d[k]` when `k in d`, and nothing otherwise. */
  function Delete(f: Fields, k: string): Fields {
    if f == [] then []
    else if f[0].0 == k then Delete(f[1..], k)
    else [f[0]] + Delete(f[1..], k)
  }

  /** The keys of a dict, as JSON strings, in insertion order. */
  function Keys(f: Fields): (r: seq<Json>)
    ensures |r| == |f|
    ensures forall i :: 0 <= i < |f| ==> r[i] == Str(f[i].0)
  {
    seq(|f|, i requires 0 <= i < |f| => Str(f[i].0))
  }

  // ---------- lookups after updates ----------

  lemma {:induction false} GetSet(f: Fields, k: string, v: Json, k': string)
    ensures Get(Set(f, k, v), k') == if k' == k then Some(v) else Get(f, k')
  {
    if f != [] && f[0].0 != k {
      GetSet(f[1..], k, v, k');
    }
  }

  /** `d[k] = v` changes what is found under `k` and nothing else. */
  lemma SetEffect(f: Fields, k: string, v: Json)
    ensures forall k' :: Get(Set(f, k, v), k') == if k' == k then Some(v) else Get(f, k')
  {
    forall k' ensures Get(Set(f, k, v), k') == if k' == k then Some(v) else Get(f, k') {
      GetSet(f, k, v, k');
    }
  }

  lemma {:induction false} GetDelete(f: Fields, k: string, k': string)
    ensures Get(Delete(f, k), k') == if k' == k then None else Get(f, k')
  {
    if f != [] {
      GetDelete(f[1..], k, k');
    }
  }

  /** Appending a new item: what was there is still found first. */
  lemma {:induction false} GetAppend(f: Fields, k: string, v: Json, k': string)
    ensures Get(f + [(k, v)], k') == if Get(f, k').Some? then Get(f, k') else if k' == k then Some(v) else None
  {
    if f != [] {
      assert (f + [(k, v)])[1..] == f[1..] + [(k, v)];
      GetAppend(f[1..], k, v, k');
    }
  }

  /** Storing the value a key already has changes nothing. */
  lemma {:induction false} SetUnchanged(f: Fields, k: string, v: Json)
    requires Get(f, k) == Some(v)
    ensures Set(f, k, v) == f
  {
    if f[0].0 != k {
      SetUnchanged(f[1..], k, v);
    }
  }

  /** Deleting a missing key changes nothing. */
  lemma {:induction false} DeleteAbsent(f: Fields, k: string)
    requires Get(f, k) == None
    ensures Delete(f, k) == f
  {
    if f != [] {
      DeleteAbsent(f[1..], k);
    }
  }

  /** `if k not in d: d[k] = v`: the first value given for a key is the one kept. */
  function AddNew(f: Fields, k: string, v: Json): Fields {
    if Get(f, k).Some? then f else f + [(k, v)]
  }

  /** The dict built by `AddNew` over a list of items, in order. */
  function Dedup(items: Fields): Fields
    decreases |items|
  {
    if items == [] then []
    else
      var last := items[|items| - 1];
      AddNew(Dedup(items[..|items| - 1]), last.0, last.1)
  }

  /** Deduplicating keeps, for every key, the value its first occurrence had. */
  lemma {:induction false} GetDedup(items: Fields, k: string)
    ensures Get(Dedup(items), k) == Get(items, k)
    decreases |items|
  {
    if items != [] {
      var init, last := items[..|items| - 1], items[|items| - 1];
      GetDedup(init, k);
      GetDedup(init, last.0);
      assert items == init + [last];
      GetAppend(init, last.0, last.1, k);
      if Get(Dedup(init), last.0).None? {
        GetAppend(Dedup(init), last.0, last.1, k);
      }
    }
  }

  /** A key is found exactly when some item has it. */
  lemma {:induction false} GetSomeIff(f: Fields, k: string)
    ensures Get(f, k).Some? <==> exists i :: 0 <= i < |f| && f[i].0 == k
  {
    if f != [] {
      GetSomeIff(f[1..], k);
      if f[0].0 != k && Get(f[1..], k).Some? {
        var i :| 0 <= i < |f[1..]| && f[1..][i].0 == k;
        assert f[i + 1].0 == k;
      }
      if exists i :: 0 <= i < |f| && f[i].0 == k {
        var i :| 0 <= i < |f| && f[i].0 == k;
        if i > 0 && f[0].0 != k {
          assert f[1..][i - 1].0 == k;
        }
      }
    }
  }

  /** An item whose key no earlier item has is what `Get` finds. */
  lemma {:induction false} GetFirst(f: Fields, i: nat)
    requires i < |f|
    requires forall j :: 0 <= j < i ==> f[j].0 != f[i].0
    ensures Get(f, f[i].0) == Some(f[i].1)
  {
    if i > 0 {
      forall j | 0 <= j < i - 1 ensures f[1..][j].0 != f[1..][i - 1].0 {
        assert f[1..][j] == f[j + 1];
      }
      GetFirst(f[1..], i - 1);
    }
  }

  // ---------- equality up to key order ----------

  /** A JSON value whose dicts are maps: key order is forgotten. */
  datatype CJson =
    | CNull
    | CBool(b: bool)
    | CNum(n: real)
    | CStr(s: string)
    | CArr(items: seq<CJson>)
    | CObj(m: map<string, CJson>)

  function Canon(j: Json): CJson {
    match j
    case Null => CNull
    case Bool(b) => CBool(b)
    case Num(n) => CNum(n)
    case Str(s) => CStr(s)
    case Arr(items) => CArr(seq(|items|, i requires 0 <= i < |items| => Canon(items[i])))
    case Obj(fields) => CObj(CanonFields(fields))
  }

  function CanonFields(f: Fields): map<string, CJson>
    decreases f
  {
    if f == [] then map[]
    else
      var k, v := f[0].0, f[0].1;
      assert v < f[0];
      CanonFields(f[1..])[k := Canon(v)]
  }

  /** The canonical map of a dict holds exactly what `Get` finds in it. */
  lemma {:induction false} CanonFieldsGet(f: Fields, k: string)
    ensures k in CanonFields(f) <==> Get(f, k).Some?
    ensures k in CanonFields(f) ==> CanonFields(f)[k] == Canon(Get(f, k).value)
  {
    if f != [] && f[0].0 != k {
      CanonFieldsGet(f[1..], k);
    }
  }

  lemma CanonFieldsSet(f: Fields, k: string, v: Json)
    ensures CanonFields(Set(f, k, v)) == CanonFields(f)[k := Canon(v)]
  {
    var a, b := CanonFields(Set(f, k, v)), CanonFields(f)[k := Canon(v)];
    forall k' ensures (k' in a <==> k' in b) && (k' in a ==> a[k'] == b[k']) {
      CanonFieldsGet(Set(f, k, v), k');
      CanonFieldsGet(f, k');
      GetSet(f, k, v, k');
    }
  }

  lemma CanonFieldsDelete(f: Fields, k: string)
    ensures CanonFields(Delete(f, k)) == CanonFields(f) - {k}
  {
    var a, b := CanonFields(Delete(f, k)), CanonFields(f) - {k};
    forall k' ensures (k' in a <==> k' in b) && (k' in a ==> a[k'] == b[k']) {
      CanonFieldsGet(Delete(f, k), k');
      CanonFieldsGet(f, k');
      GetDelete(f, k, k');
    }
  }

  /** Storing the value a key already has changes nothing, up to key order. */
  lemma CanonFieldsPresent(f: Fields, k: string, v: Json)
    requires Get(f, k) == Some(v)
    ensures CanonFields(f)[k := Canon(v)] == CanonFields(f)
  {
    CanonFieldsGet(f, k);
  }

  /**
   * Putting back what a dict held under `k` (or nothing, if it held nothing)
   * into a copy that lost `k` gives the dict back, up to key order.
   */
  lemma CanonFieldsPutBack(f: Fields, g: Fields, k: string, put: bool, v: Json)
    requires CanonFields(g) == CanonFields(f) - {k}
    requires if put then Get(f, k) == Some(v) else Get(f, k) == None
    ensures CanonFields(if put then Set(g, k, v) else g) == CanonFields(f)
  {
    CanonFieldsGet(f, k);
    if put {
      CanonFieldsSet(g, k, v);
      assert (CanonFields(f) - {k})[k := Canon(v)] == CanonFields(f);
    } else {
      assert CanonFields(f) - {k} == CanonFields(f);
    }
  }

  /** Truthiness does not depend on key order. */
  lemma CanonTruthy(a: Json, b: Json)
    requires Canon(a) == Canon(b)
    ensures Truthy(a) <==> Truthy(b)
  {
    match a
    case Obj(fa) =>
      if fa != [] {
        CanonFieldsGet(fa, fa[0].0);
      }
      if b.fields != [] {
        CanonFieldsGet(b.fields, b.fields[0].0);
      }
    case Arr(ia) =>
      assert |Canon(a).items| == |ia| && |Canon(b).items| == |b.items|;
    case _ =>
  }
}
