/**
 * The two pure helpers of the archive that look at one JSON-stat dimension:
 * `_ordered_index_list`, which turns `category.index` (a list, a dict of
 * key -> position, or missing) into an explicit list of category keys, and
 * `_fingerprint_dimension`, the content address of a dimension definition.
 */
module Dimension {
  import opened Wrappers
  import opened Json
  import TextOrder

  /** What goes wrong, named after the Python exception that is raised. */
  datatype Error =
    | AttributeError        // `.get` called on a value that is not a dict
    | TypeError             // `<` between unorderable values, `x[k] = v` on a non-dict, unhashable dict key
    | DecodeError           // stored bytes that do not decompress and parse
    | NonStringDimensionId  // a `dimension.id` entry that is a number, a boolean or null (not modelled)

  // ---------- ordering category positions ----------

  /** Numbers and booleans compare with each other in Python (`True == 1`). */
  predicate Numeric(j: Json) {
    j.Num? || j.Bool?
  }

  function NumValue(j: Json): real
    requires Numeric(j)
  {
    if j.Num? then j.n else if j.b then 1.0 else 0.0
  }

  /** Python's `a < b` on the position values Python can order. */
  predicate PosLess(a: Json, b: Json) {
    if Numeric(a) && Numeric(b) then NumValue(a) < NumValue(b)
    else if a.Str? && b.Str? then TextOrder.Less(a.s, b.s)
    else false
  }

  lemma PosLessAsymmetric(a: Json, b: Json)
    requires PosLess(a, b)
    ensures !PosLess(b, a)
  {
    if a.Str? && b.Str? && !Numeric(a) {
      TextOrder.Asymmetric(a.s, b.s);
    }
  }

  /**
   * `sorted(idx.items(), key=lambda kv: kv[1])` raises TypeError as soon as two
   * positions of different kinds meet; with two or more items that happens
   * unless all positions are numbers or all are strings.
   */
  predicate Orderable(f: Fields) {
    || |f| <= 1
    || (forall i :: 0 <= i < |f| ==> Numeric(f[i].1))
    || (forall i :: 0 <= i < |f| ==> f[i].1.Str?)
  }

  /** No item has a smaller position than the item before it. */
  predicate SortedByPosition(f: Fields) {
    forall i :: 0 < i < |f| ==> !PosLess(f[i].1, f[i - 1].1)
  }

  /** Insert an item after every item whose position is not greater. */
  function InsertByPosition(e: (string, Json), s: Fields): (r: Fields)
    requires SortedByPosition(s)
    ensures SortedByPosition(r)
    ensures multiset(r) == multiset(s) + multiset{e}
    ensures r[0] == e || (s != [] && r[0] == s[0])
  {
    if s == [] then [e]
    else if PosLess(e.1, s[0].1) then
      PosLessAsymmetric(e.1, s[0].1);
      [e] + s
    else
      assert s == [s[0]] + s[1..];
      [s[0]] + InsertByPosition(e, s[1..])
  }

  /** The items in ascending position order (an insertion sort, stable like Python's). */
  function SortByPosition(f: Fields): (r: Fields)
    ensures SortedByPosition(r)
    ensures multiset(r) == multiset(f)
  {
    if f == [] then []
    else
      assert f == f[..|f| - 1] + [f[|f| - 1]];
      InsertByPosition(f[|f| - 1], SortByPosition(f[..|f| - 1]))
  }

  // ---------- stability ----------

  /** Two positions Python finds equal: the same number (`True == 1`), or the same string. */
  predicate SamePos(a: Json, b: Json) {
    || (Numeric(a) && Numeric(b) && NumValue(a) == NumValue(b))
    || (a.Str? && b.Str? && a.s == b.s)
  }

  /** The items whose position equals `v`, in their order. */
  function WithPos(f: Fields, v: Json): Fields {
    if f == [] then []
    else (if SamePos(f[0].1, v) then [f[0]] else []) + WithPos(f[1..], v)
  }

  /** A position of the kind `num` selects: a number (or boolean), or a string. */
  predicate OfKind(j: Json, num: bool) {
    if num then Numeric(j) else j.Str?
  }

  /** Every position is of the one kind `num`. */
  predicate OneKind(f: Fields, num: bool) {
    forall i :: 0 <= i < |f| ==> OfKind(f[i].1, num)
  }

  lemma WithPosCons(x: (string, Json), r: Fields, v: Json)
    ensures WithPos([x] + r, v) == (if SamePos(x.1, v) then [x] else []) + WithPos(r, v)
  {
    assert ([x] + r)[0] == x && ([x] + r)[1..] == r;
  }

  lemma {:induction false} WithPosAppend(a: Fields, b: Fields, v: Json)
    ensures WithPos(a + b, v) == WithPos(a, v) + WithPos(b, v)
  {
    if a == [] {
      assert a + b == b;
    } else {
      assert a + b == [a[0]] + (a[1..] + b);
      WithPosCons(a[0], a[1..] + b, v);
      WithPosAppend(a[1..], b, v);
    }
  }

  /** Positions of one kind that are not in descending order are ascending or equal. */
  lemma NotLessOfKind(a: Json, b: Json, num: bool)
    requires OfKind(a, num) && OfKind(b, num)
    requires !PosLess(b, a)
    ensures PosLess(a, b) || SamePos(a, b)
  {
    if !num {
      TextOrder.Total(a.s, b.s);
    }
  }

  /** Below one of two equal positions is below the other. */
  lemma LessThenSame(a: Json, b: Json, c: Json, num: bool)
    requires OfKind(a, num) && OfKind(b, num) && OfKind(c, num)
    requires PosLess(a, b)
    ensures SamePos(b, c) ==> PosLess(a, c)
    ensures PosLess(b, c) ==> PosLess(a, c)
  {
    if !num && PosLess(b, c) {
      TextOrder.Transitive(a.s, b.s, c.s);
    }
  }

  /**
   * In a sorted list whose first position is above that of `e`, no item has
   * a position equal to that of `e`.
   */
  lemma {:induction false} NoneEqualAbove(e: (string, Json), s: Fields, v: Json, num: bool)
    requires SortedByPosition(s) && OneKind(s, num) && OfKind(e.1, num)
    requires s != [] ==> PosLess(e.1, s[0].1)
    requires SamePos(e.1, v)
    ensures WithPos(s, v) == []
  {
    if s != [] {
      if !num {
        TextOrder.Irreflexive(v.s);
      }
      assert !SamePos(s[0].1, v);
      if |s| > 1 {
        NotLessOfKind(s[0].1, s[1].1, num);
        LessThenSame(e.1, s[0].1, s[1].1, num);
      }
      NoneEqualAbove(e, s[1..], v, num);
    }
  }

  /** Inserting an item puts it after every item with an equal position. */
  lemma {:induction false} InsertStable(e: (string, Json), s: Fields, v: Json, num: bool)
    requires SortedByPosition(s) && OneKind(s, num) && OfKind(e.1, num)
    ensures WithPos(InsertByPosition(e, s), v) == WithPos(s, v) + WithPos([e], v)
  {
    if s == [] {
      assert InsertByPosition(e, s) == [e];
    } else if PosLess(e.1, s[0].1) {
      assert InsertByPosition(e, s) == [e] + s;
      if SamePos(e.1, v) {
        NoneEqualAbove(e, s, v, num);
      }
      WithPosAppend([e], s, v);
    } else {
      assert InsertByPosition(e, s) == [s[0]] + InsertByPosition(e, s[1..]);
      assert SortedByPosition(s[1..]) && OneKind(s[1..], num);
      InsertStable(e, s[1..], v, num);
      InsertStableBehind(s, InsertByPosition(e, s[1..]), [e], v);
    }
  }

  /** Putting the first item of `s` in front of `rest` keeps it in front of what `rest` selects. */
  lemma InsertStableBehind(s: Fields, rest: Fields, tail: Fields, v: Json)
    requires s != []
    requires WithPos(rest, v) == WithPos(s[1..], v) + WithPos(tail, v)
    ensures WithPos([s[0]] + rest, v) == WithPos(s, v) + WithPos(tail, v)
  {
    var head := if SamePos(s[0].1, v) then [s[0]] else [];
    WithPosCons(s[0], rest, v);
    assert WithPos(s, v) == head + WithPos(s[1..], v);
    ConcatAssoc(head, WithPos(s[1..], v), WithPos(tail, v));
  }

  lemma ConcatAssoc(a: Fields, b: Fields, c: Fields)
    ensures a + (b + c) == (a + b) + c
  {
  }

  /** Sorting keeps the items, so it keeps their kind. */
  lemma SameKindAfterSort(f: Fields, num: bool)
    requires OneKind(f, num)
    ensures OneKind(SortByPosition(f), num)
  {
    var s := SortByPosition(f);
    forall i | 0 <= i < |s| ensures OfKind(s[i].1, num) {
      assert s[i] in multiset(f);
      var j :| 0 <= j < |f| && f[j] == s[i];
    }
  }

  lemma {:induction false} SortStableOfKind(f: Fields, v: Json, num: bool)
    requires OneKind(f, num)
    ensures WithPos(SortByPosition(f), v) == WithPos(f, v)
  {
    if f != [] {
      var init, last := f[..|f| - 1], f[|f| - 1];
      assert OneKind(init, num);
      SortStableOfKind(init, v, num);
      var s := SortByPosition(init);
      assert SortByPosition(f) == InsertByPosition(last, s);
      SameKindAfterSort(init, num);
      InsertStable(last, s, v, num);
      assert f == init + [last];
      WithPosAppend(init, [last], v);
    }
  }

  /**
   * Sorting is stable, as Python's `sorted` is: the items with any one
   * position keep the order they had, when the positions can be sorted at all.
   */
  lemma SortStable(f: Fields)
    requires Orderable(f)
    ensures forall v :: WithPos(SortByPosition(f), v) == WithPos(f, v)
  {
    forall v ensures WithPos(SortByPosition(f), v) == WithPos(f, v) {
      if |f| <= 1 {
        assert f == [] || f == [] + [f[0]];
      } else if forall i :: 0 <= i < |f| ==> Numeric(f[i].1) {
        SortStableOfKind(f, v, true);
      } else {
        SortStableOfKind(f, v, false);
      }
    }
  }

  // ---------- _ordered_index_list ----------

  /**
   * The category keys of a dimension, in order: a list `index` as it is, a
   * dict `index` by ascending position (keys with equal positions in their
   * own order), else the keys of a dict `label` in
   * insertion order, else nothing.
   */
  function OrderedIndexList(cat: Json): (r: Result<seq<Json>, Error>)
    ensures !cat.Obj? ==> r == Err(AttributeError)
    ensures cat.Obj? && Get(cat.fields, "index").Some? && Get(cat.fields, "index").value.Arr? ==>
      r == Ok(Get(cat.fields, "index").value.items)
    ensures cat.Obj? && Get(cat.fields, "index").Some? && Get(cat.fields, "index").value.Obj? ==>
      var pos := Get(cat.fields, "index").value.fields;
      if Orderable(pos) then
        && r.Ok?
        && |r.value| == |pos|
        && (exists sorted: Fields ::
              && SortedByPosition(sorted)
              && multiset(sorted) == multiset(pos)
              && (forall v :: WithPos(sorted, v) == WithPos(pos, v))
              && r.value == Keys(sorted))
      else r == Err(TypeError)
    ensures cat.Obj? && !(Get(cat.fields, "index").Some? && (Get(cat.fields, "index").value.Arr? || Get(cat.fields, "index").value.Obj?)) ==>
      r == Ok(match Get(cat.fields, "label") case Some(Obj(l)) => Keys(l) case _ => [])
  {
    if !cat.Obj? then Err(AttributeError)
    else match Get(cat.fields, "index")
      case Some(Arr(items)) => Ok(items)
      case Some(Obj(pos)) =>
        if Orderable(pos) then
          var sorted := SortByPosition(pos);
          SortStable(pos);
          assert |sorted| == |multiset(sorted)| == |pos|;
          Ok(Keys(sorted))
        else Err(TypeError)
      case _ =>
        match Get(cat.fields, "label")
        case Some(Obj(l)) => Ok(Keys(l))
        case _ => Ok([])
  }

  // ---------- _fingerprint_dimension ----------

  /**
   * The value that is serialized (keys sorted) and hashed.  `labels or None`:
   * any falsy labels value, an empty dict in particular, is hashed as null.
   * Up to key order it is a dict of exactly these three keys.
   */
  function FingerprintPayload(name: string, index: seq<Json>, labels: Json): (r: Json)
    ensures Canon(r) == CObj(map["labels" := Canon(if Truthy(labels) then labels else Null),
                                 "index" := Canon(Arr(index)), "dimension" := CStr(name)])
  {
    var l := if Truthy(labels) then labels else Null;
    var f := [("dimension", Str(name)), ("index", Arr(index)), ("labels", l)];
    assert f[2..][1..] == [];
    assert CanonFields(f[2..]) == map["labels" := Canon(l)];
    assert f[1..][1..] == f[2..];
    assert CanonFields(f[1..]) == map["labels" := Canon(l), "index" := Canon(Arr(index))];
    assert CanonFields(f) == map["labels" := Canon(l), "index" := Canon(Arr(index)), "dimension" := CStr(name)];
    Obj(f)
  }

  /**
   * The fingerprint of a dimension definition.  `digest` stands for SHA-1 of
   * the sorted-key JSON text, which is determined by the canonical value.
   */
  function Fingerprint(digest: CJson -> string, name: string, index: seq<Json>, labels: Json): (r: string)
    ensures r == digest(CObj(map["labels" := Canon(if Truthy(labels) then labels else Null),
                                 "index" := Canon(Arr(index)), "dimension" := CStr(name)]))
  {
    digest(Canon(FingerprintPayload(name, index, labels)))
  }

  /** An empty label dict is fingerprinted like a missing one. */
  lemma EmptyLabelsLikeAbsent(digest: CJson -> string, name: string, index: seq<Json>)
    ensures Fingerprint(digest, name, index, Obj([])) == Fingerprint(digest, name, index, Null)
  {
  }

  /** The order in which the labels dict lists its keys does not matter. */
  lemma LabelOrderIrrelevant(digest: CJson -> string, name: string, index: seq<Json>, l1: Json, l2: Json)
    requires Canon(l1) == Canon(l2)
    ensures Fingerprint(digest, name, index, l1) == Fingerprint(digest, name, index, l2)
  {
    CanonTruthy(l1, l2);
  }

  /**
   * The name is part of what is hashed: dimensions with different names have
   * different payloads, so only a collision of the hash can give them one
   * fingerprint.
   */
  lemma FingerprintSeparatesNames(n1: string, i1: seq<Json>, l1: Json, n2: string, i2: seq<Json>, l2: Json)
    requires n1 != n2
    ensures Canon(FingerprintPayload(n1, i1, l1)) != Canon(FingerprintPayload(n2, i2, l2))
  {
    var c1, c2 := Canon(FingerprintPayload(n1, i1, l1)), Canon(FingerprintPayload(n2, i2, l2));
    assert c1.m["dimension"] != c2.m["dimension"];
  }
}
