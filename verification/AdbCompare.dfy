/**
 Schema-driven comparison of objects and the search in sorted arrays.
 */
module AdbCompare {
  import opened Bytes
  import opened AdbValue
  import opened Orders

  datatype Mode = EXACT | TEMPLATE | INDEX

  /** A scalar kind, or a table with the kinds of its entries. An array has one
      kind, that of all its items. */
  datatype Schema =
    | Scalar(id: nat)
    | Table(numCompare: nat, kinds: seq<Schema>)

  /** The compare function of each scalar schema, on what the words stand for. */
  type ScalarCompare = (nat, Value, Value) -> int

  type Fields = seq<Value>

  /** adb_ro_val, entries counted from 0 */
  function Entry(o: Fields, i: nat): Value { if i < |o| then o[i] else NullValue }

  /** adb_ro_obj: what is no table reads as an empty one. */
  function Sub(v: Value): Fields { if v.Node? then v.fields else [] }

  /** adb_ro_kind */
  function Kind(s: Schema, i: nat): (k: Schema)
    requires s.Table? && s.kinds != []
    ensures k < s
  {
    if i < |s.kinds| then s.kinds[i] else s.kinds[|s.kinds| - 1]
  }

  function Max(a: nat, b: nat): nat { if a > b then a else b }

  /** Every table of the schema has at least one kind. */
  predicate Proper(s: Schema)
  {
    s.Table? ==> s.kinds != [] && forall i :: 0 <= i < |s.kinds| ==> Proper(s.kinds[i])
  }

  /** adb_ro_cmpobj */
  function CmpObj(c: ScalarCompare, s: Schema, t: Fields, o: Fields, mode: Mode): int
    requires s.Table? && Proper(s)
    decreases s, 1, 0
  {
    CmpFrom(c, s, t, o, mode, 0)
  }

  /** The loop of adb_ro_cmpobj from entry i on. */
  function CmpFrom(c: ScalarCompare, s: Schema, t: Fields, o: Fields, mode: Mode, i: nat): int
    requires s.Table? && Proper(s)
    decreases s, 0, Max(|t|, |o|) - i
  {
    if i >= Max(|t|, |o|) then 0
    else
      var isSet := Entry(t, i) != NullValue;
      var r := if mode == EXACT || isSet then CmpField(c, Kind(s, i), Entry(t, i), Entry(o, i), mode) else 0;
      if r != 0 then r
      else if mode == INDEX && !isSet then 0
      else if mode != EXACT && i + 1 >= s.numCompare then 0
      else CmpFrom(c, s, t, o, mode, i + 1)
  }

  /** adb_ro_cmp */
  function CmpField(c: ScalarCompare, k: Schema, a: Value, b: Value, mode: Mode): int
    requires Proper(k)
    decreases k, 2, 0
  {
    match k
    case Scalar(id) => c(id, a, b)
    case Table(_, _) => CmpObj(c, k, Sub(a), Sub(b), mode)
  }

  // ---- EXACT comparison is a total preorder ---------------------------------------

  ghost predicate ScalarsOrdered(c: ScalarCompare)
  {
    && (forall id, a, b :: c(id, a, b) < 0 <==> c(id, b, a) > 0)
    && (forall id, a, b, d :: c(id, a, b) <= 0 && c(id, b, d) <= 0 ==> c(id, a, d) <= 0)
  }

  lemma ScalarFlip(c: ScalarCompare, id: nat, a: Value, b: Value)
    requires ScalarsOrdered(c)
    ensures Opposite(c(id, a, b), c(id, b, a))
  {
  }

  lemma ScalarTrans(c: ScalarCompare, id: nat, a: Value, b: Value, d: Value)
    requires ScalarsOrdered(c)
    ensures Chained(c(id, a, b), c(id, b, d), c(id, a, d))
  {
    ScalarFlip(c, id, a, b);
    ScalarFlip(c, id, b, d);
    ScalarFlip(c, id, a, d);
    assert c(id, d, a) <= 0 && c(id, a, b) <= 0 ==> c(id, d, b) <= 0;
    assert c(id, b, d) <= 0 && c(id, d, a) <= 0 ==> c(id, b, a) <= 0;
  }

  predicate Opposite(x: int, y: int) { (x < 0 <==> y > 0) && (x > 0 <==> y < 0) }

  /** How the signs of two comparisons in a chain bind the third. */
  predicate Chained(xy: int, yz: int, xz: int) {
    && (xy <= 0 && yz <= 0 ==> xz <= 0)
    && (xy < 0 && yz <= 0 ==> xz < 0)
    && (xy <= 0 && yz < 0 ==> xz < 0)
  }

  /** The EXACT loop up to a common bound n, past which all entries are null. */
  function ExactFrom(c: ScalarCompare, s: Schema, a: Fields, b: Fields, i: nat, n: nat): int
    requires s.Table? && Proper(s)
    decreases n - i
  {
    if i >= n then 0
    else
      var r := CmpField(c, Kind(s, i), Entry(a, i), Entry(b, i), EXACT);
      if r != 0 then r else ExactFrom(c, s, a, b, i + 1, n)
  }

  lemma {:induction false} FieldReflexive(c: ScalarCompare, k: Schema, v: Value)
    requires Proper(k) && ScalarsOrdered(c)
    ensures CmpField(c, k, v, v, EXACT) == 0
    decreases k, 1, 0
  {
    hide ScalarsOrdered;
    if k.Scalar? {
      ScalarFlip(c, k.id, v, v);
    } else {
      ObjReflexive(c, k, Sub(v), 0);
    }
  }

  lemma {:induction false} ObjReflexive(c: ScalarCompare, s: Schema, o: Fields, i: nat)
    requires s.Table? && Proper(s) && ScalarsOrdered(c)
    ensures CmpFrom(c, s, o, o, EXACT, i) == 0
    decreases s, 0, |o| - i
  {
    hide ScalarsOrdered;
    if i < |o| {
      FieldReflexive(c, Kind(s, i), Entry(o, i));
      ObjReflexive(c, s, o, i + 1);
    }
  }

  lemma {:induction false} ExactBound(c: ScalarCompare, s: Schema, a: Fields, b: Fields, i: nat, n: nat)
    requires s.Table? && Proper(s) && ScalarsOrdered(c) && Max(|a|, |b|) <= n
    ensures CmpFrom(c, s, a, b, EXACT, i) == ExactFrom(c, s, a, b, i, n)
    decreases n - i
  {
    hide ScalarsOrdered;
    if i < n {
      if i >= Max(|a|, |b|) {
        FieldReflexive(c, Kind(s, i), NullValue);
      }
      ExactBound(c, s, a, b, i + 1, n);
    }
  }

  lemma {:induction false} FieldFlip(c: ScalarCompare, k: Schema, a: Value, b: Value)
    requires Proper(k) && ScalarsOrdered(c)
    ensures Opposite(CmpField(c, k, a, b, EXACT), CmpField(c, k, b, a, EXACT))
    decreases k, 1, 0
  {
    hide ScalarsOrdered;
    if k.Scalar? {
      ScalarFlip(c, k.id, a, b);
    } else {
      ObjFlip(c, k, Sub(a), Sub(b), 0);
    }
  }

  lemma {:induction false} ObjFlip(c: ScalarCompare, s: Schema, a: Fields, b: Fields, i: nat)
    requires s.Table? && Proper(s) && ScalarsOrdered(c)
    ensures Opposite(CmpFrom(c, s, a, b, EXACT, i), CmpFrom(c, s, b, a, EXACT, i))
    decreases s, 0, Max(|a|, |b|) - i
  {
    hide ScalarsOrdered;
    if i < Max(|a|, |b|) {
      FieldFlip(c, Kind(s, i), Entry(a, i), Entry(b, i));
      ObjFlip(c, s, a, b, i + 1);
    }
  }

  lemma {:induction false} FieldTrans(c: ScalarCompare, k: Schema, x: Value, y: Value, z: Value)
    requires Proper(k) && ScalarsOrdered(c)
    ensures Chained(CmpField(c, k, x, y, EXACT), CmpField(c, k, y, z, EXACT), CmpField(c, k, x, z, EXACT))
    decreases k, 1, 0
  {
    hide ScalarsOrdered;
    if k.Scalar? {
      ScalarTrans(c, k.id, x, y, z);
    } else {
      var n := Max(|Sub(x)|, Max(|Sub(y)|, |Sub(z)|));
      ExactBound(c, k, Sub(x), Sub(y), 0, n);
      ExactBound(c, k, Sub(y), Sub(z), 0, n);
      ExactBound(c, k, Sub(x), Sub(z), 0, n);
      ExactTrans(c, k, Sub(x), Sub(y), Sub(z), 0, n);
    }
  }

  lemma {:induction false} ExactTrans(c: ScalarCompare, s: Schema, x: Fields, y: Fields, z: Fields, i: nat, n: nat)
    requires s.Table? && Proper(s) && ScalarsOrdered(c)
    ensures Chained(ExactFrom(c, s, x, y, i, n), ExactFrom(c, s, y, z, i, n), ExactFrom(c, s, x, z, i, n))
    decreases s, 0, n - i
  {
    hide ScalarsOrdered;
    if i < n {
      var k := Kind(s, i);
      FieldTrans(c, k, Entry(x, i), Entry(y, i), Entry(z, i));
      ExactTies(c, k, Entry(x, i), Entry(y, i), Entry(z, i));
      ExactTrans(c, s, x, y, z, i + 1, n);
    }
  }

  /** Ties chain to ties. */
  lemma {:induction false} ExactTies(c: ScalarCompare, k: Schema, x: Value, y: Value, z: Value)
    requires Proper(k) && ScalarsOrdered(c)
    ensures CmpField(c, k, x, y, EXACT) == 0 && CmpField(c, k, y, z, EXACT) == 0 ==> CmpField(c, k, x, z, EXACT) == 0
    decreases k, 2, 0
  {
    hide ScalarsOrdered;
    FieldFlip(c, k, x, y);
    FieldFlip(c, k, y, z);
    FieldFlip(c, k, x, z);
    FieldTrans(c, k, x, y, z);
    FieldTrans(c, k, z, y, x);
  }

  /** With ordered scalars, EXACT comparison of objects of any schema, nested
      tables included, is a total preorder. */
  lemma ExactPreorder(c: ScalarCompare, s: Schema)
    requires s.Table? && Proper(s) && ScalarsOrdered(c)
    ensures TotalPreorder((a: Fields, b: Fields) => CmpObj(c, s, a, b, EXACT))
  {
    hide ScalarsOrdered;
    var cmp := (a: Fields, b: Fields) => CmpObj(c, s, a, b, EXACT);
    forall a: Fields, b: Fields
      ensures cmp(a, b) < 0 <==> cmp(b, a) > 0
    {
      ObjFlip(c, s, a, b, 0);
    }
    forall x: Fields, y: Fields, z: Fields
      ensures cmp(x, y) <= 0 && cmp(y, z) <= 0 ==> cmp(x, z) <= 0
    {
      var n := Max(|x|, Max(|y|, |z|));
      ExactBound(c, s, x, y, 0, n);
      ExactBound(c, s, y, z, 0, n);
      ExactBound(c, s, x, z, 0, n);
      ExactTrans(c, s, x, y, z, 0, n);
    }
  }

  // ---- Searching a sorted array ------------------------------------------------------

  /** How many entries the template and index comparisons look at. */
  function Compared(s: Schema): nat
    requires s.Table?
  {
    Max(1, s.numCompare)
  }

  predicate ScalarKeys(s: Schema)
    requires s.Table? && s.kinds != []
  {
    forall i :: 0 <= i < Compared(s) ==> Kind(s, i).Scalar?
  }

  /** The items of an array, in EXACT order. */
  ghost predicate SortedItems(c: ScalarCompare, s: Schema, items: seq<Fields>)
    requires s.Table? && Proper(s)
  {
    forall i, j :: 0 <= i < j < |items| ==> CmpObj(c, s, items[i], items[j], EXACT) <= 0
  }

  predicate Matching(c: ScalarCompare, s: Schema, t: Fields, o: Fields)
    requires s.Table? && Proper(s)
  {
    CmpObj(c, s, t, o, TEMPLATE) == 0
  }

  /** What an object has to meet to match: every set entry among the compared ones
      ties with it. */
  lemma {:induction false} MatchingIff(c: ScalarCompare, s: Schema, t: Fields, o: Fields, i: nat)
    requires s.Table? && Proper(s) && i < Compared(s)
    ensures CmpFrom(c, s, t, o, TEMPLATE, i) == 0 <==>
            forall k :: i <= k < Compared(s) && k < |t| && t[k] != NullValue ==>
              CmpField(c, Kind(s, k), t[k], Entry(o, k), TEMPLATE) == 0
    decreases Compared(s) - i
  {
    if i < Max(|t|, |o|) && i + 1 < s.numCompare {
      MatchingIff(c, s, t, o, i + 1);
    }
  }

  /** A match also ties in the index comparison, which looks at fewer entries. */
  lemma {:induction false} MatchTiesIndex(c: ScalarCompare, s: Schema, t: Fields, o: Fields, i: nat)
    requires s.Table? && Proper(s) && ScalarKeys(s) && i < Compared(s)
    requires CmpFrom(c, s, t, o, TEMPLATE, i) == 0
    ensures CmpFrom(c, s, t, o, INDEX, i) == 0
    decreases Compared(s) - i
  {
    if i < Max(|t|, |o|) {
      assert Kind(s, i).Scalar?;
      if Entry(t, i) != NullValue && i + 1 < s.numCompare {
        MatchTiesIndex(c, s, t, o, i + 1);
      }
    }
  }

  /** Going up a sorted array, the index comparison with a fixed template only
      goes down. */
  lemma {:induction false} IndexMonotone(c: ScalarCompare, s: Schema, t: Fields, a: Fields, b: Fields, i: nat, n: nat)
    requires s.Table? && Proper(s) && ScalarsOrdered(c) && ScalarKeys(s) && i < Compared(s)
    requires Max(|t|, Max(|a|, |b|)) <= n && ExactFrom(c, s, a, b, i, n) <= 0
    ensures CmpFrom(c, s, t, a, INDEX, i) <= 0 ==> CmpFrom(c, s, t, b, INDEX, i) <= 0
    ensures CmpFrom(c, s, t, a, INDEX, i) < 0 ==> CmpFrom(c, s, t, b, INDEX, i) < 0
    decreases Compared(s) - i
  {
    hide ScalarsOrdered;
    if i < |t| && Entry(t, i) != NullValue {
      var k := Kind(s, i);
      assert k.Scalar?;
      ScalarTrans(c, k.id, t[i], Entry(a, i), Entry(b, i));
      ScalarTies(c, k.id, t[i], Entry(a, i), Entry(b, i));
      assert CmpField(c, k, t[i], Entry(a, i), INDEX) == c(k.id, t[i], Entry(a, i));
      assert CmpField(c, k, t[i], Entry(b, i), INDEX) == c(k.id, t[i], Entry(b, i));
      assert CmpField(c, k, Entry(a, i), Entry(b, i), EXACT) == c(k.id, Entry(a, i), Entry(b, i));
      if i + 1 < s.numCompare && c(k.id, Entry(a, i), Entry(b, i)) == 0 {
        IndexMonotone(c, s, t, a, b, i + 1, n);
      }
    }
  }

  lemma ScalarTies(c: ScalarCompare, id: nat, x: Value, y: Value, z: Value)
    requires ScalarsOrdered(c)
    ensures c(id, x, y) == 0 && c(id, y, z) == 0 ==> c(id, x, z) == 0
  {
    hide ScalarsOrdered;
    ScalarFlip(c, id, x, y);
    ScalarFlip(c, id, y, z);
    ScalarFlip(c, id, x, z);
    ScalarTrans(c, id, x, y, z);
    ScalarTrans(c, id, z, y, x);
  }

  lemma ItemsMonotone(c: ScalarCompare, s: Schema, items: seq<Fields>, t: Fields, i: nat, j: nat)
    requires s.Table? && Proper(s) && ScalarsOrdered(c) && ScalarKeys(s) && SortedItems(c, s, items)
    requires i < j < |items|
    ensures CmpObj(c, s, t, items[i], INDEX) <= 0 ==> CmpObj(c, s, t, items[j], INDEX) <= 0
    ensures CmpObj(c, s, t, items[i], INDEX) < 0 ==> CmpObj(c, s, t, items[j], INDEX) < 0
  {
    hide ScalarsOrdered;
    var n := Max(|t|, Max(|items[i]|, |items[j]|));
    assert CmpObj(c, s, items[i], items[j], EXACT) <= 0;
    ExactBound(c, s, items[i], items[j], 0, n);
    IndexMonotone(c, s, t, items[i], items[j], 0, n);
  }

  /** Item k of an array, counted from 1. */
  function Item(items: seq<Fields>, k: nat): Fields
    requires 1 <= k <= |items|
  {
    items[k - 1]
  }

  /** The first match after position cur, positions counted from 1; -1 if none. */
  function NextMatch(c: ScalarCompare, s: Schema, items: seq<Fields>, cur: nat, t: Fields): (r: int)
    requires s.Table? && Proper(s)
    ensures r == -1 || cur < r <= |items|
    ensures r > 0 ==> Matching(c, s, t, Item(items, r))
    ensures forall k :: cur < k <= |items| && (r == -1 || k < r) ==> !Matching(c, s, t, Item(items, k))
    decreases |items| - cur
  {
    if cur >= |items| then -1
    else if Matching(c, s, t, items[cur]) then cur + 1
    else NextMatch(c, s, items, cur + 1, t)
  }

  lemma NextMatchIs(c: ScalarCompare, s: Schema, items: seq<Fields>, cur: nat, t: Fields, r: int)
    requires s.Table? && Proper(s)
    requires r == -1 || (cur < r <= |items| && Matching(c, s, t, Item(items, r)))
    requires forall k :: cur < k <= |items| && (r == -1 || k < r) ==> !Matching(c, s, t, Item(items, k))
    ensures r == NextMatch(c, s, items, cur, t)
  {
    var m := NextMatch(c, s, items, cur, t);
    if m > 0 { assert Matching(c, s, t, Item(items, m)); }
  }

  /** Past an item that compares above the template nothing matches. */
  lemma NoMatchAbove(c: ScalarCompare, s: Schema, items: seq<Fields>, t: Fields, m: nat)
    requires s.Table? && Proper(s) && ScalarsOrdered(c) && ScalarKeys(s) && SortedItems(c, s, items)
    requires 1 <= m <= |items| && CmpObj(c, s, t, Item(items, m), INDEX) < 0
    ensures forall k :: m <= k <= |items| ==> !Matching(c, s, t, Item(items, k))
  {
    hide ScalarsOrdered, SortedItems;
    forall k | m <= k <= |items|
      ensures !Matching(c, s, t, Item(items, k))
    {
      if m < k { ItemsMonotone(c, s, items, t, m - 1, k - 1); }
      if CmpFrom(c, s, t, Item(items, k), TEMPLATE, 0) == 0 {
        MatchTiesIndex(c, s, t, Item(items, k), 0);
      }
    }
  }

  /** The binary search: the first position whose item does not compare below the
      template. */
  method Lowest(c: ScalarCompare, s: Schema, items: seq<Fields>, t: Fields) returns (r: nat)
    requires s.Table? && Proper(s) && ScalarsOrdered(c) && ScalarKeys(s) && SortedItems(c, s, items)
    ensures 1 <= r <= |items| + 1
    ensures forall k :: 1 <= k < r ==> CmpObj(c, s, t, Item(items, k), INDEX) > 0
    ensures r <= |items| ==> CmpObj(c, s, t, Item(items, r), INDEX) <= 0
  {
    hide ScalarsOrdered, CmpObj, SortedItems, ScalarKeys;
    var l := 1;
    r := |items| + 1;
    while l < r
      invariant 1 <= l <= r <= |items| + 1
      invariant forall k :: 1 <= k < l ==> CmpObj(c, s, t, Item(items, k), INDEX) > 0
      invariant r <= |items| ==> CmpObj(c, s, t, Item(items, r), INDEX) <= 0
    {
      var m := (l + r) / 2;
      if CmpObj(c, s, t, Item(items, m), INDEX) <= 0 {
        r := m;
      } else {
        forall k | l <= k < m
          ensures CmpObj(c, s, t, Item(items, k), INDEX) > 0
        {
          ItemsMonotone(c, s, items, t, k - 1, m - 1);
        }
        l := m + 1;
      }
    }
  }

  /** adb_ra_find: binary search for the first candidate, then a walk. The
      position passed in is 0 or one returned before for the same template. */
  method Find(c: ScalarCompare, s: Schema, items: seq<Fields>, cur: nat, t: Fields) returns (r: int)
    requires s.Table? && Proper(s) && ScalarsOrdered(c) && ScalarKeys(s) && SortedItems(c, s, items)
    requires cur == 0 || (cur <= |items| && Matching(c, s, t, Item(items, cur)))
    ensures r == NextMatch(c, s, items, cur, t)
  {
    hide ScalarsOrdered, CmpObj, NextMatch, SortedItems, Matching, ScalarKeys;
    var m := cur;
    if cur == 0 {
      m := Lowest(c, s, items, t);
      forall k | 1 <= k < m
        ensures !Matching(c, s, t, Item(items, k))
      {
        TiesIfMatching(c, s, Item(items, k), t);
      }
    } else {
      TiesIfMatching(c, s, Item(items, cur), t);
      m := m + 1;
      if m <= |items| { ItemsMonotone(c, s, items, t, m - 2, m - 1); }
    }
    while m <= |items|
      invariant cur < m <= |items| + 1
      invariant forall k :: cur < k < m ==> !Matching(c, s, t, Item(items, k))
      invariant m <= |items| ==> CmpObj(c, s, t, Item(items, m), INDEX) <= 0
    {
      if Matching(c, s, t, Item(items, m)) {
        NextMatchIs(c, s, items, cur, t, m);
        return m;
      }
      if CmpObj(c, s, t, Item(items, m), INDEX) != 0 {
        NoMatchAbove(c, s, items, t, m);
        NextMatchIs(c, s, items, cur, t, -1);
        return -1;
      }
      m := m + 1;
      if m <= |items| { ItemsMonotone(c, s, items, t, m - 2, m - 1); }
    }
    NextMatchIs(c, s, items, cur, t, -1);
    return -1;
  }

  lemma TiesIfMatching(c: ScalarCompare, s: Schema, o: Fields, t: Fields)
    requires s.Table? && Proper(s) && ScalarKeys(s)
    ensures Matching(c, s, t, o) ==> CmpObj(c, s, t, o, INDEX) == 0
  {
    if Matching(c, s, t, o) { MatchTiesIndex(c, s, t, o, 0); }
  }

  /** The positions after cur of all matching items, by a linear filter. */
  function Filtered(c: ScalarCompare, s: Schema, items: seq<Fields>, cur: nat, t: Fields): seq<int>
    requires s.Table? && Proper(s)
    decreases |items| - cur
  {
    if cur >= |items| then []
    else (if Matching(c, s, t, items[cur]) then [cur + 1] else []) + Filtered(c, s, items, cur + 1, t)
  }

  lemma {:induction false} FilteredFromNext(c: ScalarCompare, s: Schema, items: seq<Fields>, cur: nat, t: Fields)
    requires s.Table? && Proper(s)
    ensures var m := NextMatch(c, s, items, cur, t);
            Filtered(c, s, items, cur, t) == if m == -1 then [] else [m] + Filtered(c, s, items, m, t)
    decreases |items| - cur
  {
    if cur < |items| && !Matching(c, s, t, items[cur]) {
      FilteredFromNext(c, s, items, cur + 1, t);
    }
  }

  /** Calling adb_ra_find again and again, from 0, with the position it returned:
      exactly the positions of the linear filter, in order, and then -1. */
  method FindAll(c: ScalarCompare, s: Schema, items: seq<Fields>, t: Fields) returns (found: seq<int>)
    requires s.Table? && Proper(s) && ScalarsOrdered(c) && ScalarKeys(s) && SortedItems(c, s, items)
    ensures found == Filtered(c, s, items, 0, t)
  {
    hide ScalarsOrdered, CmpObj, SortedItems, Matching, ScalarKeys, Filtered;
    found := [];
    FilteredFromNext(c, s, items, 0, t);
    var r := Find(c, s, items, 0, t);
    ghost var from := 0;
    while r != -1
      invariant r == NextMatch(c, s, items, from, t)
      invariant Filtered(c, s, items, 0, t) == found + (if r == -1 then [] else [r] + Filtered(c, s, items, r, t))
      decreases |items| - from
    {
      FilteredFromNext(c, s, items, r, t);
      from := r;
      found := found + [r];
      r := Find(c, s, items, r, t);
    }
  }

  // ---- The scalar compare functions ---------------------------------------------------

  /** memcmp on the common length, then the shorter one first (apk_blob_sort). */
  function BlobSort(a: seq<byte>, b: seq<byte>): int
  {
    if a == [] || b == [] then |a| - |b|
    else if a[0] != b[0] then a[0] - b[0]
    else BlobSort(a[1..], b[1..])
  }

  /** The shorter of two strings comes first if it is the beginning of the other; otherwise the one
      with the smaller byte where they part. */
  ghost predicate Precedes(a: seq<byte>, b: seq<byte>)
  {
    || a < b
    || exists k :: 0 <= k < |a| && k < |b| && a[..k] == b[..k] && a[k] < b[k]
  }

  lemma {:induction false} BlobSortIff(a: seq<byte>, b: seq<byte>)
    ensures BlobSort(a, b) < 0 <==> Precedes(a, b)
  {
    if a != [] && b != [] {
      var s, t := a[1..], b[1..];
      BlobSortIff(s, t);
      assert a == [a[0]] + s && b == [b[0]] + t;
      PartEarly(a[0], s, b[0], t);
      PartLate(a[0], s, b[0], t);
    }
  }

  lemma PartEarly(x: byte, s: seq<byte>, y: byte, t: seq<byte>)
    ensures x < y || (x == y && Precedes(s, t)) ==> Precedes([x] + s, [y] + t)
  {
    var a, b := [x] + s, [y] + t;
    if x < y {
      assert a[..0] == b[..0] && a[0] < b[0];
    } else if x == y && s < t {
      assert b[..|a|] == [y] + t[..|s|];
    } else if x == y && Precedes(s, t) {
      var k :| 0 <= k < |s| && k < |t| && s[..k] == t[..k] && s[k] < t[k];
      assert a[..k + 1] == [x] + s[..k] && b[..k + 1] == [y] + t[..k];
      assert a[k + 1] < b[k + 1];
    }
  }

  lemma PartLate(x: byte, s: seq<byte>, y: byte, t: seq<byte>)
    ensures Precedes([x] + s, [y] + t) ==> x < y || (x == y && Precedes(s, t))
  {
    var a, b := [x] + s, [y] + t;
    if a < b {
      assert a[0] == b[0] && t[..|s|] == b[..|a|][1..] == s;
    } else if Precedes(a, b) {
      var k :| 0 <= k < |a| && k < |b| && a[..k] == b[..k] && a[k] < b[k];
      if k > 0 {
        assert a[..k][0] == b[..k][0];
        assert s[..k - 1] == a[..k][1..] && t[..k - 1] == b[..k][1..];
        assert s[k - 1] < t[k - 1];
      }
    }
  }

  lemma {:induction false} BlobSortFlip(a: seq<byte>, b: seq<byte>)
    ensures Opposite(BlobSort(a, b), BlobSort(b, a))
  {
    if a != [] && b != [] && a[0] == b[0] {
      BlobSortFlip(a[1..], b[1..]);
    }
  }

  lemma {:induction false} BlobSortTrans(a: seq<byte>, b: seq<byte>, d: seq<byte>)
    ensures BlobSort(a, b) <= 0 && BlobSort(b, d) <= 0 ==> BlobSort(a, d) <= 0
  {
    if a != [] && b != [] && d != [] && a[0] == b[0] == d[0] {
      BlobSortTrans(a[1..], b[1..], d[1..]);
    }
  }

  /** Only equal strings tie. */
  lemma {:induction false} BlobSortTies(a: seq<byte>, b: seq<byte>)
    ensures BlobSort(a, b) == 0 <==> a == b
  {
    if a != [] && b != [] && a[0] == b[0] {
      BlobSortTies(a[1..], b[1..]);
      assert a == [a[0]] + a[1..] && b == [b[0]] + b[1..];
    }
  }

  const STRING: nat := 0
  const INTEGER: nat := 1
  // Any other id: a compare function given from outside, like that of versions.

  function BlobOf(v: Value): seq<byte> { if v.Blob? then v.bytes else [] }

  function IntOf(v: Value): nat { if v.Int? then v.n else 0 }

  /** string_compare, int_compare, and other for the rest. */
  function ApkCompare(other: Compare<Value>, id: nat, a: Value, b: Value): int
  {
    if id == STRING then BlobSort(BlobOf(a), BlobOf(b))
    else if id == INTEGER then if IntOf(a) < IntOf(b) then -1 else if IntOf(a) > IntOf(b) then 1 else 0
    else other(a, b)
  }

  /** Strings compare by their bytes and integers by their size; what is no blob counts as empty, and
      what is no integer as 0. */
  lemma ApkCompareIff(other: Compare<Value>, a: Value, b: Value)
    ensures ApkCompare(other, STRING, a, b) < 0 <==>
              Precedes(if a.Blob? then a.bytes else [], if b.Blob? then b.bytes else [])
    ensures ApkCompare(other, INTEGER, a, b) < 0 <==> (if a.Int? then a.n else 0) < (if b.Int? then b.n else 0)
    ensures ApkCompare(other, INTEGER, a, b) > 0 <==> (if a.Int? then a.n else 0) > (if b.Int? then b.n else 0)
  {
    hide BlobSort;
    BlobSortIff(BlobOf(a), BlobOf(b));
  }

  /** The compare functions of the schemas meet what the object comparison needs,
      provided the version comparison does. */
  lemma ApkCompareOrdered(other: Compare<Value>)
    requires TotalPreorder(other)
    ensures ScalarsOrdered((id: nat, a: Value, b: Value) => ApkCompare(other, id, a, b))
  {
    hide BlobSort, TotalPreorder;
    var c := (id: nat, a: Value, b: Value) => ApkCompare(other, id, a, b);
    forall id: nat, a: Value, b: Value
      ensures c(id, a, b) < 0 <==> c(id, b, a) > 0
    {
      BlobSortFlip(BlobOf(a), BlobOf(b));
      Flip(other, a, b);
    }
    forall id: nat, a: Value, b: Value, d: Value
      ensures c(id, a, b) <= 0 && c(id, b, d) <= 0 ==> c(id, a, d) <= 0
    {
      BlobSortTrans(BlobOf(a), BlobOf(b), BlobOf(d));
      Trans(other, a, b, d);
    }
  }
}
