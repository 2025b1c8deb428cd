/**
 The comparison as the sort calls it: on the words of one store, through the readers. On any
 arena it is the comparison of what the words read as, and so a total preorder.
 */
module AdbOrder {
  import opened Bytes
  import opened AdbValue
  import opened AdbCompare
  import opened AdbObject
  import opened Orders

  /** What a scalar compare function reads from a word. */
  function Leaf(data: seq<byte>, w: word): Value
  {
    if IsBlobType(w.tag) then match ReadBlob(data, w) case Some(b) => Blob(b) case None => NullValue
    else if w.tag in {TYPE_INT, TYPE_INT_32, TYPE_INT_64} then Int(ReadInt(data, w))
    else if w.tag == TYPE_SPECIAL then Special(w.val)
    else NullValue
  }

  /** The number of entries that adb_r_obj finds. */
  function Count(data: seq<byte>, w: word): nat { ReadNum(data, w) - 1 }

  /** wacmpscalar and wacmp, in EXACT mode. */
  function WordCmp(c: ScalarCompare, k: Schema, data: seq<byte>, w: word, w': word): int
    requires Proper(k)
    decreases k, 1, 0
  {
    match k
    case Scalar(id) => c(id, Leaf(data, w), Leaf(data, w'))
    case Table(_, _) => WordsFrom(c, k, data, w, w', 0)
  }

  function WordsFrom(c: ScalarCompare, s: Schema, data: seq<byte>, w: word, w': word, i: nat): int
    requires s.Table? && Proper(s)
    decreases s, 0, Max(Count(data, w), Count(data, w')) - i
  {
    if i >= Max(Count(data, w), Count(data, w')) then 0
    else
      var r := WordCmp(c, Kind(s, i), data, ReadField(data, w, i + 1), ReadField(data, w', i + 1));
      if r != 0 then r else WordsFrom(c, s, data, w, w', i + 1)
  }

  /** What a word reads as under a schema. */
  function Reading(data: seq<byte>, k: Schema, w: word): (v: Value)
    requires Proper(k)
    ensures k.Table? ==> v.Node? && |v.fields| == Count(data, w)
    decreases k
  {
    match k
    case Scalar(_) => Leaf(data, w)
    case Table(_, _) =>
      Node(false, seq(Count(data, w), i requires 0 <= i < Count(data, w) => Reading(data, Kind(k, i), ReadField(data, w, i + 1))))
  }

  /** Entries past the end read as null, and compare like it. */
  lemma EntryReads(c: ScalarCompare, s: Schema, data: seq<byte>, w: word, w': word, i: nat)
    requires s.Table? && Proper(s)
    ensures var (f, f') := (Sub(Reading(data, s, w)), Sub(Reading(data, s, w')));
            CmpField(c, Kind(s, i), Reading(data, Kind(s, i), ReadField(data, w, i + 1)),
                     Reading(data, Kind(s, i), ReadField(data, w', i + 1)), EXACT)
            == CmpField(c, Kind(s, i), Entry(f, i), Entry(f', i), EXACT)
  {
    hide CmpObj;
    EntryLike(s, data, w, i);
    EntryLike(s, data, w', i);
  }

  lemma NullReads(k: Schema, data: seq<byte>)
    requires Proper(k)
    ensures if k.Scalar? then Reading(data, k, NULL) == NullValue else Sub(Reading(data, k, NULL)) == []
  {
  }

  lemma PastEnd(data: seq<byte>, w: word, i: nat)
    requires i >= Count(data, w)
    ensures ReadField(data, w, i + 1) == NULL
  {
  }

  /** The two are the same, or both read as a table without entries. */
  lemma EntryLike(s: Schema, data: seq<byte>, w: word, i: nat)
    requires s.Table? && Proper(s)
    ensures var (a, b) := (Reading(data, Kind(s, i), ReadField(data, w, i + 1)), Entry(Sub(Reading(data, s, w)), i));
            if Kind(s, i).Scalar? then a == b else Sub(a) == Sub(b)
  {
    hide ReadField, ReadNum, Leaf;
    if i >= Count(data, w) {
      PastEnd(data, w, i);
      NullReads(Kind(s, i), data);
    }
  }

  /** On any arena the comparison of words is the comparison of what they read as. */
  lemma {:induction false} WordCmpReads(c: ScalarCompare, k: Schema, data: seq<byte>, w: word, w': word)
    requires Proper(k)
    ensures WordCmp(c, k, data, w, w') == CmpField(c, k, Reading(data, k, w), Reading(data, k, w'), EXACT)
    decreases k, 1, 0
  {
    hide Reading, Leaf;
    if k.Table? {
      WordsFromReads(c, k, data, w, w', 0);
    } else {
      ScalarReads(k, data, w);
      ScalarReads(k, data, w');
    }
  }

  lemma ScalarReads(k: Schema, data: seq<byte>, w: word)
    requires k.Scalar?
    ensures Reading(data, k, w) == Leaf(data, w)
  {
  }

  lemma {:induction false} WordsFromReads(c: ScalarCompare, s: Schema, data: seq<byte>, w: word, w': word, i: nat)
    requires s.Table? && Proper(s)
    ensures WordsFrom(c, s, data, w, w', i) ==
            CmpFrom(c, s, Sub(Reading(data, s, w)), Sub(Reading(data, s, w')), EXACT, i)
    decreases s, 0, Max(Count(data, w), Count(data, w')) - i
  {
    hide Reading, ReadNum, ReadField, CmpField;
    if i < Max(Count(data, w), Count(data, w')) {
      WordCmpReads(c, Kind(s, i), data, ReadField(data, w, i + 1), ReadField(data, w', i + 1));
      EntryReads(c, s, data, w, w', i);
      WordsFromReads(c, s, data, w, w', i + 1);
    }
  }

  /** The comparison a sort is given is a total preorder on words, whatever the arena holds. */
  lemma WordPreorder(c: ScalarCompare, k: Schema, data: seq<byte>)
    requires Proper(k) && ScalarsOrdered(c)
    ensures TotalPreorder((w: word, w': word) => WordCmp(c, k, data, w, w'))
  {
    hide ScalarsOrdered, Reading, WordCmp, CmpField;
    var cmp := (w: word, w': word) => WordCmp(c, k, data, w, w');
    forall a: word, b: word
      ensures cmp(a, b) < 0 <==> cmp(b, a) > 0
    {
      WordCmpReads(c, k, data, a, b);
      WordCmpReads(c, k, data, b, a);
      FieldFlip(c, k, Reading(data, k, a), Reading(data, k, b));
    }
    forall x: word, y: word, z: word
      ensures cmp(x, y) <= 0 && cmp(y, z) <= 0 ==> cmp(x, z) <= 0
    {
      WordCmpReads(c, k, data, x, y);
      WordCmpReads(c, k, data, y, z);
      WordCmpReads(c, k, data, x, z);
      FieldTrans(c, k, Reading(data, k, x), Reading(data, k, y), Reading(data, k, z));
    }
  }

  // ---- Words that hold values ---------------------------------------------------------

  /** The value has no table where the schema has a scalar. */
  predicate Conforms(k: Schema, v: Value)
    requires Proper(k)
    decreases k
  {
    match k
    case Scalar(_) => !v.Node?
    case Table(_, _) => forall i :: 0 <= i < |Sub(v)| ==> Conforms(Kind(k, i), Sub(v)[i])
  }

  /** Under a schema two values are the same. */
  predicate Alike(k: Schema, a: Value, b: Value)
    requires Proper(k)
    decreases k
  {
    match k
    case Scalar(_) => a == b
    case Table(_, _) =>
      |Sub(a)| == |Sub(b)| && forall i :: 0 <= i < |Sub(a)| ==> Alike(Kind(k, i), Sub(a)[i], Sub(b)[i])
  }

  /** A word reads as what it holds. */
  lemma {:induction false} HeldReading(k: Schema, data: seq<byte>, w: word, v: Value)
    requires Proper(k) && Holds(data, w, v) && Conforms(k, v)
    ensures Alike(k, Reading(data, k, w), v)
    decreases k
  {
    hide ReadNum, ReadField, ReadBlob, ReadInt, Holds;
    HoldsReads(data, w, v);
    TypeOfHeld(data, w, v);
    if k.Table? {
      var r := Reading(data, k, w);
      forall i | 0 <= i < |Sub(v)|
        ensures Alike(Kind(k, i), Sub(r)[i], Sub(v)[i])
      {
        HeldReading(Kind(k, i), data, ReadField(data, w, i + 1), Sub(v)[i]);
      }
    } else if v.Special? {
      SpecialHeld(data, w, v);
    }
  }

  lemma SpecialHeld(data: seq<byte>, w: word, v: Value)
    requires Holds(data, w, v) && v.Special?
    ensures v == Special(w.val)
  {
  }

  lemma {:induction false} AlikeCompare(c: ScalarCompare, k: Schema, a: Value, a': Value, b: Value, b': Value)
    requires Proper(k) && Alike(k, a, a') && Alike(k, b, b')
    ensures CmpField(c, k, a, b, EXACT) == CmpField(c, k, a', b', EXACT)
    decreases k, 1, 0
  {
    if k.Table? {
      AlikeFrom(c, k, a, a', b, b', 0);
    }
  }

  lemma {:induction false} AlikeFrom(c: ScalarCompare, s: Schema, a: Value, a': Value, b: Value, b': Value, i: nat)
    requires s.Table? && Proper(s) && Alike(s, a, a') && Alike(s, b, b')
    ensures CmpFrom(c, s, Sub(a), Sub(b), EXACT, i) == CmpFrom(c, s, Sub(a'), Sub(b'), EXACT, i)
    decreases s, 0, Max(|Sub(a)|, |Sub(b)|) - i
  {
    hide CmpField;
    if i < Max(|Sub(a)|, |Sub(b)|) {
      var k := Kind(s, i);
      AlikeNull(k);
      AlikeCompare(c, k, Entry(Sub(a), i), Entry(Sub(a'), i), Entry(Sub(b), i), Entry(Sub(b'), i));
      AlikeFrom(c, s, a, a', b, b', i + 1);
    }
  }

  lemma AlikeNull(k: Schema)
    requires Proper(k)
    ensures Alike(k, NullValue, NullValue)
  {
  }

  /** Words that hold values compare as the values do. */
  lemma HeldCompare(c: ScalarCompare, k: Schema, data: seq<byte>, w: word, v: Value, w': word, v': Value)
    requires Proper(k) && Holds(data, w, v) && Holds(data, w', v') && Conforms(k, v) && Conforms(k, v')
    ensures WordCmp(c, k, data, w, w') == CmpField(c, k, v, v', EXACT)
  {
    hide CmpField, WordCmp, Holds, Reading;
    WordCmpReads(c, k, data, w, w');
    HeldReading(k, data, w, v);
    HeldReading(k, data, w', v');
    AlikeCompare(c, k, Reading(data, k, w), v, Reading(data, k, w'), v');
  }

  /** adb_wa_sort_unique on the words of a store, with the comparison it uses: the result is in the
      order of the values, keeps the same words, and has each once, for every order a sort may
      leave, exactly when no repeated word ties with a different one. */
  lemma SortUniqueWords(c: ScalarCompare, k: Schema, data: seq<byte>, ws: seq<word>, vals: map<word, Value>)
    requires Proper(k) && ScalarsOrdered(c)
    requires forall w :: w in ws ==> w in vals && Holds(data, w, vals[w]) && Conforms(k, vals[w])
    ensures var cmp := (w: word, w': word) => WordCmp(c, k, data, w, w');
            && (forall sorted, i, j :: IsSortOf(cmp, ws, sorted) && 0 <= i < j < |DropAdjacent(sorted)| ==>
                  var (a, b) := (DropAdjacent(sorted)[i], DropAdjacent(sorted)[j]);
                  a in vals && b in vals && CmpField(c, k, vals[a], vals[b], EXACT) <= 0)
            && (forall sorted, w :: IsSortOf(cmp, ws, sorted) ==> (w in DropAdjacent(sorted) <==> w in ws))
            && ((forall sorted :: IsSortOf(cmp, ws, sorted) ==> NoRepeats(DropAdjacent(sorted))) <==> !RepeatedTie(cmp, ws))
  {
    hide ScalarsOrdered, CmpField, WordCmp, Holds, DropAdjacent, RepeatedTie, TotalPreorder, Conforms;
    var cmp := (w: word, w': word) => WordCmp(c, k, data, w, w');
    WordPreorder(c, k, data);
    SortUnique(cmp, ws);
    forall sorted, i, j | IsSortOf(cmp, ws, sorted) && 0 <= i < j < |DropAdjacent(sorted)|
      ensures var (a, b) := (DropAdjacent(sorted)[i], DropAdjacent(sorted)[j]);
              a in vals && b in vals && CmpField(c, k, vals[a], vals[b], EXACT) <= 0
    {
      var a, b := DropAdjacent(sorted)[i], DropAdjacent(sorted)[j];
      assert a in DropAdjacent(sorted) && b in DropAdjacent(sorted);
      DropAdjacentSorted(cmp, sorted);
      assert cmp(a, b) <= 0;
      HeldCompare(c, k, data, a, vals[a], b, vals[b]);
    }
  }
}
