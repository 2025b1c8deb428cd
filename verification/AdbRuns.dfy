/**
 Runs of store writes and what they mean. A run is a list of operations that
 may name the results of earlier ones; its meaning says what each result
 stands for without mentioning a store at all.
 */
module AdbRuns {
  import opened Bytes
  import opened AdbValue
  import opened AdbSpec
  import AdbBlocks

  /** An entry of an object under construction: unset, or an earlier result. */
  datatype Ref = Unset | Result(i: nat)

  datatype Op =
    | IntOp(n: nat)
    | BlobOp(parts: seq<seq<byte>>)                        // adb_w_blob_vec
    | RawBlobOp(bytes: seq<byte>)                          // adb_w_blob_raw
    | NodeOp(isArray: bool, refs: seq<Ref>)                // adb_w_obj, adb_w_arr
    | RootOp(ref: Ref)                                     // adb_w_root
    | NestedOp(inner: seq<byte>)                           // adb_w_adb of a store with these bytes
    | CopyOp(src: seq<byte>, w: word, tree: Value)      // adb_w_copy from another store

  /** What the callers of the write interface provide. */
  ghost predicate ValidOp(op: Op, results: nat)
  {
    match op
    case IntOp(n) => n < Pow256(8)
    case BlobOp(parts) => |Concat(parts)| < Pow256(4)
    case RawBlobOp(bytes) => |bytes| < Pow256(4)
    case NodeOp(_, refs) => forall k :: 0 <= k < |refs| ==> ValidRef(refs[k], results)
    case RootOp(ref) => ValidRef(ref, results)
    case NestedOp(inner) => |Nested(inner)| < Pow256(4)
    case CopyOp(src, w, v) => Holds(src, w, v)
  }

  /** A store inside a blob: its bytes as the one block of a file. */
  function Nested(inner: seq<byte>): (r: seq<byte>)
    ensures |inner| < |r|
  {
    AdbBlocks.BlockBytes(AdbBlocks.Block(AdbBlocks.TYPE_ADB, inner))
  }

  predicate ValidRef(r: Ref, results: nat) { r.Result? ==> r.i < results }

  ghost predicate ValidRun(ops: seq<Op>)
  {
    forall k :: 0 <= k < |ops| ==> ValidOp(ops[k], k)
  }

  // ---- The meaning of a run -------------------------------------------------

  function RefValue(r: Ref, vals: seq<Value>): Value
    requires ValidRef(r, |vals|)
  {
    match r case Unset => NullValue case Result(i) => vals[i]
  }

  function RefValues(refs: seq<Ref>, vals: seq<Value>): (r: seq<Value>)
    requires forall k :: 0 <= k < |refs| ==> ValidRef(refs[k], |vals|)
    ensures |r| == |refs| && forall k :: 0 <= k < |refs| ==> r[k] == RefValue(refs[k], vals)
  {
    seq(|refs|, k requires 0 <= k < |refs| => RefValue(refs[k], vals))
  }

  function TrimValues(vs: seq<Value>): (r: seq<Value>)
    ensures r <= vs
  {
    if |vs| == 0 || vs[|vs| - 1] != NullValue then vs else TrimValues(vs[..|vs| - 1])
  }

  function BlobValue(bytes: seq<byte>): Value
  {
    if bytes == [] then NullValue else Blob(bytes)
  }

  ghost function OpMeaning(op: Op, vals: seq<Value>): Value
    requires ValidOp(op, |vals|)
  {
    match op
    case IntOp(n) => Int(n)
    case BlobOp(parts) => BlobValue(Concat(parts))
    case RawBlobOp(bytes) => BlobValue(bytes)
    case NodeOp(isArray, refs) =>
      var kept := TrimValues(RefValues(refs, vals));
      if kept == [] then NullValue else Node(isArray, kept)
    case RootOp(ref) => RefValue(ref, vals)
    case NestedOp(inner) => if |inner| <= HDR_SIZE then NullValue else Blob(Nested(inner))
    case CopyOp(src, w, v) => v
  }

  ghost function Meaning(ops: seq<Op>): (vals: seq<Value>)
    requires ValidRun(ops)
    ensures |vals| == |ops|
  {
    if ops == [] then []
    else
      var prev := ops[..|ops| - 1];
      assert ValidRun(prev);
      assert ValidOp(ops[|ops| - 1], |prev|);
      Meaning(prev) + [OpMeaning(ops[|ops| - 1], Meaning(prev))]
  }

  // ---- The run itself ---------------------------------------------------------

  function RefWord(r: Ref, words: seq<word>): word
    requires ValidRef(r, |words|)
  {
    match r case Unset => NULL case Result(i) => words[i]
  }

  function RefWords(refs: seq<Ref>, words: seq<word>): (r: seq<word>)
    requires forall k :: 0 <= k < |refs| ==> ValidRef(refs[k], |words|)
    ensures |r| == |refs| && forall k :: 0 <= k < |refs| ==> r[k] == RefWord(refs[k], words)
  {
    seq(|refs|, k requires 0 <= k < |refs| => RefWord(refs[k], words))
  }

  /** adb_w_adb: a store that has more than a header is written past the cache, always with the
      longest length prefix. */
  function PutNested(h: HashFn, db: Db, inner: seq<byte>): (Db, word)
  {
    if |inner| <= HDR_SIZE then (db, NULL)
    else
      var bytes := Nested(inner);
      var (db', o) := Write(h, db, false, [Le(|bytes|, 4)] + [bytes], 4);
      (db', Tag(TYPE_BLOB_32, o))
  }

  ghost function Step(h: HashFn, db: Db, words: seq<word>, op: Op): (Db, word)
    requires ValidOp(op, |words|) && (op.RootOp? ==> HDR_SIZE <= |db.data|)
  {
    match op
    case IntOp(n) => PutInt(h, db, n)
    case BlobOp(parts) => PutBlob(h, db, true, parts)
    case RawBlobOp(bytes) => PutBlob(h, db, false, [bytes])
    case NodeOp(isArray, refs) => PutNode(h, db, isArray, RefWords(refs, words))
    case RootOp(ref) => (PutRoot(db, RefWord(ref, words)), RefWord(ref, words))
    case NestedOp(inner) => PutNested(h, db, inner)
    case CopyOp(src, w, v) => Copy(h, db, src, w, v)
  }

  // ---- Each operation builds what it means ------------------------------------

  /** o holds v, in an arena that grew from the old one. */
  ghost predicate Built(db: Db, db': Db, w: word, v: Value, base: nat := HDR_SIZE)
  {
    && Wf(db', base) && |db'.chains| == |db.chains| && Grown(db.data, db'.data, base)
    && (|db'.data| <= OFFSET_LIMIT ==> Holds(db'.data, w, v, base))
  }

  lemma IntBuilt(h: HashFn, db: Db, n: nat, base: nat := HDR_SIZE)
    requires Wf(db, base) && n < Pow256(8)
    ensures var (db', w) := PutInt(h, db, n); Built(db, db', w, Int(n), base) && db.data <= db'.data
  {
    hide Write, Le, Concat, NatAt, Pow256;
    Pow256Values();
    if n >= 0x1000_0000 {
      var k := if n >= 0x1_0000_0000 then 8 else 4;
      ConcatOne(Le(n, k));
      WritePlaces(h, db, true, [Le(n, k)], 4, base);
      var (db', o) := Write(h, db, true, [Le(n, k)], 4);
      PrefixGrown(db.data, db'.data, base);
      NatStored(db'.data, o, n, k);
    }
  }

  /** A blob stored where its prefix and bytes were written. */
  lemma BlobStored(data: seq<byte>, o: nat, bytes: seq<byte>, k: nat)
    requires |bytes| < Pow256(k) && o + k + |bytes| <= |data|
    requires data[o..o + k + |bytes|] == Le(|bytes|, k) + bytes
    ensures NatAt(data, o, k) == |bytes| && data[o + k..o + k + |bytes|] == bytes
  {
    var prefix := Le(|bytes|, k);
    PartsOf(prefix, bytes);
    PartFound(data, o, prefix + bytes, 0, prefix);
    PartFound(data, o, prefix + bytes, k, bytes);
    NatStored(data, o, |bytes|, k);
  }

  lemma BlobPlaced(h: HashFn, db: Db, cached: bool, parts: seq<seq<byte>>, k: nat, base: nat := HDR_SIZE)
    requires Wf(db, base) && 0 < |Concat(parts)| < Pow256(k) && IsAlignment(k)
    ensures var bytes := Concat(parts);
            var (db', o) := Write(h, db, cached, [Le(|bytes|, k)] + parts, k);
            && Wf(db', base) && |db'.chains| == |db.chains| && db.data <= db'.data
            && base <= o && o + k + |bytes| <= |db'.data|
            && NatAt(db'.data, o, k) == |bytes| && db'.data[o + k..o + k + |bytes|] == bytes
  {
    hide Write, Le, NatAt, Pow256, RoundUp;
    var bytes := Concat(parts);
    var prefix := Le(|bytes|, k);
    ConcatAppend([prefix], parts);
    ConcatOne(prefix);
    WritePlaces(h, db, cached, [prefix] + parts, k, base);
    var (db', o) := Write(h, db, cached, [prefix] + parts, k);
    BlobStored(db'.data, o, bytes, k);
  }

  lemma BlobBuilt(h: HashFn, db: Db, cached: bool, parts: seq<seq<byte>>, base: nat := HDR_SIZE)
    requires Wf(db, base) && |Concat(parts)| < Pow256(4)
    ensures var (db', w) := PutBlob(h, db, cached, parts);
            Built(db, db', w, BlobValue(Concat(parts)), base) && db.data <= db'.data
  {
    hide Write, Le, NatAt, Pow256, RoundUp;
    Pow256Values();
    var bytes := Concat(parts);
    if bytes != [] {
      var k := PrefixSize(BlobType(|bytes|));
      BlobPlaced(h, db, cached, parts, k, base);
      PrefixGrown(db.data, PutBlob(h, db, cached, parts).0.data, base);
    }
  }

  /** Where a written blob lies, in bytes: its length in the fewest of one, two or four bytes, at a
      place aligned for that, and then the blob. */
  lemma BlobLaid(h: HashFn, db: Db, cached: bool, parts: seq<seq<byte>>, base: nat := HDR_SIZE)
    requires Wf(db, base) && |Concat(parts)| < 0x1_0000_0000
    ensures var b := Concat(parts);
            var (db', w) := PutBlob(h, db, cached, parts);
            && (b == [] ==> db' == db && w == Word(0, 0))
            && (b != [] && |db'.data| <= OFFSET_LIMIT ==>
                  && StoredBlob(db'.data, w.tag, w.val, b)
                  && (if |b| < 0x100 then w.tag == 8
                      else if |b| < 0x1_0000 then w.tag == 9 && w.val % 2 == 0
                      else w.tag == 10 && w.val % 4 == 0))
  {
    hide Write, Le, NatAt, Pow256, RoundUp;
    Pow256Values();
    var b := Concat(parts);
    if b != [] {
      var k := PrefixSize(BlobType(|b|));
      BlobBuilt(h, db, cached, parts, base);
      var (db', w) := PutBlob(h, db, cached, parts);
      if |db'.data| <= OFFSET_LIMIT {
        BlobStoredIff(db'.data, w, b, base);
        ConcatAppend([Le(|b|, k)], parts);
        ConcatOne(Le(|b|, k));
        WritePlaces(h, db, cached, [Le(|b|, k)] + parts, k, base);
      }
    }
  }

  lemma NestedBuilt(h: HashFn, db: Db, inner: seq<byte>, base: nat := HDR_SIZE)
    requires Wf(db, base) && |Nested(inner)| < Pow256(4)
    ensures var (db', w) := PutNested(h, db, inner);
            Built(db, db', w, if |inner| <= HDR_SIZE then NullValue else Blob(Nested(inner)), base) && db.data <= db'.data
  {
    hide Write, Le, NatAt, Pow256, RoundUp, Nested;
    var bytes := Nested(inner);
    ConcatOne(bytes);
    if |inner| > HDR_SIZE {
      BlobPlaced(h, db, false, [bytes], 4, base);
      PrefixGrown(db.data, PutNested(h, db, inner).0.data, base);
    }
  }

  lemma NullHeld(data: seq<byte>, base: nat := HDR_SIZE)
    ensures Holds(data, NULL, NullValue, base)
  {
  }

  lemma {:induction false} TableEntry(words: seq<word>, i: nat)
    requires i < |words|
    ensures TableBytes(words)[4 * i..4 * i + 4] == Le(Pack(words[i]), 4)
  {
    var rest := TableBytes(words[1..]);
    if i > 0 {
      TableEntry(words[1..], i - 1);
      assert TableBytes(words)[4 * i..4 * i + 4] == rest[4 * (i - 1)..4 * (i - 1) + 4];
    }
  }

  lemma WordStored(data: seq<byte>, o: nat, w: word)
    requires o + 4 <= |data| && data[o..o + 4] == Le(Pack(w), 4)
    ensures WordAt(data, o) == w
  {
    Pow256Values();
    NatStored(data, o, Pack(w), 4);
    PackRoundTrip(w);
  }

  /** A table found in the arena reads back entry by entry. */
  lemma TableReads(data: seq<byte>, o: nat, words: seq<word>, t: seq<byte>, i: nat, p: nat)
    requires t == TableBytes(words) && o + |t| <= |data| && data[o..o + |t|] == t
    requires i < |words| && p == o + 4 * i
    ensures p + 4 <= |data| && WordAt(data, p) == words[i]
  {
    hide TableBytes, Le, WordAt;
    TableEntry(words, i);
    EntryStored(data, o, t, 4 * i, words[i]);
  }

  lemma EntryStored(data: seq<byte>, o: nat, t: seq<byte>, p: nat, w: word)
    requires o + |t| <= |data| && data[o..o + |t|] == t
    requires p + 4 <= |t| && t[p..p + 4] == Le(Pack(w), 4)
    ensures WordAt(data, o + p) == w
  {
    PartFound(data, o, t, p, Le(Pack(w), 4));
    WordStored(data, o + p, w);
  }

  lemma TableField(data: seq<byte>, w: word, o: nat, entries: seq<word>, table: seq<byte>, k: nat)
    requires table == TableBytes(entries) && o + 4 + |table| <= |data| && k < |entries|
    requires w.val == o && data[o + 4..o + 4 + |table|] == table
    ensures w.val + 4 * (k + 2) <= |data| && FieldAt(data, w, k) == entries[k]
  {
    hide TableBytes, WordAt;
    TableReads(data, o + 4, entries, table, k, w.val + 4 * (k + 1));
  }

  /** A table of words that hold these values is a node of them. */
  lemma TableHolds(data: seq<byte>, o: nat, t: nat, entries: seq<word>, vals: seq<Value>, table: seq<byte>, base: nat := HDR_SIZE)
    requires IsNodeType(t) && 1 <= |entries| == |vals| && base <= o
    requires table == TableBytes(entries) && o + 4 + |table| <= |data| <= OFFSET_LIMIT
    requires data[o..o + 4 + |table|] == Le(|entries| + 1, 4) + table
    requires forall k :: 0 <= k < |entries| ==> Holds(data, entries[k], vals[k], base)
    ensures Holds(data, Word(t, o), Node(t == TYPE_ARRAY, vals), base)
  {
    hide TableBytes, Le, WordAt, NatAt;
    var w: word := Word(t, o);
    var v := Node(t == TYPE_ARRAY, vals);
    TableParts(data, o, |entries| + 1, table);
    forall k | 0 <= k < |vals|
      ensures w.val + 4 * (k + 2) <= |data| && Holds(data, FieldAt(data, w, k), vals[k], base)
    {
      TableField(data, w, o, entries, table, k);
    }
    assert v.fields == vals && w.val == o;
  }

  lemma TableParts(data: seq<byte>, o: nat, count: nat, table: seq<byte>)
    requires o + 4 + |table| <= |data| && count < 0x1_0000_0000
    requires data[o..o + 4 + |table|] == Le(count, 4) + table
    ensures NatAt(data, o, 4) == count && data[o + 4..o + 4 + |table|] == table
  {
    PartsOf(Le(count, 4), table);
    PartFound(data, o, Le(count, 4) + table, 0, Le(count, 4));
    PartFound(data, o, Le(count, 4) + table, 4, table);
    Pow256Values();
    NatStored(data, o, count, 4);
  }

  lemma TableBuilt(h: HashFn, db: Db, t: nat, entries: seq<word>, vals: seq<Value>, base: nat := HDR_SIZE)
    requires Wf(db, base) && IsNodeType(t) && 1 <= |entries| == |vals|
    requires |db.data| <= OFFSET_LIMIT ==> forall k :: 0 <= k < |entries| ==> Holds(db.data, entries[k], vals[k], base)
    ensures var (db', w) := PutTable(h, db, t, entries);
            Built(db, db', w, Node(t == TYPE_ARRAY, vals), base) && db.data <= db'.data
  {
    hide TableBytes, Le, Write, NatAt, Holds;
    var entryBytes := TableBytes(entries);
    var table := Le(|entries| + 1, 4) + entryBytes;
    ConcatOne(table);
    WritePlaces(h, db, true, [table], 4, base);
    var (db', o) := Write(h, db, true, [table], 4);
    PrefixGrown(db.data, db'.data, base);
    if |db'.data| <= OFFSET_LIMIT {
      forall k | 0 <= k < |vals|
        ensures Holds(db'.data, entries[k], vals[k], base)
      {
        HoldsStable(db.data, db'.data, entries[k], vals[k], base);
      }
      assert o + |table| == o + 4 + |entryBytes|;
      TableHolds(db'.data, o, t, entries, vals, entryBytes, base);
    }
  }

  lemma {:induction false} TrimAgrees(data: seq<byte>, ws: seq<word>, vs: seq<Value>, base: nat := HDR_SIZE)
    requires |ws| == |vs| && forall k :: 0 <= k < |ws| ==> Holds(data, ws[k], vs[k], base)
    ensures |TrimWords(ws)| == |TrimValues(vs)|
    ensures forall k :: 0 <= k < |TrimWords(ws)| ==> Holds(data, TrimWords(ws)[k], TrimValues(vs)[k], base)
  {
    if ws != [] {
      TypeOfHeld(data, ws[|ws| - 1], vs[|vs| - 1], base);
      if ws[|ws| - 1] == NULL {
        TrimAgrees(data, ws[..|ws| - 1], vs[..|vs| - 1], base);
      }
    }
  }

  lemma NodeBuilt(h: HashFn, db: Db, isArray: bool, entries: seq<word>, vals: seq<Value>, base: nat := HDR_SIZE)
    requires Wf(db, base) && |entries| == |vals|
    requires forall k :: 0 <= k < |entries| ==> Holds(db.data, entries[k], vals[k], base)
    ensures var (db', w) := PutNode(h, db, isArray, entries);
            var kept := TrimValues(vals);
            Built(db, db', w, if kept == [] then NullValue else Node(isArray, kept), base) && db.data <= db'.data
  {
    TrimAgrees(db.data, entries, vals, base);
    NullHeld(db.data, base);
    if TrimWords(entries) != [] {
      TableBuilt(h, db, NodeType(isArray), TrimWords(entries), TrimValues(vals), base);
    }
  }

  lemma RootBuilt(db: Db, w: word, v: Value)
    requires Wf(db) && Holds(db.data, w, v)
    ensures Built(db, PutRoot(db, w), w, v)
  {
    var db' := PutRoot(db, w);
    assert db'.data[HDR_SIZE..] == db.data[HDR_SIZE..];
    HoldsStable(db.data, db'.data, w, v);
    forall b | 0 <= b < |db'.chains|
      ensures SlotsInside(db'.chains[b], |db'.data|)
    {
      assert SlotsInside(db.chains[b], |db.data|);
    }
  }

  /** Copying a tree builds the same tree in the destination, whatever the
      source was and whatever the destination already held. */
  lemma {:induction false} CopyBuilt(h: HashFn, db: Db, src: seq<byte>, w: word, v: Value, base: nat := HDR_SIZE)
    requires Wf(db, base) && Holds(src, w, v)
    ensures var (db', w') := Copy(h, db, src, w, v); Built(db, db', w', v, base) && db.data <= db'.data
    decreases v, 0
  {
    TypeOfHeld(src, w, v);
    if v.Node? {
      CopyFieldsBuilt(h, db, src, w, v, 0, base);
      var (db1, entries) := CopyFields(h, db, src, w, v, 0);
      assert |db1.data| <= OFFSET_LIMIT ==> forall k :: 0 <= k < |entries| ==> Holds(db1.data, entries[k - 0], v.fields[k], base);
      TableBuilt(h, db1, w.tag, entries, v.fields, base);
      var db2 := PutTable(h, db1, w.tag, entries).0;
      assert db.data <= db1.data <= db2.data;
      PrefixGrown(db.data, db2.data, base);
    } else if IsRef(w) {
      LeafBuilt(h, db, src, w, v, base);
    } else {
      ImmediateHeld(src, db.data, w, v, base);
    }
  }

  lemma ImmediateHeld(src: seq<byte>, data: seq<byte>, w: word, v: Value, base: nat := HDR_SIZE)
    requires Holds(src, w, v) && !v.Node? && !IsRef(w)
    ensures Holds(data, w, v, base)
  {
    TypeOfHeld(src, w, v);
  }

  /** The bytes of a leaf, found elsewhere, are the same leaf. */
  lemma LeafHolds(src: seq<byte>, w: word, v: Value, data: seq<byte>, o: nat, n: nat, base: nat := HDR_SIZE)
    requires Holds(src, w, v) && !v.Node? && IsRef(w) && base <= o < OFFSET_LIMIT
    requires w.val + PrefixSize(w.tag) <= |src| && n == LeafSize(src, w)
    requires w.val + n <= |src| && o + n <= |data| && src[w.val..w.val + n] == data[o..o + n]
    ensures Holds(data, Word(w.tag, o), v, base)
  {
    TypeOfHeld(src, w, v);
    if v.Blob? {
      BlobMoved(src, w, v.bytes, data, o, PrefixSize(w.tag), n, base);
    } else {
      NatMoved(src, w.val, data, o, n);
    }
  }

  lemma BlobMoved(src: seq<byte>, w: word, b: seq<byte>, data: seq<byte>, o: nat, k: nat, n: nat, base: nat := HDR_SIZE)
    requires Holds(src, w, Blob(b)) && base <= o < OFFSET_LIMIT && k == PrefixSize(w.tag) && n == k + |b|
    requires o + n <= |data| && src[w.val..w.val + n] == data[o..o + n]
    ensures Holds(data, Word(w.tag, o), Blob(b), base)
  {
    PrefixedMoved(src, w.val, data, o, k, b, n);
    BlobHeld(data, w.tag, o, k, b, base);
  }

  lemma PrefixedMoved(src: seq<byte>, p: nat, data: seq<byte>, o: nat, k: nat, b: seq<byte>, n: nat)
    requires n == k + |b| && p + n <= |src| && o + n <= |data| && src[p..p + n] == data[o..o + n]
    requires NatAt(src, p, k) == |b| && src[p + k..p + k + |b|] == b
    ensures NatAt(data, o, k) == |b| && data[o + k..o + k + |b|] == b
  {
    SameParts(src, p, data, o, k, |b|);
    NatMoved(src, p, data, o, k);
  }

  lemma BlobHeld(data: seq<byte>, t: nat, o: nat, k: nat, b: seq<byte>, base: nat := HDR_SIZE)
    requires IsBlobType(t) && k == PrefixSize(t) && base <= o < OFFSET_LIMIT
    requires o + k + |b| <= |data| && NatAt(data, o, k) == |b| && data[o + k..o + k + |b|] == b
    ensures Holds(data, Word(t, o), Blob(b), base)
  {
  }

  lemma SameParts(s: seq<byte>, p: nat, t: seq<byte>, q: nat, i: nat, j: nat)
    requires p + i + j <= |s| && q + i + j <= |t| && s[p..p + i + j] == t[q..q + i + j]
    ensures s[p..p + i] == t[q..q + i]
    ensures s[p + i..p + i + j] == t[q + i..q + i + j]
  {
    var n := i + j;
    assert p + i + j == p + n && q + i + j == q + n;
    assert s[p..p + n] == t[q..q + n];
    assert s[p..p + n][..i] == t[q..q + n][..i];
    assert s[p..p + n][..i] == s[p..p + i];
    assert t[q..q + n][..i] == t[q..q + i];
    SliceOfSlice(s, p, p + i + j, i, i + j);
    SliceOfSlice(t, q, q + i + j, i, i + j);
  }

  lemma LeafBuilt(h: HashFn, db: Db, src: seq<byte>, w: word, v: Value, base: nat := HDR_SIZE)
    requires Wf(db, base) && Holds(src, w, v) && !v.Node? && IsRef(w)
    ensures var (db', w') := Copy(h, db, src, w, v); Built(db, db', w', v, base) && db.data <= db'.data
  {
    hide Write, Concat, NatAt, Holds;
    LeafInside(src, w, v);
    LeafNonempty(src, w, v);
    var bytes := src[w.val..w.val + LeafSize(src, w)];
    ConcatOne(bytes);
    WritePlaces(h, db, true, [bytes], LeafAlign(w), base);
    var (db', o) := Write(h, db, true, [bytes], LeafAlign(w));
    assert Copy(h, db, src, w, v) == (db', Tag(w.tag, o));
    PrefixGrown(db.data, db'.data, base);
    if |db'.data| <= OFFSET_LIMIT {
      LeafHolds(src, w, v, db'.data, o, |bytes|, base);
    }
  }

  lemma LeafNonempty(src: seq<byte>, w: word, v: Value)
    requires Holds(src, w, v) && !v.Node? && IsRef(w)
    requires w.val + PrefixSize(w.tag) <= |src|
    ensures LeafSize(src, w) > 0
  {
  }

  /** What CopyFields leaves: entries that hold fields i.. of the node. */
  ghost predicate FieldsHeld(data: seq<byte>, entries: seq<word>, fields: seq<Value>, i: nat, base: nat := HDR_SIZE)
  {
    |entries| + i == |fields| && forall j :: i <= j < |fields| ==> Holds(data, entries[j - i], fields[j], base)
  }

  lemma {:induction false} CopyFieldsBuilt(h: HashFn, db: Db, src: seq<byte>, w: word, v: Value, i: nat, base: nat := HDR_SIZE)
    requires Wf(db, base) && Holds(src, w, v) && v.Node? && i <= |v.fields|
    ensures var (db', entries) := CopyFields(h, db, src, w, v, i);
            && Wf(db', base) && |db'.chains| == |db.chains| && db.data <= db'.data
            && (|db'.data| <= OFFSET_LIMIT ==> FieldsHeld(db'.data, entries, v.fields, i, base))
    decreases v, 0, |v.fields| - i
  {
    if i < |v.fields| {
      var f := FieldAt(src, w, i);
      CopyBuilt(h, db, src, f, v.fields[i], base);
      var (db1, c) := Copy(h, db, src, f, v.fields[i]);
      CopyFieldsBuilt(h, db1, src, w, v, i + 1, base);
      var (db2, rest) := CopyFields(h, db1, src, w, v, i + 1);
      assert CopyFields(h, db, src, w, v, i) == (db2, [c] + rest);
      if |db2.data| <= OFFSET_LIMIT {
        PrefixGrown(db1.data, db2.data, base);
        HoldsStable(db1.data, db2.data, c, v.fields[i], base);
        FieldsHeldCons(db2.data, c, rest, v.fields, i, base);
      }
    }
  }

  lemma FieldsHeldCons(data: seq<byte>, c: word, rest: seq<word>, fields: seq<Value>, i: nat, base: nat := HDR_SIZE)
    requires i < |fields| && Holds(data, c, fields[i], base) && FieldsHeld(data, rest, fields, i + 1, base)
    ensures FieldsHeld(data, [c] + rest, fields, i, base)
  {
    forall j | i <= j < |fields|
      ensures Holds(data, ([c] + rest)[j - i], fields[j], base)
    {
      if j > i {
        assert ([c] + rest)[j - i] == rest[j - (i + 1)];
      }
    }
  }

  /** The alignment a copied integer or blob gets, by the type of its word. */
  predicate LeafAligned(t: nat, a: nat)
  {
    (t == 8 && a == 1) || (t == 9 && a == 2) || (t in {2, 10} && a == 4) || (t == 3 && a == 8)
  }

  /** Where a copied integer or blob goes in a store without buckets: its bytes as they are, behind the
      padding for its type. */
  lemma LeafCopied(h: HashFn, db: Db, src: seq<byte>, w: word, v: Value, a: nat)
    requires Holds(src, w, v) && !v.Node? && IsRef(w) && db.chains == [] && LeafAligned(w.tag, a)
    requires w.val + PrefixSize(w.tag) <= |src|
    ensures var o := RoundUp(|db.data|, a);
            var n := LeafSize(src, w);
            && w.val + n <= |src|
            && Copy(h, db, src, w, v) == (db.(data := db.data + Zeroes(o - |db.data|) + src[w.val..w.val + n]), Tag(w.tag, o))
  {
    hide RoundUp, NatAt, LeafSize, LeafAlign, Holds, Concat, CachedWrite, PutTable, CopyFields, Scan;
    LeafInside(src, w, v);
    LeafMeasures(src, w, v, a);
    ConcatOne(src[w.val..w.val + LeafSize(src, w)]);
  }

  lemma LeafMeasures(src: seq<byte>, w: word, v: Value, a: nat)
    requires Holds(src, w, v) && !v.Node? && IsRef(w) && LeafAligned(w.tag, a) && w.val + PrefixSize(w.tag) <= |src|
    ensures LeafAlign(w) == a
    ensures v.Int? ==> LeafSize(src, w) == if w.tag == 2 then 4 else 8
    ensures v.Blob? ==> LeafSize(src, w) == |v.bytes| + if w.tag == 8 then 1 else if w.tag == 9 then 2 else 4
  {
    hide NatAt;
    TypeOfHeld(src, w, v);
  }

  // ---- Every word of every run ---------------------------------------------------

  ghost predicate AllHeld(db: Db, words: seq<word>, vals: seq<Value>, base: nat := HDR_SIZE)
  {
    |words| == |vals| && forall k :: 0 <= k < |words| ==> Holds(db.data, words[k], vals[k], base)
  }

  /** One operation: its result means what it should, and no earlier result
      changes its meaning. */
  lemma StepBuilds(h: HashFn, db: Db, words: seq<word>, vals: seq<Value>, op: Op, base: nat := HDR_SIZE)
    requires Wf(db, base) && AllHeld(db, words, vals, base) && ValidOp(op, |words|) && (op.RootOp? ==> base == HDR_SIZE)
    ensures var (db', w) := Step(h, db, words, op);
            && Built(db, db', w, OpMeaning(op, vals), base)
            && (|db'.data| <= OFFSET_LIMIT ==> AllHeld(db', words + [w], vals + [OpMeaning(op, vals)], base))
  {
    var (db', w) := Step(h, db, words, op);
    match op {
      case IntOp(n) => IntBuilt(h, db, n, base);
      case BlobOp(parts) => BlobBuilt(h, db, true, parts, base);
      case RawBlobOp(bytes) =>
        ConcatOne(bytes);
        BlobBuilt(h, db, false, [bytes], base);
      case NodeOp(isArray, refs) =>
        RefsHeld(db, words, vals, refs, base);
        NodeBuilt(h, db, isArray, RefWords(refs, words), RefValues(refs, vals), base);
      case RootOp(ref) =>
        RefsHeld(db, words, vals, [ref], base);
        assert ValidRef([ref][0], |words|);
        RootBuilt(db, RefWord(ref, words), RefValue(ref, vals));
      case NestedOp(inner) => NestedBuilt(h, db, inner, base);
      case CopyOp(src, cw, v) => CopyBuilt(h, db, src, cw, v, base);
    }
    if |db'.data| <= OFFSET_LIMIT {
      forall k | 0 <= k < |words|
        ensures Holds(db'.data, words[k], vals[k], base)
      {
        HoldsStable(db.data, db'.data, words[k], vals[k], base);
      }
    }
  }

  lemma RefsHeld(db: Db, words: seq<word>, vals: seq<Value>, refs: seq<Ref>, base: nat := HDR_SIZE)
    requires AllHeld(db, words, vals, base)
    requires forall k :: 0 <= k < |refs| ==> ValidRef(refs[k], |words|)
    ensures forall k :: 0 <= k < |refs| ==> Holds(db.data, RefWord(refs[k], words), RefValue(refs[k], vals), base)
  {
    NullHeld(db.data, base);
  }

  /** Every operation keeps the store in shape and only ever appends. */
  lemma StepGrows(h: HashFn, db: Db, words: seq<word>, op: Op, base: nat := HDR_SIZE)
    requires Wf(db, base) && ValidOp(op, |words|) && (op.RootOp? ==> base == HDR_SIZE)
    ensures var db' := Step(h, db, words, op).0;
            Wf(db', base) && |db'.chains| == |db.chains| && Grown(db.data, db'.data, base)
  {
    hide Write, TableBytes, Le, TrimWords, Concat, Holds, Copy, PutNested, Nested;
    match op {
      case IntOp(n) => IntBuilt(h, db, n, base);
      case BlobOp(parts) => BlobBuilt(h, db, true, parts, base);
      case RawBlobOp(bytes) =>
        ConcatOne(bytes);
        BlobBuilt(h, db, false, [bytes], base);
      case NodeOp(isArray, refs) =>
        var kept := TrimWords(RefWords(refs, words));
        if kept != [] {
          var table := Le(|kept| + 1, 4) + TableBytes(kept);
          ConcatOne(table);
          WritePlaces(h, db, true, [table], 4, base);
          PrefixGrown(db.data, Step(h, db, words, op).0.data, base);
        }
      case RootOp(ref) =>
        var db' := PutRoot(db, RefWord(ref, words));
        assert db'.data[HDR_SIZE..] == db.data[HDR_SIZE..];
        forall b | 0 <= b < |db'.chains|
          ensures SlotsInside(db'.chains[b], |db'.data|)
        {
          assert SlotsInside(db.chains[b], |db.data|);
        }
      case NestedOp(inner) => NestedBuilt(h, db, inner, base);
      case CopyOp(src, cw, v) => CopyBuilt(h, db, src, cw, v, base);
    }
  }

  /** The store and the result words after a run on a fresh store. */
  ghost function Run(h: HashFn, buckets: nat, ops: seq<Op>): (r: (Db, seq<word>))
    requires ValidRun(ops)
    ensures Wf(r.0) && |r.0.chains| == buckets && |r.1| == |ops|
  {
    if ops == [] then (Fresh(buckets), [])
    else
      var prev := ops[..|ops| - 1];
      assert ValidRun(prev);
      var (db, words) := Run(h, buckets, prev);
      assert ValidOp(ops[|ops| - 1], |words|);
      var (db', w) := Step(h, db, words, ops[|ops| - 1]);
      StepGrows(h, db, words, ops[|ops| - 1]);
      (db', words + [w])
  }

  lemma RunUnfold(h: HashFn, buckets: nat, ops: seq<Op>)
    requires ValidRun(ops) && ops != []
    ensures var prev := ops[..|ops| - 1];
            && ValidRun(prev) && ValidOp(ops[|ops| - 1], |prev|)
            && var (db, words) := Run(h, buckets, prev);
               var (db', w) := Step(h, db, words, ops[|ops| - 1]);
               && Run(h, buckets, ops) == (db', words + [w])
               && Grown(db.data, db'.data)
               && Meaning(ops) == Meaning(prev) + [OpMeaning(ops[|ops| - 1], Meaning(prev))]
  {
    var prev := ops[..|ops| - 1];
    assert ValidRun(prev);
    assert ValidOp(ops[|ops| - 1], |prev|);
    StepGrows(h, Run(h, buckets, prev).0, Run(h, buckets, prev).1, ops[|ops| - 1]);
  }

  /** Every word ever returned in a run still holds, at the end of the run, the
      value it was built from, as long as the arena stays within 28-bit
      offsets: cached and plain writes, interleaved copies and new roots
      disturb nothing. */
  lemma {:induction false} RunHolds(h: HashFn, buckets: nat, ops: seq<Op>)
    requires ValidRun(ops)
    ensures |Run(h, buckets, ops).0.data| <= OFFSET_LIMIT ==>
              AllHeld(Run(h, buckets, ops).0, Run(h, buckets, ops).1, Meaning(ops))
  {
    if ops != [] {
      var prev := ops[..|ops| - 1];
      RunUnfold(h, buckets, ops);
      var (db, words) := Run(h, buckets, prev);
      RunHolds(h, buckets, prev);
      if |Run(h, buckets, ops).0.data| <= OFFSET_LIMIT {
        StepBuilds(h, db, words, Meaning(prev), ops[|ops| - 1]);
      }
    }
  }

  // ---- Runs on a caller's buffer -----------------------------------------------------

  /** A run that can be made on a store without a header: no root is set. */
  ghost predicate Rootless(ops: seq<Op>) { forall k :: 0 <= k < |ops| ==> !ops[k].RootOp? }

  /** The store and the result words after a run on a caller's buffer, which has neither header
      nor cache. */
  ghost function StaticRun(h: HashFn, ops: seq<Op>): (r: (Db, seq<word>))
    requires ValidRun(ops) && Rootless(ops)
    ensures Wf(r.0, 0) && r.0.chains == [] && |r.1| == |ops|
  {
    if ops == [] then (Db([], []), [])
    else
      var prev := ops[..|ops| - 1];
      assert ValidRun(prev) && Rootless(prev);
      var (db, words) := StaticRun(h, prev);
      assert ValidOp(ops[|ops| - 1], |words|);
      var (db', w) := Step(h, db, words, ops[|ops| - 1]);
      StepGrows(h, db, words, ops[|ops| - 1], 0);
      (db', words + [w])
  }

  lemma StaticUnfold(h: HashFn, ops: seq<Op>)
    requires ValidRun(ops) && Rootless(ops) && ops != []
    ensures var prev := ops[..|ops| - 1];
            && ValidRun(prev) && Rootless(prev) && ValidOp(ops[|ops| - 1], |prev|)
            && var (db, words) := StaticRun(h, prev);
               var (db', w) := Step(h, db, words, ops[|ops| - 1]);
               && StaticRun(h, ops) == (db', words + [w])
               && |db.data| <= |db'.data|
               && Meaning(ops) == Meaning(prev) + [OpMeaning(ops[|ops| - 1], Meaning(prev))]
  {
    var prev := ops[..|ops| - 1];
    assert ValidRun(prev) && Rootless(prev);
    assert ValidOp(ops[|ops| - 1], |prev|);
    StepGrows(h, StaticRun(h, prev).0, StaticRun(h, prev).1, ops[|ops| - 1], 0);
  }

  /** There, too, every word ever returned still holds its value at the end; values may lie at
      any offset from 0 on. */
  lemma {:induction false} StaticRunHolds(h: HashFn, ops: seq<Op>)
    requires ValidRun(ops) && Rootless(ops)
    ensures |StaticRun(h, ops).0.data| <= OFFSET_LIMIT ==>
              AllHeld(StaticRun(h, ops).0, StaticRun(h, ops).1, Meaning(ops), 0)
  {
    if ops != [] {
      var prev := ops[..|ops| - 1];
      StaticUnfold(h, ops);
      var (db, words) := StaticRun(h, prev);
      StaticRunHolds(h, prev);
      if |StaticRun(h, ops).0.data| <= OFFSET_LIMIT {
        StepBuilds(h, db, words, Meaning(prev), ops[|ops| - 1], 0);
      }
    }
  }

  // ---- What the cache changes ------------------------------------------------------

  lemma RoundUpMono(x: nat, y: nat, a: nat)
    requires IsAlignment(a) && x <= y
    ensures RoundUp(x, a) <= RoundUp(y, a)
  {
  }

  /** The same type, and the same word if it is no offset. */
  predicate SameKind(w: word, w': word) { w.tag == w'.tag && (!IsRef(w) ==> w == w') }

  predicate SameKinds(ws: seq<word>, ws': seq<word>)
  {
    |ws| == |ws'| && forall k :: 0 <= k < |ws| ==> SameKind(ws[k], ws'[k])
  }

  /** A store, cached or not, that is no longer than one without a cache. */
  predicate Shorter(db: Db, plain: Db) { plain.chains == [] && |db.data| <= |plain.data| }

  /** The same number of bytes, written to both, leaves the cached one the shorter. */
  lemma WriteShorter(h: HashFn, h': HashFn, db: Db, plain: Db, cached: bool, segs: seq<seq<byte>>, segs': seq<seq<byte>>, align: nat)
    requires Shorter(db, plain) && IsAlignment(align) && |Concat(segs)| == |Concat(segs')|
    ensures Shorter(Write(h, db, cached, segs, align).0, Write(h', plain, cached, segs', align).0)
  {
    hide Concat, RoundUp, Scan;
    RoundUpMono(|db.data|, |plain.data|, align);
  }

  lemma BlobShorter(h: HashFn, h': HashFn, db: Db, plain: Db, cached: bool, parts: seq<seq<byte>>)
    requires Shorter(db, plain)
    ensures var (r, r') := (PutBlob(h, db, cached, parts), PutBlob(h', plain, cached, parts));
            Shorter(r.0, r'.0) && SameKind(r.1, r'.1)
  {
    hide Write, Concat, Le, Shorter;
    var size := |Concat(parts)|;
    if size > 0 {
      var k := PrefixSize(BlobType(size));
      WriteShorter(h, h', db, plain, cached, [Le(size, k)] + parts, [Le(size, k)] + parts, k);
    }
  }

  lemma IntShorter(h: HashFn, h': HashFn, db: Db, plain: Db, n: nat)
    requires Shorter(db, plain)
    ensures var (r, r') := (PutInt(h, db, n), PutInt(h', plain, n));
            Shorter(r.0, r'.0) && SameKind(r.1, r'.1)
  {
    hide Write, Concat, Le, Shorter;
    WriteShorter(h, h', db, plain, true, [Le(n, 8)], [Le(n, 8)], 4);
    WriteShorter(h, h', db, plain, true, [Le(n, 4)], [Le(n, 4)], 4);
  }

  lemma TableShorter(h: HashFn, h': HashFn, db: Db, plain: Db, t: nat, entries: seq<word>, entries': seq<word>)
    requires Shorter(db, plain) && IsNodeType(t) && |entries| == |entries'|
    ensures var (r, r') := (PutTable(h, db, t, entries), PutTable(h', plain, t, entries'));
            Shorter(r.0, r'.0) && SameKind(r.1, r'.1)
  {
    hide Write, Le, TableBytes, Shorter;
    var table, table' := Le(|entries| + 1, 4) + TableBytes(entries), Le(|entries| + 1, 4) + TableBytes(entries');
    ConcatOne(table);
    ConcatOne(table');
    WriteShorter(h, h', db, plain, true, [table], [table'], 4);
  }

  lemma {:induction false} TrimSame(ws: seq<word>, ws': seq<word>)
    requires SameKinds(ws, ws')
    ensures |TrimWords(ws)| == |TrimWords(ws')|
  {
    if ws != [] && ws[|ws| - 1] == NULL {
      TrimSame(ws[..|ws| - 1], ws'[..|ws| - 1]);
    }
  }

  lemma {:induction false} CopyShorter(h: HashFn, h': HashFn, db: Db, plain: Db, src: seq<byte>, w: word, v: Value)
    requires Shorter(db, plain) && Holds(src, w, v)
    ensures var (r, r') := (Copy(h, db, src, w, v), Copy(h', plain, src, w, v));
            Shorter(r.0, r'.0) && SameKind(r.1, r'.1)
    decreases v, 0
  {
    hide Write, Shorter, LeafSize, LeafAlign, PutTable, Holds;
    TypeOfHeld(src, w, v);
    if v.Node? {
      FieldsShorter(h, h', db, plain, src, w, v, 0);
      var (db1, entries) := CopyFields(h, db, src, w, v, 0);
      var (plain1, entries') := CopyFields(h', plain, src, w, v, 0);
      TableShorter(h, h', db1, plain1, w.tag, entries, entries');
    } else if IsRef(w) {
      LeafInside(src, w, v);
      var bytes := src[w.val..w.val + LeafSize(src, w)];
      WriteShorter(h, h', db, plain, true, [bytes], [bytes], LeafAlign(w));
    }
  }

  lemma {:induction false} FieldsShorter(h: HashFn, h': HashFn, db: Db, plain: Db, src: seq<byte>, w: word, v: Value, i: nat)
    requires Shorter(db, plain) && Holds(src, w, v) && v.Node? && i <= |v.fields|
    ensures Shorter(CopyFields(h, db, src, w, v, i).0, CopyFields(h', plain, src, w, v, i).0)
    decreases v, 0, |v.fields| - i
  {
    hide Shorter, Copy, NatAt, WordAt;
    if i < |v.fields| {
      var f := FieldAt(src, w, i);
      CopyShorter(h, h', db, plain, src, f, v.fields[i]);
      FieldsShorter(h, h', Copy(h, db, src, f, v.fields[i]).0, Copy(h', plain, src, f, v.fields[i]).0, src, w, v, i + 1);
    }
  }

  lemma StepShorter(h: HashFn, h': HashFn, db: Db, plain: Db, words: seq<word>, words': seq<word>, op: Op)
    requires Wf(db) && Wf(plain) && Shorter(db, plain) && SameKinds(words, words') && ValidOp(op, |words|)
    ensures var (r, r') := (Step(h, db, words, op), Step(h', plain, words', op));
            Shorter(r.0, r'.0) && SameKind(r.1, r'.1)
  {
    hide PutInt, PutBlob, PutTable, Copy, Concat, Pow256, Holds, TrimWords;
    match op {
      case IntOp(n) => IntShorter(h, h', db, plain, n);
      case BlobOp(parts) => BlobShorter(h, h', db, plain, true, parts);
      case RawBlobOp(bytes) => BlobShorter(h, h', db, plain, false, [bytes]);
      case NodeOp(isArray, refs) =>
        var ws, ws' := RefWords(refs, words), RefWords(refs, words');
        TrimSame(ws, ws');
        if TrimWords(ws) != [] {
          TableShorter(h, h', db, plain, NodeType(isArray), TrimWords(ws), TrimWords(ws'));
        }
      case RootOp(ref) =>
      case NestedOp(inner) =>
        var segs := [Le(|Nested(inner)|, 4)] + [Nested(inner)];
        WriteShorter(h, h', db, plain, false, segs, segs, 4);
      case CopyOp(src, cw, v) => CopyShorter(h, h', db, plain, src, cw, v);
    }
  }

  /** A store nested in another: at the end of any run its blob is read back, and is a file of one
      block, which holds the bytes of the inner store. So whatever a word held there it holds in that
      block. */
  lemma NestedRead(h: HashFn, buckets: nat, ops: seq<Op>, i: nat)
    requires ValidRun(ops) && i < |ops| && ops[i].NestedOp? && |ops[i].inner| > HDR_SIZE
    requires |Run(h, buckets, ops).0.data| <= OFFSET_LIMIT
    ensures var (db, words) := Run(h, buckets, ops);
            && ReadBlob(db.data, words[i]).Some?
            && AdbBlocks.Enumerate(ReadBlob(db.data, words[i]).value, 0) ==
               ([AdbBlocks.Block(AdbBlocks.TYPE_ADB, ops[i].inner)], AdbBlocks.Clean)
  {
    hide Run, Holds, AdbBlocks.Enumerate, AdbBlocks.BlockBytes;
    var (db, words) := Run(h, buckets, ops);
    RunHolds(h, buckets, ops);
    MeaningAt(ops, i);
    HoldsReads(db.data, words[i], Meaning(ops)[i]);
    assert ValidOp(ops[i], i);
    NestedFramed(ops[i].inner);
  }

  lemma NestedFramed(inner: seq<byte>)
    requires |Nested(inner)| < Pow256(4)
    ensures AdbBlocks.Enumerate(Nested(inner), 0) == ([AdbBlocks.Block(AdbBlocks.TYPE_ADB, inner)], AdbBlocks.Clean)
  {
    hide AdbBlocks.Enumerate, AdbBlocks.BlockBytes;
    Pow256Values();
    var b := AdbBlocks.Block(AdbBlocks.TYPE_ADB, inner);
    AdbBlocks.WrittenEnumerates([b]);
    assert [b][1..] == [] && AdbBlocks.Written([]) == [];
    assert AdbBlocks.Written([b]) == Nested(inner) + [] == Nested(inner);
  }

  lemma {:induction false} MeaningAt(ops: seq<Op>, i: nat)
    requires ValidRun(ops) && i < |ops| && ops[i].NestedOp?
    ensures ValidOp(ops[i], i) && Meaning(ops)[i] == OpMeaning(ops[i], Meaning(ops)[..i])
    decreases |ops|
  {
    hide OpMeaning;
    var prev := ops[..|ops| - 1];
    assert ValidRun(prev) && ValidOp(ops[i], i);
    assert Meaning(ops)[..|prev|] == Meaning(prev);
    if i < |prev| {
      MeaningAt(prev, i);
      assert Meaning(prev)[..i] == Meaning(ops)[..i];
    }
  }

  /** What caching changes is the length of the arena, which it never makes longer: with any hash
      and any number of buckets, a run that stays within 28-bit offsets without the cache stays
      within them with it, and the results of both read as the same values. The run without buckets
      is a yardstick: the source has a growing store only with some (adb.c:362). */
  lemma {:induction false} CacheShortens(h: HashFn, h': HashFn, buckets: nat, ops: seq<Op>)
    requires ValidRun(ops)
    ensures var (cached, plain) := (Run(h, buckets, ops), Run(h', 0, ops));
            && |cached.0.data| <= |plain.0.data| && SameKinds(cached.1, plain.1)
            && (|plain.0.data| <= OFFSET_LIMIT ==>
                  AllHeld(cached.0, cached.1, Meaning(ops)) && AllHeld(plain.0, plain.1, Meaning(ops)))
  {
    hide Step, AllHeld, OpMeaning;
    RunHolds(h, buckets, ops);
    RunHolds(h', 0, ops);
    if ops != [] {
      var prev, op := ops[..|ops| - 1], ops[|ops| - 1];
      RunUnfold(h, buckets, ops);
      RunUnfold(h', 0, ops);
      CacheShortens(h, h', buckets, prev);
      var (db, words) := Run(h, buckets, prev);
      var (plain, words') := Run(h', 0, prev);
      StepShorter(h, h', db, plain, words, words', op);
    }
  }
}
