/**
 When the cache makes equal values share one word, and when it does not.
 */
module AdbSharing {
  import opened Bytes
  import opened AdbValue
  import opened AdbSpec
  import opened AdbRuns

  /** The slot at which a search for these bytes under this hash stops. */
  function Stop(db: Db, hash: nat, bytes: seq<byte>): nat
    requires |db.chains| > 0
  {
    Scan(db.chains[BucketOf(hash, |db.chains|)], 0, hash, bytes, db.data)
  }

  /** Where the cache knows these bytes to be under this hash, if it does. */
  function Lookup(db: Db, hash: nat, bytes: seq<byte>): Option<nat>
  {
    if |db.chains| == 0 then None
    else
      var chain := db.chains[BucketOf(hash, |db.chains|)];
      var i := Stop(db, hash, bytes);
      if i < |chain| && chain[i].len != 0 then Some(chain[i].offs) else None
  }

  /** The write does not have to store again, for its alignment, bytes that the
      cache already knows. A caller can tell before the write. */
  predicate Clean(h: HashFn, db: Db, segs: seq<seq<byte>>, align: nat)
    requires IsAlignment(align)
  {
    var known := Lookup(db, h(segs), Concat(segs));
    known.Some? ==> Aligned(known.value, align)
  }

  /** Everything the first store's cache knows, the second's knows too. */
  ghost predicate Remembers(db: Db, db': Db)
  {
    forall hash, bytes :: Lookup(db, hash, bytes).Some? ==> Lookup(db', hash, bytes) == Lookup(db, hash, bytes)
  }

  lemma RemembersTrans(a: Db, b: Db, c: Db)
    requires Remembers(a, b) && Remembers(b, c)
    ensures Remembers(a, c)
  {
    hide Lookup;
  }

  lemma {:induction false} ScanStable(chain: seq<Entry>, chain': seq<Entry>, i: nat, hash: nat, bytes: seq<byte>, data: seq<byte>, data': seq<byte>)
    requires i <= |chain| && SlotsInside(chain, |data|) && Grown(data, data')
    requires var s := Scan(chain, i, hash, bytes, data);
             s < |chain| && chain[s].len != 0 && s < |chain'| && chain'[..s + 1] == chain[..s + 1]
    ensures Scan(chain', i, hash, bytes, data') == Scan(chain, i, hash, bytes, data)
    decreases |chain| - i
  {
    var s := Scan(chain, i, hash, bytes, data);
    assert chain'[i] == chain'[..s + 1][i] == chain[..s + 1][i] == chain[i];
    SameSlice(data, data', chain[i].offs, chain[i].len);
    if i < s {
      ScanStable(chain, chain', i + 1, hash, bytes, data, data');
    }
  }

  lemma {:induction false} ScanFinds(chain: seq<Entry>, i: nat, s: nat, hash: nat, bytes: seq<byte>, data: seq<byte>)
    requires i <= s < |chain| && Matches(chain[s], hash, bytes, data)
    requires forall k :: i <= k < s ==> chain[k].len != 0 && !Matches(chain[k], hash, bytes, data)
    ensures Scan(chain, i, hash, bytes, data) == s
    decreases s - i
  {
    if i < s {
      ScanFinds(chain, i + 1, s, hash, bytes, data);
    }
  }

  /** A growing arena and the same slots: nothing is forgotten. */
  lemma GrowthRemembers(db: Db, db': Db)
    requires Wf(db) && db'.chains == db.chains && Grown(db.data, db'.data)
    ensures Remembers(db, db')
  {
    forall hash, bytes | Lookup(db, hash, bytes).Some?
      ensures Lookup(db', hash, bytes) == Lookup(db, hash, bytes)
    {
      var chain := db.chains[BucketOf(hash, |db.chains|)];
      assert SlotsInside(chain, |db.data|);
      ScanStable(chain, chain, 0, hash, bytes, db.data, db'.data);
    }
  }

  /** A clean write makes its own place known; a write of known bytes changes
      nothing at all. */
  lemma CleanWrite(h: HashFn, db: Db, segs: seq<seq<byte>>, align: nat)
    requires Wf(db) && |db.chains| > 0 && IsAlignment(align) && |Concat(segs)| > 0
    requires Clean(h, db, segs, align)
    ensures var (db', o) := Write(h, db, true, segs, align);
            var known := Lookup(db, h(segs), Concat(segs));
            && Lookup(db', h(segs), Concat(segs)) == Some(o)
            && (known.Some? ==> db' == db && o == known.value)
  {
    hide Concat, RoundUp;
    var bytes, hash := Concat(segs), h(segs);
    var b := BucketOf(hash, |db.chains|);
    var chain := db.chains[b];
    var i := Stop(db, hash, bytes);
    var (db', o) := Write(h, db, true, segs, align);
    if Lookup(db, hash, bytes).None? {
      WritePlaces(h, db, true, segs, align);
      var chain' := db'.chains[b];
      assert chain' == Placed(chain, i, Entry(hash, |bytes|, o));
      forall k | 0 <= k < i
        ensures chain'[k].len != 0 && !Matches(chain'[k], hash, bytes, db'.data)
      {
        assert chain'[k] == chain[k];
        assert SlotsInside(chain, |db.data|);
        assert db.data[chain[k].offs..chain[k].offs + chain[k].len] == db'.data[chain[k].offs..chain[k].offs + chain[k].len];
      }
      ScanFinds(chain', 0, i, hash, bytes, db'.data);
    }
  }

  /** A clean write leaves every place the cache knew known. */
  lemma CleanKeeps(h: HashFn, db: Db, segs: seq<seq<byte>>, align: nat, hash: nat, bytes: seq<byte>)
    requires Wf(db) && |db.chains| > 0 && IsAlignment(align) && |Concat(segs)| > 0
    requires Clean(h, db, segs, align) && Lookup(db, hash, bytes).Some?
    ensures Lookup(Write(h, db, true, segs, align).0, hash, bytes) == Lookup(db, hash, bytes)
  {
    hide Concat, RoundUp;
    var (db', o) := Write(h, db, true, segs, align);
    if Lookup(db, h(segs), Concat(segs)).None? {
      WritePlaces(h, db, true, segs, align);
      PrefixGrown(db.data, db'.data);
      var b := BucketOf(hash, |db.chains|);
      var chain, chain' := db.chains[b], db'.chains[b];
      assert SlotsInside(chain, |db.data|);
      var s := Stop(db, hash, bytes);
      assert chain'[..s + 1] == chain[..s + 1] by {
        if b == BucketOf(h(segs), |db.chains|) {
          var i := Stop(db, h(segs), Concat(segs));
          assert i == |chain| || chain[i].len == 0;
          assert s < i;
        }
      }
      ScanStable(chain, chain', 0, hash, bytes, db.data, db'.data);
    }
  }

  lemma CleanAll(h: HashFn, db: Db, segs: seq<seq<byte>>, align: nat)
    requires Wf(db) && |db.chains| > 0 && IsAlignment(align) && |Concat(segs)| > 0
    requires Clean(h, db, segs, align)
    ensures var (db', o) := Write(h, db, true, segs, align);
            var known := Lookup(db, h(segs), Concat(segs));
            && Lookup(db', h(segs), Concat(segs)) == Some(o)
            && (known.Some? ==> db' == db && o == known.value)
            && Remembers(db, db')
  {
    hide Write, Lookup, Concat;
    CleanWrite(h, db, segs, align);
    forall hash, bytes | Lookup(db, hash, bytes).Some?
      ensures Lookup(Write(h, db, true, segs, align).0, hash, bytes) == Lookup(db, hash, bytes)
    {
      CleanKeeps(h, db, segs, align, hash, bytes);
    }
  }

  // ---- The word a value has -------------------------------------------------------

  /** The type of an integer's word, and its bytes in the arena. */
  function IntType(n: nat): nat
  {
    if n >= 0x1_0000_0000 then TYPE_INT_64 else if n >= 0x1000_0000 then TYPE_INT_32 else TYPE_INT
  }

  function IntBytes(n: nat): seq<byte> { if n >= 0x1_0000_0000 then Le(n, 8) else Le(n, 4) }

  function Prefix(size: nat): seq<byte> { Le(size, PrefixSize(BlobType(size))) }

  function BlobBytes(bytes: seq<byte>): seq<byte> { Prefix(|bytes|) + bytes }

  function TableOf(entries: seq<word>): seq<byte> { Le(|entries| + 1, 4) + TableBytes(entries) }

  function Tagged(place: Option<nat>, t: nat): Option<word>
    requires t < 16
  {
    match place case None => None case Some(o) => Some(Tag(t, o))
  }

  /** The hash under which the contents of a blob are always written. Integers and tables are
      written in one segment. */
  type BlobKey = seq<byte> -> nat

  /** The word under which the cache knows a value: the words of its children are
      looked up first, then the table of them. */
  function Known(h: HashFn, key: BlobKey, db: Db, v: Value): Option<word>
    decreases v, 0
  {
    match v
    case Special(code) => if code < OFFSET_LIMIT then Some(Word(TYPE_SPECIAL, code)) else None
    case Int(n) =>
      if n < 0x1000_0000 then Some(Tag(TYPE_INT, n))
      else Tagged(Lookup(db, h([IntBytes(n)]), IntBytes(n)), IntType(n))
    case Blob(b) => Tagged(Lookup(db, key(b), BlobBytes(b)), BlobType(|b|))
    case Node(isArray, fields) =>
      match KnownAll(h, key, db, fields, |fields|)
      case None => None
      case Some(entries) => Tagged(Lookup(db, h([TableOf(entries)]), TableOf(entries)), NodeType(isArray))
  }

  function KnownAll(h: HashFn, key: BlobKey, db: Db, fields: seq<Value>, n: nat): (r: Option<seq<word>>)
    requires n <= |fields|
    ensures r.Some? ==> |r.value| == n
    decreases fields, n
  {
    if n == 0 then Some([])
    else
      match (KnownAll(h, key, db, fields, n - 1), Known(h, key, db, fields[n - 1]))
      case (Some(ws), Some(w)) => Some(ws + [w])
      case _ => None
  }

  lemma {:induction false} KnownStable(h: HashFn, key: BlobKey, db: Db, db': Db, v: Value)
    requires Remembers(db, db') && Known(h, key, db, v).Some?
    ensures Known(h, key, db', v) == Known(h, key, db, v)
    decreases v, 0
  {
    hide Lookup, TableOf, BlobBytes, IntBytes;
    if v.Node? {
      KnownAllStable(h, key, db, db', v.fields, |v.fields|);
    }
  }

  lemma {:induction false} KnownAllStable(h: HashFn, key: BlobKey, db: Db, db': Db, fields: seq<Value>, n: nat)
    requires Remembers(db, db') && n <= |fields| && KnownAll(h, key, db, fields, n).Some?
    ensures KnownAll(h, key, db', fields, n) == KnownAll(h, key, db, fields, n)
    decreases fields, n
  {
    hide Lookup, TableOf, BlobBytes, IntBytes;
    if n > 0 {
      KnownAllStable(h, key, db, db', fields, n - 1);
      KnownStable(h, key, db, db', fields[n - 1]);
    }
  }

  lemma {:induction false} KnownFields(h: HashFn, key: BlobKey, db: Db, words: seq<word>, fields: seq<Value>, n: nat)
    requires n <= |fields| == |words| && forall k :: 0 <= k < |fields| ==> Known(h, key, db, fields[k]) == Some(words[k])
    ensures KnownAll(h, key, db, fields, n) == Some(words[..n])
    decreases n
  {
    if n == 0 {
      assert words[..n] == [];
    } else {
      KnownFields(h, key, db, words, fields, n - 1);
      assert words[..n] == words[..n - 1] + [words[n - 1]];
    }
  }

  lemma {:induction false} FieldsKnown(h: HashFn, key: BlobKey, db: Db, fields: seq<Value>, n: nat, k: nat)
    requires k < n <= |fields| && KnownAll(h, key, db, fields, n).Some?
    ensures Known(h, key, db, fields[k]) == Some(KnownAll(h, key, db, fields, n).value[k])
    decreases n
  {
    if k < n - 1 {
      FieldsKnown(h, key, db, fields, n - 1, k);
    }
  }

  // ---- Copies ---------------------------------------------------------------------

  /** The word has the type the writers choose for its value, in all its parts. */
  ghost predicate Canonical(data: seq<byte>, w: word, v: Value)
    requires Holds(data, w, v)
    decreases v
  {
    match v
    case Special(_) => true
    case Int(n) => w.tag == IntType(n)
    case Blob(b) => w.tag == BlobType(|b|)
    case Node(_, fields) => forall i :: 0 <= i < |fields| ==> Canonical(data, FieldAt(data, w, i), fields[i])
  }

  /** Each blob of the value, given in one segment as adb_w_copy does, has the hash it is always
      written with. */
  predicate OneSegment(h: HashFn, key: BlobKey, v: Value)
    decreases v
  {
    match v
    case Blob(b) => h([BlobBytes(b)]) == key(b)
    case Node(_, fields) => forall i :: 0 <= i < |fields| ==> OneSegment(h, key, fields[i])
    case _ => true
  }

  /** What adb_w_copy takes over of a leaf. */
  function LeafOf(src: seq<byte>, w: word): seq<byte>
    requires w.val + PrefixSize(w.tag) <= |src| && w.val + LeafSize(src, w) <= |src|
  {
    src[w.val..w.val + LeafSize(src, w)]
  }

  /** No write of the copy stores known bytes again for their alignment. */
  ghost predicate CleanCopy(h: HashFn, db: Db, src: seq<byte>, w: word, v: Value)
    requires Holds(src, w, v)
    decreases v, 0
  {
    if v.Node? then
      var (db', entries) := CopyFields(h, db, src, w, v, 0);
      CleanFields(h, db, src, w, v, 0) && Clean(h, db', [TableOf(entries)], 4)
    else if IsRef(w) then
      LeafInside(src, w, v);
      Clean(h, db, [LeafOf(src, w)], LeafAlign(w))
    else true
  }

  ghost predicate CleanFields(h: HashFn, db: Db, src: seq<byte>, w: word, v: Value, i: nat)
    requires Holds(src, w, v) && v.Node? && i <= |v.fields|
    decreases v, 0, |v.fields| - i
  {
    i < |v.fields| ==>
      var f := FieldAt(src, w, i);
      CleanCopy(h, db, src, f, v.fields[i]) && CleanFields(h, Copy(h, db, src, f, v.fields[i]).0, src, w, v, i + 1)
  }

  /** The number in the arena, written again, is the bytes it was read from. */
  lemma NatBytes(data: seq<byte>, o: nat, n: nat, k: nat)
    requires o + k <= |data| && NatAt(data, o, k) == n
    ensures data[o..o + k] == Le(n, k)
  {
    NatAtReads(data, o, k);
    FromLeRoundTrip(data[o..o + k]);
  }

  lemma IntLeaf(src: seq<byte>, w: word, n: nat)
    requires Holds(src, w, Int(n)) && w.tag == IntType(n) && IsRef(w)
    requires w.val + PrefixSize(w.tag) <= |src| && w.val + LeafSize(src, w) <= |src|
    ensures n >= 0x1000_0000 && LeafOf(src, w) == IntBytes(n)
  {
    hide NatAt, Le;
    NatBytes(src, w.val, n, if w.tag == TYPE_INT_32 then 4 else 8);
  }

  lemma BlobLeaf(src: seq<byte>, w: word, b: seq<byte>, k: nat)
    requires Holds(src, w, Blob(b)) && w.tag == BlobType(|b|) && k == PrefixSize(w.tag)
    requires w.val + k <= |src| && w.val + LeafSize(src, w) <= |src|
    ensures LeafOf(src, w) == BlobBytes(b)
  {
    hide NatAt, Le;
    NatBytes(src, w.val, |b|, k);
    Adjacent(src, w.val, k, |b|);
  }

  lemma Adjacent(s: seq<byte>, o: nat, k: nat, n: nat)
    requires o + k + n <= |s|
    ensures s[o..o + (k + n)] == s[o..o + k] + s[o + k..o + k + n]
  {
    assert o + (k + n) == o + k + n;
  }

  /** A canonical leaf has the bytes the writers give it. */
  lemma LeafBytes(src: seq<byte>, w: word, v: Value)
    requires Holds(src, w, v) && Canonical(src, w, v) && IsRef(w) && !v.Node?
    requires w.val + PrefixSize(w.tag) <= |src| && w.val + LeafSize(src, w) <= |src|
    ensures v.Int? ==> v.n >= 0x1000_0000 && LeafOf(src, w) == IntBytes(v.n)
    ensures v.Blob? ==> LeafOf(src, w) == BlobBytes(v.bytes)
  {
    hide LeafOf, LeafSize, IntBytes, BlobBytes, Holds;
    if v.Int? {
      IntLeaf(src, w, v.n);
    } else if v.Blob? {
      BlobLeaf(src, w, v.bytes, PrefixSize(w.tag));
    }
  }

  /** What a clean operation leaves: nothing forgotten and, if its result is shared, the word
      known for its value, and the store untouched if it was known before. */
  ghost predicate Settles(h: HashFn, key: BlobKey, db: Db, db': Db, w: word, v: Value, shared: bool)
  {
    && Remembers(db, db')
    && (shared ==> Known(h, key, db', v) == Some(w) && (Known(h, key, db, v).Some? ==> db' == db))
  }

  lemma LeafSettles(h: HashFn, key: BlobKey, db: Db, src: seq<byte>, w: word, v: Value)
    requires Wf(db) && |db.chains| > 0 && Holds(src, w, v) && !v.Node? && IsRef(w) && CleanCopy(h, db, src, w, v)
    ensures var (db', r) := Copy(h, db, src, w, v);
            Settles(h, key, db, db', r, v, Canonical(src, w, v) && OneSegment(h, key, v))
  {
    hide Write, Lookup, Concat, NatAt, Holds, IntBytes, BlobBytes, LeafSize;
    LeafInside(src, w, v);
    LeafNonempty(src, w, v);
    TypeOfHeld(src, w, v);
    var bytes := LeafOf(src, w);
    ConcatOne(bytes);
    CleanAll(h, db, [bytes], LeafAlign(w));
    if Canonical(src, w, v) {
      LeafBytes(src, w, v);
    }
  }

  lemma {:induction false} CopySettles(h: HashFn, key: BlobKey, db: Db, src: seq<byte>, w: word, v: Value)
    requires Wf(db) && |db.chains| > 0 && Holds(src, w, v) && CleanCopy(h, db, src, w, v)
    ensures var (db', r) := Copy(h, db, src, w, v);
            Settles(h, key, db, db', r, v, Canonical(src, w, v) && OneSegment(h, key, v))
    decreases v, 0
  {
    hide Write, Lookup, Concat, TableOf, NatAt;
    TypeOfHeld(src, w, v);
    if v.Node? {
      FieldsSettle(h, key, db, src, w, v, 0);
      CopyFieldsBuilt(h, db, src, w, v, 0);
      TableSettles(h, key, db, src, w, v);
    } else if IsRef(w) {
      LeafSettles(h, key, db, src, w, v);
    }
  }

  /** The copied entries from i on are known for their values. */
  ghost predicate EntriesKnown(h: HashFn, key: BlobKey, db: Db, entries: seq<word>, fields: seq<Value>, i: nat)
  {
    |entries| + i == |fields| && forall j :: i <= j < |fields| ==> Known(h, key, db, fields[j]) == Some(entries[j - i])
  }

  ghost predicate FieldsFine(h: HashFn, key: BlobKey, src: seq<byte>, w: word, v: Value, i: nat)
    requires Holds(src, w, v) && v.Node?
  {
    forall j :: i <= j < |v.fields| ==> Canonical(src, FieldAt(src, w, j), v.fields[j]) && OneSegment(h, key, v.fields[j])
  }

  lemma {:induction false} FieldsSettle(h: HashFn, key: BlobKey, db: Db, src: seq<byte>, w: word, v: Value, i: nat)
    requires Wf(db) && |db.chains| > 0 && Holds(src, w, v) && v.Node? && i <= |v.fields| && CleanFields(h, db, src, w, v, i)
    ensures var (db', entries) := CopyFields(h, db, src, w, v, i);
            && Remembers(db, db')
            && (FieldsFine(h, key, src, w, v, i) ==>
                  && EntriesKnown(h, key, db', entries, v.fields, i)
                  && ((forall j :: i <= j < |v.fields| ==> Known(h, key, db, v.fields[j]).Some?) ==> db' == db))
    decreases v, 0, |v.fields| - i
  {
    hide Write, Lookup, Concat, NatAt, Known;
    if i < |v.fields| {
      var f := FieldAt(src, w, i);
      CopySettles(h, key, db, src, f, v.fields[i]);
      CopyBuilt(h, db, src, f, v.fields[i]);
      var (db1, c) := Copy(h, db, src, f, v.fields[i]);
      FieldsSettle(h, key, db1, src, w, v, i + 1);
      var (db2, rest) := CopyFields(h, db1, src, w, v, i + 1);
      RemembersTrans(db, db1, db2);
      if FieldsFine(h, key, src, w, v, i) {
        assert FieldsFine(h, key, src, w, v, i + 1);
        KnownStable(h, key, db1, db2, v.fields[i]);
        EntriesCons(h, key, db2, c, rest, v.fields, i);
      }
    }
  }

  lemma EntriesCons(h: HashFn, key: BlobKey, db: Db, c: word, rest: seq<word>, fields: seq<Value>, i: nat)
    requires i < |fields| && Known(h, key, db, fields[i]) == Some(c) && EntriesKnown(h, key, db, rest, fields, i + 1)
    ensures EntriesKnown(h, key, db, [c] + rest, fields, i)
  {
    hide Known;
    forall j | i <= j < |fields|
      ensures Known(h, key, db, fields[j]) == Some(([c] + rest)[j - i])
    {
      if j > i {
        assert ([c] + rest)[j - i] == rest[j - (i + 1)];
      }
    }
  }

  lemma TableSettles(h: HashFn, key: BlobKey, db: Db, src: seq<byte>, w: word, v: Value)
    requires Wf(db) && |db.chains| > 0 && Holds(src, w, v) && v.Node? && CleanCopy(h, db, src, w, v)
    requires var (db', entries) := CopyFields(h, db, src, w, v, 0);
             && Wf(db') && |db'.chains| > 0 && Remembers(db, db')
             && (FieldsFine(h, key, src, w, v, 0) ==>
                   && EntriesKnown(h, key, db', entries, v.fields, 0)
                   && ((forall j :: 0 <= j < |v.fields| ==> Known(h, key, db, v.fields[j]).Some?) ==> db' == db))
    ensures var (db', r) := Copy(h, db, src, w, v);
            Settles(h, key, db, db', r, v, Canonical(src, w, v) && OneSegment(h, key, v))
  {
    hide Write, Lookup, Concat, NatAt, CopyFields;
    TypeOfHeld(src, w, v);
    var (db1, entries) := CopyFields(h, db, src, w, v, 0);
    TableKnown(h, key, db1, w.tag, entries, v.fields);
    var db2 := PutTable(h, db1, w.tag, entries).0;
    RemembersTrans(db, db1, db2);
    if Canonical(src, w, v) && OneSegment(h, key, v) {
      assert FieldsFine(h, key, src, w, v, 0);
      forall k | 0 <= k < |v.fields|
        ensures Known(h, key, db1, v.fields[k]) == Some(entries[k])
      {
        assert entries[k - 0] == entries[k];
      }
      if Known(h, key, db, v).Some? {
        forall k | 0 <= k < |v.fields|
          ensures Known(h, key, db, v.fields[k]).Some?
        {
          FieldsKnown(h, key, db, v.fields, |v.fields|, k);
        }
      }
    }
  }

  /** A table of known entries. */
  lemma TableKnown(h: HashFn, key: BlobKey, db: Db, t: nat, entries: seq<word>, fields: seq<Value>)
    requires Wf(db) && |db.chains| > 0 && IsNodeType(t) && |entries| == |fields| && Clean(h, db, [TableOf(entries)], 4)
    ensures var (db', w) := PutTable(h, db, t, entries);
            Settles(h, key, db, db', w, Node(t == TYPE_ARRAY, fields),
                    forall k :: 0 <= k < |fields| ==> Known(h, key, db, fields[k]) == Some(entries[k]))
  {
    hide Write, Lookup, TableBytes, Le, Concat;
    ConcatOne(TableOf(entries));
    CleanAll(h, db, [TableOf(entries)], 4);
    var db' := PutTable(h, db, t, entries).0;
    if forall k :: 0 <= k < |fields| ==> Known(h, key, db, fields[k]) == Some(entries[k]) {
      KnownFields(h, key, db, entries, fields, |fields|);
      assert entries[..|fields|] == entries;
      KnownAllStable(h, key, db, db', fields, |fields|);
    }
  }

  // ---- Runs -----------------------------------------------------------------------

  /** No cached write of the operation stores known bytes again for their alignment. */
  ghost predicate CleanOp(h: HashFn, db: Db, words: seq<word>, op: Op)
    requires ValidOp(op, |words|)
  {
    match op
    case IntOp(n) => n >= 0x1000_0000 ==> Clean(h, db, [IntBytes(n)], 4)
    case BlobOp(parts) =>
      var size := |Concat(parts)|;
      size > 0 ==> Clean(h, db, [Prefix(size)] + parts, PrefixSize(BlobType(size)))
    case RawBlobOp(_) => true
    case NodeOp(_, refs) =>
      var kept := TrimWords(RefWords(refs, words));
      kept != [] ==> Clean(h, db, [TableOf(kept)], 4)
    case RootOp(_) => true
    case NestedOp(_) => true
    case CopyOp(src, w, v) => CleanCopy(h, db, src, w, v)
  }

  ghost predicate CleanRun(h: HashFn, buckets: nat, ops: seq<Op>)
    requires ValidRun(ops)
  {
    ops != [] ==>
      var prev := ops[..|ops| - 1];
      var op := ops[|ops| - 1];
      && ValidRun(prev) && CleanRun(h, buckets, prev) && ValidOp(op, |prev|)
      && CleanOp(h, Run(h, buckets, prev).0, Run(h, buckets, prev).1, op)
  }

  predicate SharedRef(ref: Ref, shared: seq<bool>) { ref.Result? ==> ref.i < |shared| && shared[ref.i] }

  /** The result of the operation is looked for, and kept, where its value belongs: the operation
      is cached, its blobs have the hash they are always written with, a copy is of a canonical
      word, and the entries of a table are shared themselves. */
  ghost predicate SharedOp(h: HashFn, key: BlobKey, op: Op, shared: seq<bool>)
    requires ValidOp(op, |shared|)
  {
    match op
    case IntOp(_) => true
    case BlobOp(parts) => Concat(parts) != [] ==> h([Prefix(|Concat(parts)|)] + parts) == key(Concat(parts))
    case RawBlobOp(bytes) => bytes == []
    case NodeOp(_, refs) => forall k :: 0 <= k < |refs| ==> SharedRef(refs[k], shared)
    case RootOp(ref) => SharedRef(ref, shared)
    case NestedOp(inner) => |inner| <= HDR_SIZE
    case CopyOp(src, w, v) => Canonical(src, w, v) && OneSegment(h, key, v)
  }

  /** Which results of a run are shared. */
  ghost function Shared(h: HashFn, key: BlobKey, ops: seq<Op>): (r: seq<bool>)
    requires ValidRun(ops)
    ensures |r| == |ops|
  {
    if ops == [] then []
    else
      var prev := ops[..|ops| - 1];
      assert ValidRun(prev) && ValidOp(ops[|ops| - 1], |prev|);
      Shared(h, key, prev) + [SharedOp(h, key, ops[|ops| - 1], Shared(h, key, prev))]
  }

  ghost predicate SharedKnown(h: HashFn, key: BlobKey, db: Db, words: seq<word>, vals: seq<Value>, shared: seq<bool>)
  {
    && |words| == |vals| == |shared|
    && forall k :: 0 <= k < |words| && shared[k] ==> Known(h, key, db, vals[k]) == Some(words[k])
  }

  lemma KnownOnlyNull(h: HashFn, key: BlobKey, db: Db, v: Value)
    requires Known(h, key, db, v).Some?
    ensures Known(h, key, db, v).value == NULL <==> v == NullValue
  {
  }

  lemma {:induction false} TrimKnown(h: HashFn, key: BlobKey, db: Db, ws: seq<word>, vs: seq<Value>)
    requires |ws| == |vs| && forall k :: 0 <= k < |ws| ==> Known(h, key, db, vs[k]) == Some(ws[k])
    ensures |TrimWords(ws)| == |TrimValues(vs)|
    ensures forall k :: 0 <= k < |TrimWords(ws)| ==> Known(h, key, db, TrimValues(vs)[k]) == Some(TrimWords(ws)[k])
  {
    if ws != [] {
      KnownOnlyNull(h, key, db, vs[|vs| - 1]);
      if ws[|ws| - 1] == NULL {
        TrimKnown(h, key, db, ws[..|ws| - 1], vs[..|vs| - 1]);
      }
    }
  }

  lemma IntSettles(h: HashFn, key: BlobKey, db: Db, n: nat)
    requires Wf(db) && |db.chains| > 0 && (n >= 0x1000_0000 ==> Clean(h, db, [IntBytes(n)], 4))
    ensures var (db', w) := PutInt(h, db, n); Settles(h, key, db, db', w, Int(n), true)
  {
    hide Write, Lookup, Le, Concat;
    if n >= 0x1000_0000 {
      ConcatOne(IntBytes(n));
      CleanAll(h, db, [IntBytes(n)], 4);
    }
  }

  lemma BlobSettles(h: HashFn, key: BlobKey, db: Db, parts: seq<seq<byte>>)
    requires Wf(db) && |db.chains| > 0 && |Concat(parts)| < Pow256(4) && CleanOp(h, db, [], BlobOp(parts))
    ensures var (db', w) := PutBlob(h, db, true, parts);
            Settles(h, key, db, db', w, BlobValue(Concat(parts)),
                    Concat(parts) != [] ==> h([Prefix(|Concat(parts)|)] + parts) == key(Concat(parts)))
  {
    hide Write, Lookup, Le, Pow256;
    var bytes := Concat(parts);
    if bytes != [] {
      var segs := [Prefix(|bytes|)] + parts;
      ConcatAppend([Prefix(|bytes|)], parts);
      ConcatOne(Prefix(|bytes|));
      CleanAll(h, db, segs, PrefixSize(BlobType(|bytes|)));
    }
  }

  lemma RawSettles(h: HashFn, key: BlobKey, db: Db, bytes: seq<byte>)
    requires Wf(db) && |bytes| < Pow256(4)
    ensures var (db', w) := PutBlob(h, db, false, [bytes]);
            Settles(h, key, db, db', w, BlobValue(bytes), bytes == [])
  {
    hide Lookup, Le, Pow256, RoundUp;
    ConcatOne(bytes);
    BlobBuilt(h, db, false, [bytes]);
    GrowthRemembers(db, PutBlob(h, db, false, [bytes]).0);
  }

  lemma NestedSettles(h: HashFn, key: BlobKey, db: Db, inner: seq<byte>)
    requires Wf(db) && |Nested(inner)| < Pow256(4)
    ensures var (db', w) := PutNested(h, db, inner);
            Settles(h, key, db, db', w, if |inner| <= HDR_SIZE then NullValue else Blob(Nested(inner)), |inner| <= HDR_SIZE)
  {
    hide Lookup, Le, Pow256, RoundUp, Nested;
    NestedBuilt(h, db, inner);
    GrowthRemembers(db, PutNested(h, db, inner).0);
  }

  lemma NodeSettles(h: HashFn, key: BlobKey, db: Db, words: seq<word>, vals: seq<Value>, shared: seq<bool>, isArray: bool, refs: seq<Ref>)
    requires Wf(db) && |db.chains| > 0 && SharedKnown(h, key, db, words, vals, shared)
    requires ValidOp(NodeOp(isArray, refs), |words|) && CleanOp(h, db, words, NodeOp(isArray, refs))
    ensures var (db', w) := PutNode(h, db, isArray, RefWords(refs, words));
            var op := NodeOp(isArray, refs);
            Settles(h, key, db, db', w, OpMeaning(op, vals), SharedOp(h, key, op, shared))
  {
    hide Write, Lookup, TableOf, Concat, Known;
    var ws, vs := RefWords(refs, words), RefValues(refs, vals);
    var kept, fields := TrimWords(ws), TrimValues(vs);
    if SharedOp(h, key, NodeOp(isArray, refs), shared) {
      forall k | 0 <= k < |refs|
        ensures Known(h, key, db, vs[k]) == Some(ws[k])
      {
        NullKnown(h, key, db);
        assert SharedRef(refs[k], shared);
      }
      TrimKnown(h, key, db, ws, vs);
      NullKnown(h, key, db);
    }
    if kept != [] {
      if |fields| == |kept| {
        TableKnown(h, key, db, NodeType(isArray), kept, fields);
      } else {
        TableKnown(h, key, db, NodeType(isArray), kept, seq(|kept|, _ => NullValue));
      }
    }
  }

  lemma NullKnown(h: HashFn, key: BlobKey, db: Db)
    ensures Known(h, key, db, NullValue) == Some(NULL)
  {
  }

  lemma RootRemembers(db: Db, w: word)
    requires Wf(db)
    ensures Remembers(db, PutRoot(db, w))
  {
    hide Le, Lookup;
    assert PutRoot(db, w).data[HDR_SIZE..] == db.data[HDR_SIZE..];
    GrowthRemembers(db, PutRoot(db, w));
  }

  lemma RootSettles(h: HashFn, key: BlobKey, db: Db, words: seq<word>, vals: seq<Value>, shared: seq<bool>, ref: Ref)
    requires Wf(db) && SharedKnown(h, key, db, words, vals, shared) && ValidRef(ref, |words|)
    ensures var db' := PutRoot(db, RefWord(ref, words));
            && Remembers(db, db')
            && (SharedRef(ref, shared) ==> Known(h, key, db', RefValue(ref, vals)) == Some(RefWord(ref, words)))
  {
    hide Lookup, Known, PutRoot, Remembers;
    RootRemembers(db, RefWord(ref, words));
    NullKnown(h, key, db);
    if SharedRef(ref, shared) {
      KnownStable(h, key, db, PutRoot(db, RefWord(ref, words)), RefValue(ref, vals));
    }
  }

  /** One clean operation: nothing is forgotten, and a shared result is known for its value. */
  lemma StepSettles(h: HashFn, key: BlobKey, db: Db, words: seq<word>, vals: seq<Value>, shared: seq<bool>, op: Op)
    requires Wf(db) && |db.chains| > 0 && SharedKnown(h, key, db, words, vals, shared)
    requires ValidOp(op, |words|) && CleanOp(h, db, words, op)
    ensures var (db', w) := Step(h, db, words, op);
            && Remembers(db, db')
            && (SharedOp(h, key, op, shared) ==>
                  && Known(h, key, db', OpMeaning(op, vals)) == Some(w)
                  && (!op.RootOp? && Known(h, key, db, OpMeaning(op, vals)).Some? ==> db' == db))
  {
    hide Lookup, Known, Remembers, PutInt, PutBlob, PutNode, PutRoot, PutNested, Copy, Clean, CleanCopy, Concat, Canonical,
      OneSegment, Pow256, Nested;
    match op {
      case IntOp(n) => IntSettles(h, key, db, n);
      case BlobOp(parts) => BlobSettles(h, key, db, parts);
      case RawBlobOp(bytes) => RawSettles(h, key, db, bytes);
      case NodeOp(isArray, refs) => NodeSettles(h, key, db, words, vals, shared, isArray, refs);
      case RootOp(ref) => RootSettles(h, key, db, words, vals, shared, ref);
      case NestedOp(inner) => NestedSettles(h, key, db, inner);
      case CopyOp(src, w, v) => CopySettles(h, key, db, src, w, v);
    }
  }

  /** After a clean run of any operations every shared result is known for its value. */
  lemma {:induction false} RunKnown(h: HashFn, key: BlobKey, buckets: nat, ops: seq<Op>)
    requires ValidRun(ops) && buckets > 0 && CleanRun(h, buckets, ops)
    ensures SharedKnown(h, key, Run(h, buckets, ops).0, Run(h, buckets, ops).1, Meaning(ops), Shared(h, key, ops))
  {
    hide Step, Lookup, OpMeaning, CleanOp, Known, SharedOp, Remembers;
    if ops != [] {
      var prev := ops[..|ops| - 1];
      RunUnfold(h, buckets, ops);
      RunKnown(h, key, buckets, prev);
      var (db, words) := Run(h, buckets, prev);
      var op := ops[|ops| - 1];
      StepSettles(h, key, db, words, Meaning(prev), Shared(h, key, prev), op);
      var (db', w) := Step(h, db, words, op);
      forall k | 0 <= k < |words| && Shared(h, key, prev)[k]
        ensures Known(h, key, db', Meaning(prev)[k]) == Some(words[k])
      {
        KnownStable(h, key, db, db', Meaning(prev)[k]);
      }
    }
  }

  /** In a clean run of any operations two shared results have the same word exactly
      when they stand for the same value. */
  lemma EqualWords(h: HashFn, key: BlobKey, buckets: nat, ops: seq<Op>, i: nat, j: nat)
    requires ValidRun(ops) && buckets > 0 && CleanRun(h, buckets, ops) && i < |ops| && j < |ops|
    requires Shared(h, key, ops)[i] && Shared(h, key, ops)[j]
    requires |Run(h, buckets, ops).0.data| <= OFFSET_LIMIT
    ensures Run(h, buckets, ops).1[i] == Run(h, buckets, ops).1[j] <==> Meaning(ops)[i] == Meaning(ops)[j]
  {
    hide Run, Meaning, Known, Holds, Shared;
    RunKnown(h, key, buckets, ops);
    RunHolds(h, buckets, ops);
    var (db, words) := Run(h, buckets, ops);
    if words[i] == words[j] {
      HoldsUnique(db.data, words[i], Meaning(ops)[i], Meaning(ops)[j]);
    }
  }

  /** A clean operation with a shared result whose value is already an earlier shared result
      appends nothing and returns that result. */
  lemma RepeatAppendsNothing(h: HashFn, key: BlobKey, buckets: nat, ops: seq<Op>, op: Op, i: nat)
    requires ValidRun(ops + [op]) && buckets > 0 && CleanRun(h, buckets, ops + [op]) && ValidRun(ops)
    requires i < |ops| && !op.RootOp? && Meaning(ops + [op])[|ops|] == Meaning(ops)[i]
    requires Shared(h, key, ops + [op])[i] && Shared(h, key, ops + [op])[|ops|]
    ensures Run(h, buckets, ops + [op]) == (Run(h, buckets, ops).0, Run(h, buckets, ops).1 + [Run(h, buckets, ops).1[i]])
  {
    hide Step, Lookup, OpMeaning, CleanOp, Known, SharedOp, Remembers;
    var all := ops + [op];
    assert all[..|all| - 1] == ops && all[|all| - 1] == op;
    RunUnfold(h, buckets, all);
    RunKnown(h, key, buckets, ops);
    var (db, words) := Run(h, buckets, ops);
    assert Known(h, key, db, Meaning(ops)[i]) == Some(words[i]);
    StepSettles(h, key, db, words, Meaning(ops), Shared(h, key, ops), op);
  }

  // ---- Where everything is shared ----------------------------------------------------

  /** adb_w_int, adb_w_blob, adb_w_obj, adb_w_arr and adb_w_root, but neither adb_w_copy nor
      blobs in several parts or without the cache. */
  predicate Plain(op: Op)
  {
    match op
    case BlobOp(parts) => |parts| == 1
    case RawBlobOp(_) => false
    case NestedOp(_) => false
    case CopyOp(_, _, _) => false
    case _ => true
  }

  /** The hashes of blobs written by adb_w_blob, and of blobs written in one segment. */
  function CutKey(h: HashFn): BlobKey { b => h([Prefix(|b|)] + [b]) }

  function JoinedKey(h: HashFn): BlobKey { b => h([BlobBytes(b)]) }

  /** With the plain writers alone, whatever the hash, every result is shared. */
  lemma {:induction false} PlainShared(h: HashFn, ops: seq<Op>, k: nat)
    requires ValidRun(ops) && (forall i :: 0 <= i < |ops| ==> Plain(ops[i])) && k < |ops|
    ensures Shared(h, CutKey(h), ops)[k]
    decreases |ops|
  {
    var prev, op := ops[..|ops| - 1], ops[|ops| - 1];
    assert ValidRun(prev) && ValidOp(op, |prev|) && Plain(op);
    if k < |prev| {
      PlainShared(h, prev, k);
    } else {
      forall i | 0 <= i < |prev|
        ensures Shared(h, CutKey(h), prev)[i]
      {
        PlainShared(h, prev, i);
      }
      if op.BlobOp? {
        assert op.parts == [op.parts[0]];
        ConcatOne(op.parts[0]);
      }
    }
  }

  /** Copies are of canonical words, and no blob is written without the cache. */
  ghost predicate Cached(op: Op)
    requires op.CopyOp? ==> Holds(op.src, op.w, op.tree)
  {
    match op
    case RawBlobOp(_) => false
    case NestedOp(_) => false
    case CopyOp(src, w, v) => Canonical(src, w, v)
    case _ => true
  }

  /** With a hash that does not depend on the cut, every result of a cached operation is shared:
      blobs in any parts and copies among the others. */
  lemma {:induction false} JoinedShared(h: HashFn, ops: seq<Op>, k: nat)
    requires ValidRun(ops) && k < |ops| && (forall segs :: h(segs) == h([Concat(segs)]))
    requires forall i :: 0 <= i < |ops| ==> ValidOp(ops[i], i) && Cached(ops[i])
    ensures Shared(h, JoinedKey(h), ops)[k]
    decreases |ops|
  {
    hide Canonical, BlobBytes;
    var prev, op := ops[..|ops| - 1], ops[|ops| - 1];
    assert ValidRun(prev) && ValidOp(op, |prev|) && Cached(op);
    if k < |prev| {
      JoinedShared(h, prev, k);
    } else {
      forall i | 0 <= i < |prev|
        ensures Shared(h, JoinedKey(h), prev)[i]
      {
        JoinedShared(h, prev, i);
      }
      if op.BlobOp? {
        JoinedBlob(op.parts);
      }
      if op.CopyOp? {
        AllOneSegment(h, op.tree);
      }
    }
  }

  lemma JoinedBlob(parts: seq<seq<byte>>)
    ensures Concat([Prefix(|Concat(parts)|)] + parts) == BlobBytes(Concat(parts))
  {
    ConcatAppend([Prefix(|Concat(parts)|)], parts);
    ConcatOne(Prefix(|Concat(parts)|));
  }

  lemma {:induction false} AllOneSegment(h: HashFn, v: Value)
    ensures OneSegment(h, JoinedKey(h), v)
    decreases v
  {
    if v.Node? {
      forall i | 0 <= i < |v.fields|
        ensures OneSegment(h, JoinedKey(h), v.fields[i])
      {
        AllOneSegment(h, v.fields[i]);
      }
    }
  }

  // ---- Written words are canonical -----------------------------------------------------

  lemma {:induction false} CanonicalStable(data: seq<byte>, later: seq<byte>, w: word, v: Value)
    requires Holds(data, w, v) && Holds(later, w, v) && Grown(data, later) && Canonical(data, w, v)
    ensures Canonical(later, w, v)
    decreases v
  {
    hide NatAt, Unpack;
    if v.Node? {
      forall i | 0 <= i < |v.fields|
        ensures Canonical(later, FieldAt(later, w, i), v.fields[i])
      {
        SameNat(data, later, w.val + 4 * (i + 1), 4);
        CanonicalStable(data, later, FieldAt(data, w, i), v.fields[i]);
      }
    }
  }

  /** The entries of a table read back as they were written. */
  lemma EntriesRead(h: HashFn, db: Db, t: nat, entries: seq<word>, k: nat)
    requires Wf(db) && IsNodeType(t) && k < |entries| && |PutTable(h, db, t, entries).0.data| <= OFFSET_LIMIT
    ensures var (db', w) := PutTable(h, db, t, entries);
            w.val + 4 * (k + 2) <= |db'.data| && FieldAt(db'.data, w, k) == entries[k]
  {
    hide TableBytes, Le, Write, NatAt;
    var bytes := TableBytes(entries);
    ConcatOne(TableOf(entries));
    WritePlaces(h, db, true, [TableOf(entries)], 4);
    var (db', o) := Write(h, db, true, [TableOf(entries)], 4);
    assert o + |TableOf(entries)| == o + 4 + |bytes|;
    TableParts(db'.data, o, |entries| + 1, bytes);
    TableField(db'.data, Word(t, o), o, entries, bytes, k);
  }

  ghost predicate AllCanonical(data: seq<byte>, words: seq<word>, vals: seq<Value>)
  {
    && |words| == |vals|
    && forall k :: 0 <= k < |words| ==> Holds(data, words[k], vals[k]) && Canonical(data, words[k], vals[k])
  }

  lemma TableCanonical(h: HashFn, db: Db, t: nat, entries: seq<word>, fields: seq<Value>)
    requires Wf(db) && IsNodeType(t) && 1 <= |entries| && AllCanonical(db.data, entries, fields)
    requires |PutTable(h, db, t, entries).0.data| <= OFFSET_LIMIT
    ensures var (db', w) := PutTable(h, db, t, entries);
            var v := Node(t == TYPE_ARRAY, fields);
            Holds(db'.data, w, v) && Canonical(db'.data, w, v)
  {
    hide TableBytes, Le, Write, NatAt, PutTable, Holds;
    TableBuilt(h, db, t, entries, fields);
    var (db', w) := PutTable(h, db, t, entries);
    var v := Node(t == TYPE_ARRAY, fields);
    forall k | 0 <= k < |fields|
      ensures EntryCanonical(db'.data, w, v, k)
    {
      EntriesRead(h, db, t, entries, k);
      HoldsStable(db.data, db'.data, entries[k], fields[k]);
      CanonicalStable(db.data, db'.data, entries[k], fields[k]);
    }
    NodeCanonical(db'.data, w, v);
  }

  ghost predicate EntryCanonical(data: seq<byte>, w: word, v: Value, k: nat)
    requires v.Node? && k < |v.fields|
  {
    && w.val + 4 * (k + 2) <= |data| && Holds(data, FieldAt(data, w, k), v.fields[k])
    && Canonical(data, FieldAt(data, w, k), v.fields[k])
  }

  lemma NodeCanonical(data: seq<byte>, w: word, v: Value)
    requires Holds(data, w, v) && v.Node? && forall k :: 0 <= k < |v.fields| ==> EntryCanonical(data, w, v, k)
    ensures Canonical(data, w, v)
  {
    forall k | 0 <= k < |v.fields|
      ensures Canonical(data, FieldAt(data, w, k), v.fields[k])
    {
      assert EntryCanonical(data, w, v, k);
    }
  }

  /** A copy of a canonical word is canonical. */
  lemma {:induction false} CopyCanonical(h: HashFn, db: Db, src: seq<byte>, w: word, v: Value)
    requires Wf(db) && Holds(src, w, v) && Canonical(src, w, v) && |Copy(h, db, src, w, v).0.data| <= OFFSET_LIMIT
    ensures var (db', r) := Copy(h, db, src, w, v); Holds(db'.data, r, v) && Canonical(db'.data, r, v)
    decreases v, 0
  {
    hide Write, NatAt, PutTable, LeafSize, LeafAlign;
    TypeOfHeld(src, w, v);
    CopyBuilt(h, db, src, w, v);
    if v.Node? {
      CopyFieldsBuilt(h, db, src, w, v, 0);
      var (db1, entries) := CopyFields(h, db, src, w, v, 0);
      TableGrows(h, db1, w.tag, entries);
      FieldsCanonical(h, db, src, w, v, 0);
      assert v.fields[0..] == v.fields;
      TableCanonical(h, db1, w.tag, entries, v.fields);
    }
  }

  lemma TableGrows(h: HashFn, db: Db, t: nat, entries: seq<word>)
    requires Wf(db) && t < 16
    ensures |db.data| <= |PutTable(h, db, t, entries).0.data|
  {
    hide Write, TableBytes, Le;
    ConcatOne(TableOf(entries));
    WritePlaces(h, db, true, [TableOf(entries)], 4);
  }

  lemma {:induction false} FieldsCanonical(h: HashFn, db: Db, src: seq<byte>, w: word, v: Value, i: nat)
    requires Wf(db) && Holds(src, w, v) && v.Node? && Canonical(src, w, v) && i <= |v.fields|
    requires |CopyFields(h, db, src, w, v, i).0.data| <= OFFSET_LIMIT
    ensures var (db', entries) := CopyFields(h, db, src, w, v, i); AllCanonical(db'.data, entries, v.fields[i..])
    decreases v, 0, |v.fields| - i
  {
    hide Write, NatAt, PutTable, LeafSize, LeafAlign;
    if i < |v.fields| {
      var f := FieldAt(src, w, i);
      var (db1, c) := Copy(h, db, src, f, v.fields[i]);
      CopyBuilt(h, db, src, f, v.fields[i]);
      CopyFieldsBuilt(h, db1, src, w, v, i + 1);
      CopyCanonical(h, db, src, f, v.fields[i]);
      FieldsCanonical(h, db1, src, w, v, i + 1);
      var (db2, rest) := CopyFields(h, db1, src, w, v, i + 1);
      PrefixGrown(db1.data, db2.data);
      HoldsStable(db1.data, db2.data, c, v.fields[i]);
      CanonicalStable(db1.data, db2.data, c, v.fields[i]);
      CanonicalCons(db2.data, c, v.fields[i], rest, v.fields[i + 1..]);
      assert v.fields[i..] == [v.fields[i]] + v.fields[i + 1..];
    }
  }

  lemma CanonicalCons(data: seq<byte>, w: word, v: Value, ws: seq<word>, vs: seq<Value>)
    requires Holds(data, w, v) && Canonical(data, w, v) && AllCanonical(data, ws, vs)
    ensures AllCanonical(data, [w] + ws, [v] + vs)
  {
    hide Holds, Canonical;
  }

  lemma {:induction false} TrimCanonical(data: seq<byte>, ws: seq<word>, vs: seq<Value>)
    requires AllCanonical(data, ws, vs)
    ensures AllCanonical(data, TrimWords(ws), TrimValues(vs))
  {
    hide Canonical;
    if ws != [] {
      TypeOfHeld(data, ws[|ws| - 1], vs[|vs| - 1]);
      if ws[|ws| - 1] == NULL {
        TrimCanonical(data, ws[..|ws| - 1], vs[..|vs| - 1]);
      }
    }
  }

  lemma NodeStepCanonical(h: HashFn, db: Db, words: seq<word>, vals: seq<Value>, isArray: bool, refs: seq<Ref>)
    requires Wf(db) && AllCanonical(db.data, words, vals) && ValidOp(NodeOp(isArray, refs), |words|)
    requires |PutNode(h, db, isArray, RefWords(refs, words)).0.data| <= OFFSET_LIMIT
    ensures var (db', w) := PutNode(h, db, isArray, RefWords(refs, words));
            var v := OpMeaning(NodeOp(isArray, refs), vals);
            Holds(db'.data, w, v) && Canonical(db'.data, w, v)
  {
    hide PutTable, TrimWords, TrimValues, Holds, Canonical;
    var ws, vs := RefWords(refs, words), RefValues(refs, vals);
    NullCanonical(db.data);
    TrimCanonical(db.data, ws, vs);
    if TrimWords(ws) != [] {
      TableCanonical(h, db, NodeType(isArray), TrimWords(ws), TrimValues(vs));
    }
  }

  lemma NullCanonical(data: seq<byte>)
    ensures Holds(data, NULL, NullValue) && Canonical(data, NULL, NullValue)
  {
  }

  lemma StepCanonical(h: HashFn, db: Db, words: seq<word>, vals: seq<Value>, op: Op)
    requires Wf(db) && AllCanonical(db.data, words, vals) && ValidOp(op, |words|)
    requires op.CopyOp? ==> Canonical(op.src, op.w, op.tree)
    requires op.NestedOp? ==> LongNested(op.inner)
    requires |Step(h, db, words, op).0.data| <= OFFSET_LIMIT
    ensures var (db', w) := Step(h, db, words, op);
            Holds(db'.data, w, OpMeaning(op, vals)) && Canonical(db'.data, w, OpMeaning(op, vals))
  {
    hide Write, Le, Holds, PutTable, PutNode, Copy, PutRoot, Pow256;
    AllHeldOf(db, words, vals);
    StepBuilds(h, db, words, vals, op);
    match op {
      case IntOp(n) =>
      case BlobOp(parts) =>
      case RawBlobOp(bytes) => ConcatOne(bytes);
      case NodeOp(isArray, refs) => NodeStepCanonical(h, db, words, vals, isArray, refs);
      case RootOp(ref) =>
        NullCanonical(db.data);
        assert Holds(db.data, RefWord(ref, words), RefValue(ref, vals));
        CanonicalStable(db.data, Step(h, db, words, op).0.data, RefWord(ref, words), RefValue(ref, vals));
      case NestedOp(inner) =>
      case CopyOp(src, w, v) => CopyCanonical(h, db, src, w, v);
    }
  }

  lemma AllHeldOf(db: Db, words: seq<word>, vals: seq<Value>)
    requires AllCanonical(db.data, words, vals)
    ensures AllHeld(db, words, vals)
  {
    hide Holds, Canonical;
  }

  /** A nested store that is left out, or too long for the shorter length prefixes. */
  predicate LongNested(inner: seq<byte>) { |inner| <= HDR_SIZE || |Nested(inner)| > 0xffff }

  /** Every result of a run is canonical, if what it copies is and what it nests is long: so stores written by these writers
      can be copied from without losing the sharing. */
  lemma {:induction false} RunCanonical(h: HashFn, buckets: nat, ops: seq<Op>)
    requires ValidRun(ops) && |Run(h, buckets, ops).0.data| <= OFFSET_LIMIT
    requires forall i :: 0 <= i < |ops| && ops[i].CopyOp? ==> ValidOp(ops[i], i) && Canonical(ops[i].src, ops[i].w, ops[i].tree)
    requires forall i :: 0 <= i < |ops| && ops[i].NestedOp? ==> LongNested(ops[i].inner)
    ensures AllCanonical(Run(h, buckets, ops).0.data, Run(h, buckets, ops).1, Meaning(ops))
  {
    hide Step, OpMeaning, Holds, Canonical;
    if ops != [] {
      var prev, op := ops[..|ops| - 1], ops[|ops| - 1];
      RunUnfold(h, buckets, ops);
      var (db, words) := Run(h, buckets, prev);
      RunCanonical(h, buckets, prev);
      StepCanonical(h, db, words, Meaning(prev), op);
      var (db', w) := Step(h, db, words, op);
      forall k | 0 <= k < |words|
        ensures Holds(db'.data, words[k], Meaning(prev)[k]) && Canonical(db'.data, words[k], Meaning(prev)[k])
      {
        HoldsStable(db.data, db'.data, words[k], Meaning(prev)[k]);
        CanonicalStable(db.data, db'.data, words[k], Meaning(prev)[k]);
      }
    }
  }

  // ---- Where sharing ends ------------------------------------------------------------

  /** Bytes the cache knows keep their place through a write of them exactly when
      the place is aligned for that write. Otherwise they are stored again, and
      every value known by them gets another word from then on. */
  lemma PlaceKeptIffClean(h: HashFn, db: Db, segs: seq<seq<byte>>, align: nat)
    requires Wf(db) && IsAlignment(align) && |Concat(segs)| > 0 && Lookup(db, h(segs), Concat(segs)).Some?
    ensures Lookup(Write(h, db, true, segs, align).0, h(segs), Concat(segs)) == Lookup(db, h(segs), Concat(segs))
       <==> Clean(h, db, segs, align)
  {
    hide Concat, RoundUp;
    if Clean(h, db, segs, align) {
      CleanWrite(h, db, segs, align);
    } else {
      var bytes := Concat(segs);
      var b := BucketOf(h(segs), |db.chains|);
      var chain := db.chains[b];
      var i := Stop(db, h(segs), bytes);
      WritePlaces(h, db, true, segs, align);
      var (db', o) := Write(h, db, true, segs, align);
      assert SlotsInside(chain, |db.data|);
      assert o >= |db.data| > chain[i].offs;
      var chain' := db'.chains[b];
      assert chain' == chain[i := Entry(h(segs), |bytes|, o)];
      forall k | 0 <= k < i
        ensures chain'[k].len != 0 && !Matches(chain'[k], h(segs), bytes, db'.data)
      {
        assert db.data[chain[k].offs..chain[k].offs + chain[k].len] == db'.data[chain[k].offs..chain[k].offs + chain[k].len];
      }
      ScanFinds(chain', 0, i, h(segs), bytes, db'.data);
    }
  }

  /** No slot holds these bytes under this hash. */
  ghost predicate Absent(db: Db, hash: nat, bytes: seq<byte>)
    requires |db.chains| > 0
  {
    var chain := db.chains[BucketOf(hash, |db.chains|)];
    forall k :: 0 <= k < |chain| ==> !Matches(chain[k], hash, bytes, db.data)
  }

  lemma AbsentUnknown(db: Db, hash: nat, bytes: seq<byte>)
    requires |db.chains| > 0 && Absent(db, hash, bytes)
    ensures Lookup(db, hash, bytes) == None
  {
  }

  /** Bytes written under one hash stay absent under another. */
  lemma AbsentStays(h: HashFn, db: Db, segs: seq<seq<byte>>, align: nat, hash: nat, bytes: seq<byte>)
    requires Wf(db) && |db.chains| > 0 && IsAlignment(align) && |Concat(segs)| > 0
    requires Absent(db, hash, bytes) && hash != h(segs)
    ensures |Write(h, db, true, segs, align).0.chains| > 0 && Absent(Write(h, db, true, segs, align).0, hash, bytes)
  {
    hide Concat, RoundUp, Scan;
    WritePlaces(h, db, true, segs, align);
    var (db', o) := Write(h, db, true, segs, align);
    var b := BucketOf(hash, |db.chains|);
    var chain, chain' := db.chains[b], db'.chains[b];
    assert SlotsInside(chain, |db.data|);
    forall k | 0 <= k < |chain'|
      ensures !Matches(chain'[k], hash, bytes, db'.data)
    {
      if k < |chain| && chain'[k] == chain[k] {
        assert !Matches(chain[k], hash, bytes, db.data);
        if chain[k].len != 0 {
          assert db.data[chain[k].offs..chain[k].offs + chain[k].len] == db'.data[chain[k].offs..chain[k].offs + chain[k].len];
        }
      } else {
        assert chain'[k].len == 0 || chain'[k].hash == h(segs);
      }
    }
  }

  /** The hash takes in the segments one by one, so the same bytes given in two
      segments by adb_w_blob and in one by adb_w_copy share a place exactly when
      the two hashes happen to agree: in any store that has them in neither form. */
  lemma SegmentsMatter(h: HashFn, db: Db, prefix: seq<byte>, bytes: seq<byte>, align: nat)
    requires Wf(db) && |db.chains| > 0 && IsAlignment(align) && prefix != [] && bytes != []
    requires Absent(db, h([prefix, bytes]), prefix + bytes) && Absent(db, h([prefix + bytes]), prefix + bytes)
    ensures var (db', o) := Write(h, db, true, [prefix, bytes], align);
            var (db'', o') := Write(h, db', true, [prefix + bytes], align);
            && (o' == o <==> h([prefix + bytes]) == h([prefix, bytes]))
            && (o' == o <==> db'' == db')
  {
    hide RoundUp, Concat, Write, Lookup, Absent;
    var both := prefix + bytes;
    ConcatTwo(prefix, bytes);
    ConcatOne(both);
    var (one, two) := ([both], [prefix, bytes]);
    AbsentUnknown(db, h(two), both);
    WritePlaces(h, db, true, two, align);
    CleanAll(h, db, two, align);
    var (db', o) := Write(h, db, true, two, align);
    WritePlaces(h, db', true, one, align);
    if h(one) == h(two) {
      SameHash(h, db', one, both, o, align);
    } else {
      AbsentStays(h, db, two, align, h(one), both);
      AbsentUnknown(db', h(one), both);
      Unshared(h, db', one, both, align);
    }
  }

  lemma SameHash(h: HashFn, db: Db, segs: seq<seq<byte>>, bytes: seq<byte>, o: nat, align: nat)
    requires IsAlignment(align) && Concat(segs) == bytes && Lookup(db, h(segs), bytes) == Some(o) && Aligned(o, align)
    ensures Write(h, db, true, segs, align) == (db, o)
  {
  }

  lemma Unshared(h: HashFn, db: Db, segs: seq<seq<byte>>, bytes: seq<byte>, align: nat)
    requires |db.chains| > 0 && IsAlignment(align) && Concat(segs) == bytes && bytes != [] && Lookup(db, h(segs), bytes) == None
    ensures var (db', o) := Write(h, db, true, segs, align);
            o >= |db.data| && db'.data == Padded(db.data, align) + bytes && db' != db
  {
    hide RoundUp;
  }

  /** Writing to a store with one empty bucket. */
  lemma FirstWrite(h: HashFn, data: seq<byte>, segs: seq<seq<byte>>, align: nat)
    requires IsAlignment(align)
    ensures var (db, o) := Write(h, Db(data, [[]]), true, segs, align);
            && o == RoundUp(|data|, align)
            && db.data == Padded(data, align) + Concat(segs)
            && db.chains == [[Entry(h(segs), |Concat(segs)|, o)] + FreeSlots(BLOCK_ENTRIES - 1)]
  {
    assert BucketOf(h(segs), 1) == 0;
    var e := Entry(h(segs), |Concat(segs)|, RoundUp(|data|, align));
    assert [] + [e] + FreeSlots(BLOCK_ENTRIES - 1) == [e] + FreeSlots(BLOCK_ENTRIES - 1);
  }

  /** An eight-byte integer can have the bytes of a table. Here the integer is
      written first, then a blob, then an object whose only entry is the blob:
      the object reuses the integer's place and so lies below its own child. */
  lemma ChildAboveParent(h: HashFn, x: byte)
    ensures var ops := [IntOp(0x8000_0010_0000_0002), BlobOp([[x]]), NodeOp(false, [Result(1)])];
            && ValidRun(ops)
            && Run(h, 1, ops).1[1] == Word(TYPE_BLOB_8, 16)
            && Run(h, 1, ops).1[2] == Word(TYPE_OBJECT, 8)
  {
    ExampleRun(h, x);
  }

  // The stores along the way.
  function TableLike(): seq<byte> { [2, 0, 0, 0, 0x10, 0, 0, 0x80] }

  function AfterInt(h: HashFn): Db
  {
    Db(Zeroes(HDR_SIZE) + TableLike(), [[Entry(h([TableLike()]), 8, 8)] + FreeSlots(BLOCK_ENTRIES - 1)])
  }

  function AfterBlob(h: HashFn, x: byte): Db
  {
    Write(h, AfterInt(h), true, [[1], [x]], 1).0
  }

  lemma Powers()
    ensures Pow256(0) == 1 && Pow256(1) == 0x100 && Pow256(2) == 0x1_0000 && Pow256(3) == 0x100_0000
    ensures Pow256(4) == 0x1_0000_0000 && Pow256(5) == 0x100_0000_0000
    ensures Pow256(6) == 0x1_0000_0000_0000 && Pow256(7) == 0x100_0000_0000_0000
  {
    Pow256Values();
  }

  lemma IntOfExample()
    ensures Le(0x8000_0010_0000_0002, 8) == TableLike()
  {
    Powers();
    hide Pow256;
    var l := Le(0x8000_0010_0000_0002, 8);
    assert l[0] == 2 && l[1] == 0 && l[2] == 0 && l[3] == 0;
    assert l[4] == 0x10 && l[5] == 0 && l[6] == 0 && l[7] == 0x80;
  }

  lemma WordOfExample()
    ensures Le(2, 4) == [2, 0, 0, 0] && Le(0x8000_0010, 4) == [0x10, 0, 0, 0x80] && Le(1, 1) == [1]
  {
    Powers();
    hide Pow256;
    var c, e := Le(2, 4), Le(0x8000_0010, 4);
    assert c[0] == 2 && c[1] == 0 && c[2] == 0 && c[3] == 0;
    assert e[0] == 0x10 && e[1] == 0 && e[2] == 0 && e[3] == 0x80;
    assert Le(1, 1)[0] == 1;
  }

  lemma LeOfExample()
    ensures Le(0x8000_0010_0000_0002, 8) == TableLike()
    ensures Le(2, 4) + TableBytes([Word(TYPE_BLOB_8, 16)]) == TableLike()
    ensures Le(1, 1) == [1]
  {
    hide Le, Pow256;
    IntOfExample();
    WordOfExample();
    var w: word := Word(TYPE_BLOB_8, 16);
    assert Pack(w) == 0x8000_0010;
    assert [w][1..] == [];
    assert TableBytes([w]) == Le(0x8000_0010, 4) + TableBytes([]);
  }

  lemma ExampleValid(x: byte)
    ensures ValidRun([IntOp(0x8000_0010_0000_0002)])
    ensures ValidRun([IntOp(0x8000_0010_0000_0002), BlobOp([[x]])])
    ensures ValidRun([IntOp(0x8000_0010_0000_0002), BlobOp([[x]]), NodeOp(false, [Result(1)])])
  {
    Pow256Values();
    ConcatOne([x]);
  }

  lemma ExampleInt(h: HashFn)
    ensures PutInt(h, Fresh(1), 0x8000_0010_0000_0002) == (AfterInt(h), Word(TYPE_INT_64, 8))
  {
    LeOfExample();
    ConcatOne(TableLike());
    assert Fresh(1).chains == [[]];
    FirstWrite(h, Zeroes(HDR_SIZE), [TableLike()], 4);
    assert RoundUp(HDR_SIZE, 4) == 8;
    assert Padded(Zeroes(HDR_SIZE), 4) == Zeroes(HDR_SIZE);
  }

  lemma ExampleBlob(h: HashFn, x: byte)
    ensures PutBlob(h, AfterInt(h), true, [[x]]) == (AfterBlob(h, x), Word(TYPE_BLOB_8, 16))
    ensures AfterInt(h).data <= AfterBlob(h, x).data && |AfterBlob(h, x).chains| == 1
    ensures AfterBlob(h, x).chains[0] != [] && AfterBlob(h, x).chains[0][0] == Entry(h([TableLike()]), 8, 8)
  {
    LeOfExample();
    ConcatOne([x]);
    ConcatTwo([1], [x]);
    assert [[1]] + [[x]] == [[1], [x]];
    var db := AfterInt(h);
    var chain := db.chains[0];
    var segs := [[1], [x]];
    assert BucketOf(h(segs), 1) == 0;
    var i := Scan(chain, 0, h(segs), [1, x], db.data);
    assert !Matches(chain[0], h(segs), [1, x], db.data);
    assert chain[1] == FREE;
    assert i == 1;
    assert RoundUp(16, 1) == 16;
  }

  lemma ExampleNode(h: HashFn, x: byte)
    ensures PutNode(h, AfterBlob(h, x), false, [Word(TYPE_BLOB_8, 16)]) == (AfterBlob(h, x), Word(TYPE_OBJECT, 8))
  {
    hide Le, TableBytes, RoundUp;
    LeOfExample();
    ExampleBlob(h, x);
    var w: word := Word(TYPE_BLOB_8, 16);
    assert TrimWords([w]) == [w];
    ConcatOne(TableLike());
    var db := AfterBlob(h, x);
    assert BucketOf(h([TableLike()]), 1) == 0;
    assert db.data[8..16] == AfterInt(h).data[8..16] == TableLike();
    assert Matches(db.chains[0][0], h([TableLike()]), TableLike(), db.data);
    assert Scan(db.chains[0], 0, h([TableLike()]), TableLike(), db.data) == 0;
  }

  lemma ExampleRun(h: HashFn, x: byte)
    ensures var ops := [IntOp(0x8000_0010_0000_0002), BlobOp([[x]]), NodeOp(false, [Result(1)])];
            && ValidRun(ops)
            && Run(h, 1, ops).1 == [Word(TYPE_INT_64, 8), Word(TYPE_BLOB_8, 16), Word(TYPE_OBJECT, 8)]
  {
    hide PutInt, PutBlob, PutNode, AfterInt, AfterBlob, Pow256, Concat, Fresh, Meaning, OpMeaning;
    ExampleValid(x);
    ExampleInt(h);
    ExampleBlob(h, x);
    ExampleNode(h, x);
    var i, b, n := IntOp(0x8000_0010_0000_0002), BlobOp([[x]]), NodeOp(false, [Result(1)]);
    RunUnfold(h, 1, [i]);
    var one := [i];
    assert one[..|one| - 1] == [] && one[|one| - 1] == i;
    assert Run(h, 1, []) == (Fresh(1), []);
    assert Run(h, 1, [i]).0 == AfterInt(h) && Run(h, 1, [i]).1 == [Word(TYPE_INT_64, 8)];
    RunUnfold(h, 1, [i, b]);
    var two := [i, b];
    assert two[..|two| - 1] == [i] && two[|two| - 1] == b;
    assert Run(h, 1, [i, b]).0 == AfterBlob(h, x);
    assert Run(h, 1, [i, b]).1 == [Word(TYPE_INT_64, 8), Word(TYPE_BLOB_8, 16)];
    RunUnfold(h, 1, [i, b, n]);
    var three := [i, b, n];
    assert three[..|three| - 1] == [i, b] && three[|three| - 1] == n;
    assert RefWords([Result(1)], [Word(TYPE_INT_64, 8), Word(TYPE_BLOB_8, 16)]) == [Word(TYPE_BLOB_8, 16)];
  }

  /** A table lies above all its entries unless the cache gives it a place at or
      below one of them: known bytes, aligned for a table, found before the call. */
  lemma AboveChildrenIff(h: HashFn, db: Db, t: nat, entries: seq<word>)
    requires Wf(db) && t < 16
    requires forall k :: 0 <= k < |entries| && IsRef(entries[k]) ==> entries[k].val < |db.data|
    requires |PutTable(h, db, t, entries).0.data| <= OFFSET_LIMIT
    ensures (forall k :: 0 <= k < |entries| && IsRef(entries[k]) ==> entries[k].val < PutTable(h, db, t, entries).1.val)
       <==> !(var known := Lookup(db, h([TableOf(entries)]), TableOf(entries));
              && known.Some? && Aligned(known.value, 4)
              && exists k :: 0 <= k < |entries| && IsRef(entries[k]) && known.value <= entries[k].val)
  {
    hide TableBytes, Le, RoundUp, Concat;
    var segs := [TableOf(entries)];
    ConcatOne(Le(|entries| + 1, 4) + TableBytes(entries));
    WritePlaces(h, db, true, segs, 4);
    var (db', o) := Write(h, db, true, segs, 4);
    var known := Lookup(db, h(segs), Concat(segs));
    assert known.Some? && Aligned(known.value, 4) <==> o < |db.data| by {
      if |db.chains| > 0 {
        assert SlotsInside(db.chains[BucketOf(h(segs), |db.chains|)], |db.data|);
      }
    }
    assert known.Some? && Aligned(known.value, 4) ==> o == known.value;
    assert PutTable(h, db, t, entries).1 == Word(t, o);
  }
}
