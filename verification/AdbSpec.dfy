/**
 The write side of the store as functions on values: an arena of bytes that
 only grows, and the bucket chains that remember where byte strings were put.
 The class in AdbWriter follows these functions step by step.
 */
module AdbSpec {
  import opened Bytes
  import opened AdbValue

  /** struct adb_w_bucket_entry; an entry with len 0 is an unused slot. */
  datatype Entry = Entry(hash: nat, len: nat, offs: nat)

  const FREE := Entry(0, 0, 0)

  const BLOCK_ENTRIES: nat := 40   // slots of one struct adb_w_bucket

  /** iovec_hash: a hash of the segments, in general not of their concatenation
      alone. */
  type HashFn = seq<seq<byte>> -> nat

  /** The arena, and for each bucket number the slots of its blocks in order.
      No buckets means no cache. */
  datatype Db = Db(data: seq<byte>, chains: seq<seq<Entry>>)

  function FreeSlots(n: nat): (r: seq<Entry>)
    ensures |r| == n && forall i :: 0 <= i < n ==> r[i] == FREE
  {
    seq(n, _ => FREE)
  }

  /** adb_w_init_dynamic */
  function Fresh(buckets: nat): Db
  {
    Db(Zeroes(HDR_SIZE), seq(buckets, _ => []))
  }

  // ---- adb_w_raw and adb_w_data ------------------------------------------

  function Padded(data: seq<byte>, align: nat): (r: seq<byte>)
    requires IsAlignment(align)
    ensures |r| == RoundUp(|data|, align) && data <= r
  {
    data + Zeroes(RoundUp(|data|, align) - |data|)
  }

  function RawWrite(db: Db, bytes: seq<byte>, align: nat): (Db, nat)
    requires IsAlignment(align)
  {
    (db.(data := Padded(db.data, align) + bytes), RoundUp(|db.data|, align))
  }

  /** The slot holds these bytes under this hash. */
  predicate Matches(e: Entry, hash: nat, bytes: seq<byte>, data: seq<byte>)
  {
    && e.len != 0 && e.hash == hash && e.len == |bytes|
    && e.offs + e.len <= |data| && data[e.offs..e.offs + e.len] == bytes
  }

  /** Where the walk over a chain stops: the first slot from i on that is free or
      matches, else the end of the chain. */
  function Scan(chain: seq<Entry>, i: nat, hash: nat, bytes: seq<byte>, data: seq<byte>): (r: nat)
    requires i <= |chain|
    ensures i <= r <= |chain|
    ensures r < |chain| ==> chain[r].len == 0 || Matches(chain[r], hash, bytes, data)
    ensures forall k :: i <= k < r ==> chain[k].len != 0 && !Matches(chain[k], hash, bytes, data)
    decreases |chain| - i
  {
    if i == |chain| || chain[i].len == 0 || Matches(chain[i], hash, bytes, data) then i
    else Scan(chain, i + 1, hash, bytes, data)
  }

  function BucketOf(hash: nat, buckets: nat): (b: nat)
    requires buckets > 0
    ensures b < buckets
  {
    hash % buckets
  }

  /** The chain after slot i was given to e; past the end a new block is added. */
  function Placed(chain: seq<Entry>, i: nat, e: Entry): (r: seq<Entry>)
    requires i <= |chain|
  {
    if i < |chain| then chain[i := e] else chain + [e] + FreeSlots(BLOCK_ENTRIES - 1)
  }

  function CachedWrite(h: HashFn, db: Db, segs: seq<seq<byte>>, align: nat): (Db, nat)
    requires IsAlignment(align) && |db.chains| > 0
  {
    var bytes := Concat(segs);
    var b := BucketOf(h(segs), |db.chains|);
    var chain := db.chains[b];
    var i := Scan(chain, 0, h(segs), bytes, db.data);
    if i < |chain| && chain[i].len != 0 && Aligned(chain[i].offs, align) then (db, chain[i].offs)
    else
      var (db', offs) := RawWrite(db, bytes, align);
      (db'.(chains := db.chains[b := Placed(chain, i, Entry(h(segs), |bytes|, offs))]), offs)
  }

  function Write(h: HashFn, db: Db, cached: bool, segs: seq<seq<byte>>, align: nat): (Db, nat)
    requires IsAlignment(align)
  {
    if cached && |db.chains| > 0 then CachedWrite(h, db, segs, align)
    else RawWrite(db, Concat(segs), align)
  }

  /** Cache slots point into the arena, past the header. */
  ghost predicate SlotsInside(chain: seq<Entry>, size: nat, base: nat := HDR_SIZE)
  {
    forall i :: 0 <= i < |chain| && chain[i].len != 0 ==>
      base <= chain[i].offs && chain[i].offs + chain[i].len <= size
  }

  ghost predicate Wf(db: Db, base: nat := HDR_SIZE)
  {
    && base <= |db.data|
    && forall b :: 0 <= b < |db.chains| ==> SlotsInside(db.chains[b], |db.data|, base)
  }

  /** The arena of one store past its header is a prefix of the other's. */
  ghost predicate Grown(data: seq<byte>, later: seq<byte>, base: nat := HDR_SIZE)
  {
    base <= |data| <= |later| && data[base..] == later[base..|data|]
  }

  lemma GrownTrans(a: seq<byte>, b: seq<byte>, c: seq<byte>, base: nat := HDR_SIZE)
    requires Grown(a, b, base) && Grown(b, c, base)
    ensures Grown(a, c, base)
  {
    assert a[base..] == a[base..|a|];
    assert b[base..] == b[base..|b|];
    forall k | base <= k < |a|
      ensures a[k] == c[k]
    {
      assert a[k] == a[base..][k - base] == b[base..|a|][k - base] == b[k];
      assert b[k] == b[base..][k - base] == c[base..|b|][k - base] == c[k];
    }
  }

  lemma PrefixGrown(a: seq<byte>, b: seq<byte>, base: nat := HDR_SIZE)
    requires base <= |a| && a <= b
    ensures Grown(a, b, base)
  {
  }

  /** A write, cached or not, yields an aligned place that holds exactly the
      bytes, changes nothing already in the arena, and leaves it as it is when
      the place was there before. */
  lemma WritePlaces(h: HashFn, db: Db, cached: bool, segs: seq<seq<byte>>, align: nat, base: nat := HDR_SIZE)
    requires Wf(db, base) && IsAlignment(align) && |Concat(segs)| > 0
    ensures var (db', o) := Write(h, db, cached, segs, align);
            && Wf(db', base) && |db'.chains| == |db.chains|
            && db.data <= db'.data
            && base <= o && Aligned(o, align)
            && o + |Concat(segs)| <= |db'.data|
            && db'.data[o..o + |Concat(segs)|] == Concat(segs)
            && (o < |db.data| ==> db'.data == db.data)
            && (o >= |db.data| ==> db'.data == Padded(db.data, align) + Concat(segs))
  {
    hide Concat, RoundUp, Padded, Scan;
    var bytes := Concat(segs);
    var (db', o) := Write(h, db, cached, segs, align);
    RawPlaces(db.data, bytes, align);
    SlotsStay(db.chains, |db.data|, |db'.data|, base);
    if cached && |db.chains| > 0 {
      var b := BucketOf(h(segs), |db.chains|);
      var chain := db.chains[b];
      assert SlotsInside(chain, |db.data|, base);
      var i := Scan(chain, 0, h(segs), bytes, db.data);
      if i < |chain| && chain[i].len != 0 && Aligned(chain[i].offs, align) {
      } else {
        PlacedInside(chain, i, Entry(h(segs), |bytes|, o), |db'.data|, base);
      }
    }
  }

  /** Padding and bytes behind the data. */
  lemma RawPlaces(data: seq<byte>, bytes: seq<byte>, align: nat)
    requires IsAlignment(align)
    ensures var o, raw := RoundUp(|data|, align), Padded(data, align) + bytes;
            && data <= raw && |data| <= o && Aligned(o, align) && o + |bytes| == |raw| && raw[o..o + |bytes|] == bytes
  {
    hide RoundUp;
    var p := Padded(data, align);
    assert (p + bytes)[|p|..] == bytes;
  }

  lemma SlotsStay(chains: seq<seq<Entry>>, size: nat, size': nat, base: nat)
    requires size <= size' && forall b :: 0 <= b < |chains| ==> SlotsInside(chains[b], size, base)
    ensures forall b :: 0 <= b < |chains| ==> SlotsInside(chains[b], size', base)
  {
  }

  lemma PlacedInside(chain: seq<Entry>, i: nat, e: Entry, size: nat, base: nat)
    requires i <= |chain| && SlotsInside(chain, size, base) && base <= e.offs && e.offs + e.len <= size
    ensures SlotsInside(Placed(chain, i, e), size, base)
  {
  }

  // ---- Values ---------------------------------------------------------------

  /** adb_w_int */
  function PutInt(h: HashFn, db: Db, n: nat): (Db, word)
  {
    if n >= 0x1_0000_0000 then
      var (db', o) := Write(h, db, true, [Le(n, 8)], 4);
      (db', Tag(TYPE_INT_64, o))
    else if n >= 0x1000_0000 then
      var (db', o) := Write(h, db, true, [Le(n, 4)], 4);
      (db', Tag(TYPE_INT_32, o))
    else (db, Tag(TYPE_INT, n))
  }

  function BlobType(size: nat): nat
  {
    if size > 0xffff then TYPE_BLOB_32 else if size > 0xff then TYPE_BLOB_16 else TYPE_BLOB_8
  }

  /** adb_w_blob_vec */
  function PutBlob(h: HashFn, db: Db, cached: bool, parts: seq<seq<byte>>): (Db, word)
  {
    var size := |Concat(parts)|;
    if size == 0 then (db, NULL)
    else
      var k := PrefixSize(BlobType(size));
      var (db', o) := Write(h, db, cached, [Le(size, k)] + parts, k);
      (db', Tag(BlobType(size), o))
  }

  /** The entries of an object table; the entry count comes before them. */
  function TableBytes(words: seq<word>): (r: seq<byte>)
    ensures |r| == 4 * |words|
  {
    if words == [] then [] else Le(Pack(words[0]), 4) + TableBytes(words[1..])
  }

  function TrimWords(ws: seq<word>): (r: seq<word>)
    ensures r <= ws
  {
    if |ws| == 0 || ws[|ws| - 1] != NULL then ws else TrimWords(ws[..|ws| - 1])
  }

  /** Writes a table of these entries under the given type. */
  function PutTable(h: HashFn, db: Db, t: nat, entries: seq<word>): (Db, word)
    requires t < 16
  {
    var (db', o) := Write(h, db, true, [Le(|entries| + 1, 4) + TableBytes(entries)], 4);
    (db', Tag(t, o))
  }

  /** __adb_w_obj: trailing nulls are cut, and nothing is written when no entry
      is left. */
  function PutNode(h: HashFn, db: Db, isArray: bool, entries: seq<word>): (Db, word)
  {
    var kept := TrimWords(entries);
    if kept == [] then (db, NULL) else PutTable(h, db, NodeType(isArray), kept)
  }

  /** adb_w_root */
  function PutRoot(db: Db, w: word): (r: Db)
    requires HDR_SIZE <= |db.data|
  {
    db.(data := db.data[..4] + Le(Pack(w), 4) + db.data[HDR_SIZE..])
  }

  // ---- adb_w_copy -----------------------------------------------------------

  /** The bytes adb_w_copy takes over for a word that is no table, and the
      alignment it asks for. */
  function LeafSize(src: seq<byte>, w: word): nat
    requires w.val + PrefixSize(w.tag) <= |src|
  {
    if w.tag == TYPE_INT_32 then 4
    else if w.tag == TYPE_INT_64 then 8
    else PrefixSize(w.tag) + NatAt(src, w.val, PrefixSize(w.tag))
  }

  function LeafAlign(w: word): (a: nat)
    ensures IsAlignment(a)
  {
    if w.tag == TYPE_INT_32 then 4 else if w.tag == TYPE_INT_64 then 8 else PrefixSize(w.tag)
  }

  lemma LeafInside(src: seq<byte>, w: word, v: Value)
    requires Holds(src, w, v) && IsRef(w) && !v.Node?
    ensures w.val + PrefixSize(w.tag) <= |src|
    ensures w.val + LeafSize(src, w) <= |src|
    ensures v.Blob? ==> LeafSize(src, w) == PrefixSize(w.tag) + |v.bytes|
  {
    assert v.Blob? || v.Int?;
  }

  /** adb_w_copy of the value v that w holds in the arena src. The value is what
      the recursion follows: offsets do not decrease in general. */
  function Copy(h: HashFn, db: Db, src: seq<byte>, w: word, v: Value): (r: (Db, word))
    requires Holds(src, w, v)
    decreases v, 0
  {
    if v.Node? then
      var (db', entries) := CopyFields(h, db, src, w, v, 0);
      PutTable(h, db', w.tag, entries)
    else if !IsRef(w) then (db, w)
    else
      LeafInside(src, w, v);
      var (db', o) := Write(h, db, true, [src[w.val..w.val + LeafSize(src, w)]], LeafAlign(w));
      (db', Tag(w.tag, o))
  }

  /** Copies entries i.. of the table at w, in order. */
  function CopyFields(h: HashFn, db: Db, src: seq<byte>, w: word, v: Value, i: nat): (r: (Db, seq<word>))
    requires Holds(src, w, v) && v.Node? && i <= |v.fields|
    ensures |r.1| == |v.fields| - i
    decreases v, 0, |v.fields| - i
  {
    if i == |v.fields| then (db, [])
    else
      var (db1, c) := Copy(h, db, src, FieldAt(src, w, i), v.fields[i]);
      var (db2, rest) := CopyFields(h, db1, src, w, v, i + 1);
      (db2, [c] + rest)
  }
}
