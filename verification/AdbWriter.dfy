/**
 The writable store as the C code keeps it: one growing buffer, the bucket
 chains, and the counter that switches the cache off. Each method is held to
 the function of AdbSpec for the same call.
 */
module AdbWriter {
  import opened Bytes
  import opened AdbValue
  import opened AdbSpec
  import opened AdbRuns
  import AdbBlocks

  const FIRST_ALLOC: nat := 8192
  const NO_HASH: HashFn := _ => 0   // of stores without a cache

  class Adb {
    const hashOf: HashFn
    var mem: array<byte>            // adb.ptr; its length is alloc_len
    var len: nat                    // adb.len
    var chains: seq<seq<Entry>>     // bucket lists, empty for a static buffer
    var noCache: nat

    ghost predicate Valid()
      reads this, mem
    {
      && len <= mem.Length
      && (chains != [] ==> mem.Length % 8 == 0)
      && forall b :: 0 <= b < |chains| ==> SlotsInside(chains[b], len)
    }

    ghost function Model(): Db
      reads this, mem
      requires Valid()
    {
      Db(mem[..len], chains)
    }

    ghost predicate Caching()
      reads this
    {
      noCache == 0
    }

    /** The store as a write sees it: without buckets while the cache is off. */
    ghost function Seen(): Db
      reads this, mem
      requires Valid()
    {
      Through(Model(), Caching())
    }

    /** A raw write fits: the buffer may grow, or has the room already. */
    ghost predicate Room(n: nat, align: nat)
      requires IsAlignment(align)
      reads this, mem
    {
      chains != [] || RoundUp(len, align) + n <= mem.Length
    }

    ghost predicate BlobRoom(size: nat)
      reads this, mem
    {
      var k := PrefixSize(BlobType(size));
      size > 0 ==> Room(k + size, k)
    }

    /** adb_w_init_dynamic */
    constructor Dynamic(h: HashFn, buckets: nat)
      requires buckets > 0
      ensures Valid() && fresh(mem) && Model() == Fresh(buckets) && hashOf == h && Caching()
    {
      hashOf := h;
      mem := new byte[0];
      len := 0;
      chains := seq(buckets, _ => []);
      noCache := 0;
      new;
      ConcatOne(Zeroes(HDR_SIZE));
      var offs := Raw([Zeroes(HDR_SIZE)], HDR_SIZE, 8);
      assert Model().data == Zeroes(HDR_SIZE);
    }

    /** adb_w_init_static */
    constructor Static(buf: array<byte>)
      ensures Valid() && mem == buf && Model() == Db([], []) && !Caching() && hashOf == NO_HASH
    {
      hashOf := NO_HASH;
      mem := buf;
      len := 0;
      chains := [];
      noCache := 1;
    }

    /** adb_m_blob: a store to read from. */
    constructor OfBlob(data: seq<byte>)
      ensures Valid() && fresh(mem) && Model() == Db(data, []) && !Caching()
    {
      hashOf := NO_HASH;
      mem := new byte[|data|](i requires 0 <= i < |data| => data[i]);
      len := |data|;
      chains := [];
      noCache := 1;
      new;
      assert mem[..len] == data;
    }

    /** memset of the padding, before the size of the buffer is looked at. */
    method Pad(align: nat)
      requires Valid() && IsAlignment(align) && Room(0, align)
      modifies this`len, mem
      ensures Valid() && Model().data == Padded(old(Model()).data, align)
    {
      var end := RoundUp(len, align);
      assert end <= mem.Length by {
        if chains != [] { PaddingFits(len, align, mem.Length); }
      }
      ghost var start := len;
      while len < end
        invariant start <= len <= end <= mem.Length
        invariant mem[..start] == old(mem[..len])
        invariant forall i :: start <= i < len ==> mem[i] == 0
      {
        mem[len] := 0;
        len := len + 1;
      }
      assert mem[..len] == mem[..start] + mem[start..len];
      assert mem[start..len] == Zeroes(end - start);
      SlotsStay(chains, start, len, HDR_SIZE);
    }

    /** realloc to a doubled size that has room for n more bytes. */
    method Grow(n: nat)
      requires Valid() && chains != []
      modifies this`mem
      ensures Valid() && Model() == old(Model()) && len + n <= mem.Length
      ensures mem == old(mem) || fresh(mem)
    {
      if len + n > mem.Length {
        var alloc := mem.Length;
        if alloc == 0 {
          alloc := FIRST_ALLOC;
        }
        while len + n > alloc
          invariant alloc >= 8 && alloc % 8 == 0 && len <= alloc
          decreases len + n - alloc
        {
          alloc := alloc * 2;
        }
        var bigger := new byte[alloc];
        forall i | 0 <= i < len {
          bigger[i] := mem[i];
        }
        assert bigger[..len] == mem[..len];
        mem := bigger;
      }
    }

    /** memcpy of one segment behind the data. */
    method PutSeg(seg: seq<byte>)
      requires Valid() && len + |seg| <= mem.Length
      modifies this`len, mem
      ensures Valid() && Model().data == old(Model()).data + seg
    {
      ghost var before := mem[..len];
      forall j | 0 <= j < |seg| {
        mem[len + j] := seg[j];
      }
      assert mem[..len] == before;
      assert mem[len..len + |seg|] == seg;
      assert mem[..len + |seg|] == before + seg;
      SlotsStay(chains, len, len + |seg|, HDR_SIZE);
      len := len + |seg|;
    }

    /** adb_w_raw */
    method Raw(segs: seq<seq<byte>>, n: nat, align: nat) returns (offs: nat)
      requires Valid() && IsAlignment(align) && n == |Concat(segs)| && Room(n, align)
      modifies this`len, this`mem, mem
      ensures Valid() && (mem == old(mem) || fresh(mem)) && (chains == [] ==> mem == old(mem))
      ensures (Model(), offs) == RawWrite(old(Model()), Concat(segs), align)
    {
      hide RoundUp, Concat;
      Pad(align);
      if len + n > mem.Length {
        Grow(n);
      }
      offs := len;
      ghost var base, m := Model().data, mem;
      var i := 0;
      TakeNone();
      assert segs[..0] == [] && base + [] == base && segs[..|segs|] == segs;
      while i < |segs|
        invariant i <= |segs| && Valid() && mem == m
        invariant len == offs + |Concat(segs[..i])| <= offs + n <= mem.Length
        invariant Model().data == base + Concat(segs[..i])
      {
        TakeOneMore(segs, i);
        TakeIsPrefix(segs, i + 1);
        PutSeg(segs[i]);
        assert base + Concat(segs[..i]) + segs[i] == base + (Concat(segs[..i]) + segs[i]);
        i := i + 1;
      }
    }

    /** iovec_memcmp: the segments are found at base. */
    method VecEqual(segs: seq<seq<byte>>, base: nat) returns (same: bool)
      requires Valid() && base + |Concat(segs)| <= len
      ensures same <==> mem[base..base + |Concat(segs)|] == Concat(segs)
    {
      hide Concat;
      var b, i := base, 0;
      ghost var all := mem[..];
      assert segs[..0] == [] && segs[..|segs|] == segs;
      TakeNone();
      while i < |segs|
        modifies {}
        invariant i <= |segs| && b == base + |Concat(segs[..i])| && b <= len
        invariant all[base..b] == Concat(segs[..i])
      {
        TakeOneMore(segs, i);
        TakeIsPrefix(segs, i + 1);
        var seg := segs[i];
        assert mem[b..b + |seg|] == all[b..b + |seg|];
        if mem[b..b + |seg|] != seg {
          MismatchInside(all, base, Concat(segs), b - base, seg);
          assert all[base..base + |Concat(segs)|] == mem[base..base + |Concat(segs)|];
          return false;
        }
        Extended(all, base, b, |seg|);
        b := b + |seg|;
        i := i + 1;
      }
      assert all[base..b] == mem[base..b];
      return true;
    }

    /** The walk over a bucket's slots. */
    method Find(chain: seq<Entry>, hash: nat, segs: seq<seq<byte>>, n: nat) returns (i: nat)
      requires Valid() && SlotsInside(chain, len) && n == |Concat(segs)|
      ensures i == Scan(chain, 0, hash, Concat(segs), Model().data)
    {
      hide Concat, Scan;
      ghost var bytes, data := Concat(segs), Model().data;
      i := 0;
      while i < |chain|
        modifies {}
        invariant i <= |chain|
        invariant Scan(chain, 0, hash, bytes, data) == Scan(chain, i, hash, bytes, data)
      {
        var e := chain[i];
        ScanUnfold(chain, i, hash, bytes, data);
        if e.len == 0 {
          return;
        }
        if e.hash == hash && e.len == n {
          var same := VecEqual(segs, e.offs);
          assert mem[..][..len] == data && mem[..][e.offs..e.offs + n] == mem[e.offs..e.offs + n];
          PrefixSlice(mem[..], len, e.offs, n);
          if same {
            return;
          }
        }
        i := i + 1;
      }
      ScanUnfold(chain, i, hash, bytes, data);
    }

    /** adb_w_data: look the segments up, or store them and remember where. */
    method Data(segs: seq<seq<byte>>, align: nat) returns (offs: nat)
      requires Valid() && IsAlignment(align) && 0 < |Concat(segs)| && Room(|Concat(segs)|, align)
      requires HDR_SIZE <= len || chains == []
      modifies this`len, this`mem, this`chains, mem
      ensures Valid() && (mem == old(mem) || fresh(mem)) && (chains == [] ==> mem == old(mem)) && |chains| == |old(chains)|
      ensures (Model(), offs) == Write(hashOf, old(Model()), Caching(), segs, align)
    {
      hide RoundUp, Concat, Padded, Placed;
      var n := SegsLength(segs);
      if noCache != 0 || chains == [] {
        offs := Raw(segs, n, align);
        return;
      }
      var hash := hashOf(segs);
      var bucket := BucketOf(hash, |chains|);
      var chain := chains[bucket];
      var i := Find(chain, hash, segs, n);
      if i < |chain| && chain[i].len != 0 && Aligned(chain[i].offs, align) {
        return chain[i].offs;
      }
      WritePlaces(hashOf, Model(), true, segs, align);
      offs := Raw(segs, n, align);
      chains := chains[bucket := Placed(chain, i, Entry(hash, n, offs))];
    }

    /** adb_w_int */
    method Int(n: nat) returns (w: word)
      requires Valid() && n < Pow256(8)
      requires n >= 0x1000_0000 ==> Room(if n >= 0x1_0000_0000 then 8 else 4, 4)
      requires HDR_SIZE <= len || chains == []
      modifies this`len, this`mem, this`chains, mem
      ensures Valid() && (mem == old(mem) || fresh(mem)) && (chains == [] ==> mem == old(mem)) && |chains| == |old(chains)|
      ensures (Seen(), w) == PutInt(hashOf, old(Seen()), n) && (!Caching() ==> chains == old(chains))
    {
      hide RoundUp, Concat, Le, Write;
      ConcatOne(Le(n, 8));
      ConcatOne(Le(n, 4));
      SeenWrite(hashOf, Model(), Caching(), [Le(n, 8)], 4);
      SeenWrite(hashOf, Model(), Caching(), [Le(n, 4)], 4);
      if n >= 0x1_0000_0000 {
        var offs := Data([Le(n, 8)], 4);
        return Tag(TYPE_INT_64, offs);
      }
      if n >= 0x1000_0000 {
        var offs := Data([Le(n, 4)], 4);
        return Tag(TYPE_INT_32, offs);
      }
      return Tag(TYPE_INT, n);
    }

    /** adb_w_blob_vec */
    method BlobVec(parts: seq<seq<byte>>) returns (w: word)
      requires Valid() && |Concat(parts)| < Pow256(4)
      requires BlobRoom(|Concat(parts)|)
      requires HDR_SIZE <= len || chains == []
      modifies this`len, this`mem, this`chains, mem
      ensures Valid() && (mem == old(mem) || fresh(mem)) && (chains == [] ==> mem == old(mem)) && |chains| == |old(chains)|
      ensures (Model(), w) == PutBlob(hashOf, old(Model()), Caching(), parts)
    {
      hide RoundUp, Le, Write;
      var size := SegsLength(parts);
      if size == 0 {
        return NULL;
      }
      var k := PrefixSize(BlobType(size));
      ConcatAppend([Le(size, k)], parts);
      ConcatOne(Le(size, k));
      var offs := Data([Le(size, k)] + parts, k);
      return Tag(BlobType(size), offs);
    }

    /** adb_w_blob_raw: the cache is off for this one blob. */
    method BlobRaw(bytes: seq<byte>) returns (w: word)
      requires Valid() && |bytes| < Pow256(4) && BlobRoom(|bytes|)
      requires HDR_SIZE <= len || chains == []
      modifies this, mem
      ensures Valid() && (mem == old(mem) || fresh(mem)) && (chains == [] ==> mem == old(mem)) && |chains| == |old(chains)| && noCache == old(noCache)
      ensures (Model(), w) == PutBlob(hashOf, old(Model()), false, [bytes])
    {
      hide PutBlob;
      ConcatOne(bytes);
      noCache := noCache + 1;
      w := BlobVec([bytes]);
      noCache := noCache - 1;
    }

    /** adb_w_adb: another store as a block inside a blob, past the cache. */
    method PutAdb(other: Adb) returns (w: word)
      requires Valid() && other.Valid() && other != this && other.mem != mem && |Nested(other.mem[..other.len])| < Pow256(4)
      requires other.len > HDR_SIZE ==> Room(4 + |Nested(other.mem[..other.len])|, 4)
      modifies this`len, this`mem, mem
      ensures Valid() && (mem == old(mem) || fresh(mem)) && (chains == [] ==> mem == old(mem))
      ensures (Model(), w) == PutNested(hashOf, old(Model()), old(other.mem[..other.len]))
    {
      hide RoundUp, Le, Nested, AdbBlocks.BlockBytes;
      if other.len <= HDR_SIZE {
        return NULL;
      }
      var inner := other.mem[..other.len];
      var header := AdbBlocks.Header(AdbBlocks.TYPE_ADB, |inner|);
      var raw := |header| + |inner|;
      var padding := Zeroes(Next8(raw) - raw);
      var size := raw + |padding|;
      NestedParts(inner, header, padding);
      var offs := Raw([Le(size, 4), header, inner, padding], 4 + size, 4);
      w := Tag(TYPE_BLOB_32, offs);
    }

    /** The table of an object or array under construction. */
    method Table(t: nat, entries: seq<word>) returns (w: word)
      requires Valid() && t < 16 && Room(4 + 4 * |entries|, 4)
      requires HDR_SIZE <= len || chains == []
      modifies this`len, this`mem, this`chains, mem
      ensures Valid() && (mem == old(mem) || fresh(mem)) && (chains == [] ==> mem == old(mem)) && |chains| == |old(chains)|
      ensures (Seen(), w) == PutTable(hashOf, old(Seen()), t, entries) && (!Caching() ==> chains == old(chains))
    {
      hide RoundUp, Le, Write, TableBytes, Concat;
      var table := Le(|entries| + 1, 4) + TableBytes(entries);
      ConcatOne(table);
      SeenWrite(hashOf, Model(), Caching(), [table], 4);
      var offs := Data([table], 4);
      return Tag(t, offs);
    }

    /** adb_w_root */
    method Root(w: word)
      requires Valid() && HDR_SIZE <= len
      modifies mem
      ensures Valid() && Model() == PutRoot(old(Model()), w)
    {
      var bytes := Le(Pack(w), 4);
      ghost var before := mem[..len];
      mem[4], mem[5], mem[6], mem[7] := bytes[0], bytes[1], bytes[2], bytes[3];
      assert mem[..len] == before[..4] + bytes + before[HDR_SIZE..];
    }

    /** adb_w_copy: v is what w holds in the source. Copying within one store is
        no copy at all. A buffer that cannot grow has to have the room. */
    method CopyFrom(src: Adb, w: word, ghost v: Value) returns (r: word)
      requires Valid() && src.Valid() && (HDR_SIZE <= len || chains == [])
      requires src != this ==> src.mem != mem
      requires Holds(src.Model().data, w, v)
      requires src != this && chains == [] ==> |Copy(hashOf, Seen(), src.Model().data, w, v).0.data| <= mem.Length
      modifies this`len, this`mem, this`chains, mem
      ensures Valid() && (mem == old(mem) || fresh(mem)) && (chains == [] ==> mem == old(mem))
      ensures |chains| == |old(chains)| && old(len) <= len
      ensures !Caching() ==> chains == old(chains)
      ensures src == this ==> r == w && Model() == old(Model())
      ensures src != this ==> (Seen(), r) == Copy(hashOf, old(Seen()), src.Model().data, w, v)
      decreases v, 2
    {
      hide Write, PutTable, RoundUp, LeafSize, LeafAlign, SlotsInside, NatAt, Holds;
      if src == this {
        return w;
      }
      ghost var data := src.Model().data;
      TypeOfHeld(data, w, v);
      CopyLonger(hashOf, Seen(), data, w, v);
      if IsNodeType(w.tag) {
        r := CopyNode(src, w, v);
      } else if !IsRef(w) {
        return w;
      } else {
        r := CopyLeaf(src, w, v);
      }
    }

    /** An integer or a blob, with its length prefix. */
    method CopyLeaf(src: Adb, w: word, ghost v: Value) returns (r: word)
      requires Valid() && src.Valid() && (HDR_SIZE <= len || chains == []) && src != this && src.mem != mem
      requires Holds(src.Model().data, w, v) && !v.Node? && IsRef(w) && !IsNodeType(w.tag)
      requires chains == [] ==> |Copy(hashOf, Seen(), src.Model().data, w, v).0.data| <= mem.Length
      modifies this`len, this`mem, this`chains, mem
      ensures Valid() && (mem == old(mem) || fresh(mem)) && (chains == [] ==> mem == old(mem)) && |chains| == |old(chains)|
      ensures !Caching() ==> chains == old(chains)
      ensures (Seen(), r) == Copy(hashOf, old(Seen()), old(src.Model().data), w, v)
    {
      hide Write, RoundUp, LeafSize, LeafAlign, SlotsInside, NatAt;
      ghost var data := src.Model().data;
      LeafInside(data, w, v);
      LeafNonempty(data, w, v);
      var k := src.LeafBytes(w);
      var bytes := src.mem[w.val..w.val + k];
      assert src.mem[..][..src.len] == data && src.mem[..][w.val..w.val + k] == bytes;
      PrefixSlice(src.mem[..], src.len, w.val, k);
      ConcatOne(bytes);
      SeenWrite(hashOf, Model(), Caching(), [bytes], LeafAlign(w));
      PlainSize(hashOf, Seen(), [bytes], LeafAlign(w));
      var offs := Data([bytes], LeafAlign(w));
      r := Tag(w.tag, offs);
    }

    /** sz of adb_w_copy, read from the length prefix of a blob. */
    method LeafBytes(w: word) returns (n: nat)
      requires Valid() && IsRef(w) && !IsNodeType(w.tag) && w.val + PrefixSize(w.tag) <= len
      ensures n == LeafSize(Model().data, w)
    {
      if w.tag == TYPE_INT_32 {
        return 4;
      }
      if w.tag == TYPE_INT_64 {
        return 8;
      }
      var k := PrefixSize(w.tag);
      n := k + NatAt(mem[..len], w.val, k);
    }

    /** One entry of a copied table. */
    method CopyEntry(src: Adb, w: word, k: nat, ghost v: Value) returns (c: word)
      requires Valid() && src.Valid() && (HDR_SIZE <= len || chains == []) && src != this && src.mem != mem
      requires v.Node? && Holds(src.Model().data, w, v) && k < |v.fields|
      requires chains == [] ==> |CopyFields(hashOf, Seen(), src.Model().data, w, v, k).0.data| <= mem.Length
      modifies this`len, this`mem, this`chains, mem
      ensures Valid() && (mem == old(mem) || fresh(mem)) && (chains == [] ==> mem == old(mem))
      ensures |chains| == |old(chains)| && old(len) <= len && (!Caching() ==> chains == old(chains))
      ensures var data := old(src.Model().data);
              CopyFields(hashOf, old(Seen()), data, w, v, k) == Prefixed([c], CopyFields(hashOf, Seen(), data, w, v, k + 1))
      decreases v, 0
    {
      hide Write, PutTable, RoundUp, Copy, Holds, CopyFields, ReadNum, ReadField, SlotsInside;
      ghost var data, before := src.Model().data, Seen();
      HoldsReads(data, w, v);
      FieldRoom(hashOf, before, data, w, v, k);
      var f := ReadField(src.mem[..src.len], w, k + 1);
      c := CopyFrom(src, f, v.fields[k]);
      FieldCopied(hashOf, before, data, w, v, k, Seen(), c);
    }

    method CopyNode(src: Adb, w: word, ghost v: Value) returns (r: word)
      requires Valid() && src.Valid() && (HDR_SIZE <= len || chains == [])
      requires src != this && src.mem != mem && IsNodeType(w.tag)
      requires v.Node? && Holds(src.Model().data, w, v)
      requires chains == [] ==> |Copy(hashOf, Seen(), src.Model().data, w, v).0.data| <= mem.Length
      modifies this`len, this`mem, this`chains, mem
      ensures Valid() && (mem == old(mem) || fresh(mem)) && (chains == [] ==> mem == old(mem)) && |chains| == |old(chains)|
      ensures !Caching() ==> chains == old(chains)
      ensures (Seen(), r) == Copy(hashOf, old(Seen()), src.Model().data, w, v)
      decreases v, 1
    {
      hide Write, PutTable, RoundUp, Copy, Holds, CopyFields, ReadNum, ReadField, SlotsInside;
      ghost var data := src.Model().data;
      HoldsReads(data, w, v);
      var num := ReadNum(src.mem[..src.len], w);
      var entries: seq<word> := [];
      var i := 1;
      ghost var all := CopyFields(hashOf, Seen(), data, w, v, 0);
      assert [] + all.1 == all.1;
      TypeOfHeld(data, w, v);
      NodeRoom(hashOf, Seen(), data, w, v);
      while i < num
        invariant 1 <= i <= num == |v.fields| + 1 && |entries| == i - 1
        invariant Valid() && (mem == old(mem) || fresh(mem)) && (chains == [] ==> mem == old(mem))
        invariant |chains| == |old(chains)| && (HDR_SIZE <= len || chains == [])
        invariant !Caching() ==> chains == old(chains)
        invariant src.Model().data == data && src.Valid() && src.mem != mem
        invariant all == Prefixed(entries, CopyFields(hashOf, Seen(), data, w, v, i - 1))
      {
        ghost var had := entries;
        var c := CopyEntry(src, w, i - 1, v);
        PrefixedTwice(had, [c], CopyFields(hashOf, Seen(), data, w, v, i));
        entries := entries + [c];
        i := i + 1;
      }
      AllCopied(hashOf, Seen(), data, w, v, entries);
      NodeCopied(hashOf, old(Seen()), data, w, v, Seen(), entries);
      r := Table(w.tag, entries);
    }
  }

  /** Without buckets a write appends its padding and bytes. */
  lemma PlainSize(h: HashFn, db: Db, segs: seq<seq<byte>>, align: nat)
    requires IsAlignment(align)
    ensures db.chains == [] ==> |Write(h, db, true, segs, align).0.data| == RoundUp(|db.data|, align) + |Concat(segs)|
  {
    hide RoundUp, Concat;
  }

  /** A copied table needs the room for its entries, and then for itself. */
  lemma NodeRoom(h: HashFn, db: Db, src: seq<byte>, w: word, v: Value)
    requires v.Node? && Holds(src, w, v) && IsNodeType(w.tag)
    ensures var fields, all := CopyFields(h, db, src, w, v, 0).0, Copy(h, db, src, w, v).0;
            && |fields.data| <= |all.data| && |fields.chains| == |db.chains|
            && (db.chains == [] ==> |all.data| == RoundUp(|fields.data|, 4) + 4 + 4 * |v.fields|)
  {
    hide RoundUp, Write, TableBytes, Le;
    FieldsLonger(h, db, src, w, v, 0);
    var (db', entries) := CopyFields(h, db, src, w, v, 0);
    var table := Le(|entries| + 1, 4) + TableBytes(entries);
    ConcatOne(table);
    WriteLonger(h, db', [table], 4);
    PlainSize(h, db', [table], 4);
  }

  /** No entry needs more than all from it on. */
  lemma FieldRoom(h: HashFn, db: Db, src: seq<byte>, w: word, v: Value, k: nat)
    requires v.Node? && Holds(src, w, v) && k < |v.fields| && Holds(src, ReadField(src, w, k + 1), v.fields[k])
    ensures |Copy(h, db, src, ReadField(src, w, k + 1), v.fields[k]).0.data| <= |CopyFields(h, db, src, w, v, k).0.data|
  {
    hide Copy, CopyFields, ReadField, Holds;
    var (db', c) := Copy(h, db, src, ReadField(src, w, k + 1), v.fields[k]);
    FieldCopied(h, db, src, w, v, k, db', c);
    FieldsLonger(h, db', src, w, v, k + 1);
  }

  lemma WriteLonger(h: HashFn, db: Db, segs: seq<seq<byte>>, align: nat)
    requires IsAlignment(align)
    ensures var db' := Write(h, db, true, segs, align).0;
            |db.data| <= |db'.data| && |db'.chains| == |db.chains|
  {
    hide Concat, RoundUp, Scan;
  }

  lemma {:induction false} CopyLonger(h: HashFn, db: Db, src: seq<byte>, w: word, v: Value)
    requires Holds(src, w, v)
    ensures var db' := Copy(h, db, src, w, v).0; |db.data| <= |db'.data| && |db'.chains| == |db.chains|
    decreases v, 0
  {
    hide Write, Holds, LeafSize, LeafAlign, Le, TableBytes;
    TypeOfHeld(src, w, v);
    if v.Node? {
      FieldsLonger(h, db, src, w, v, 0);
      var (db', entries) := CopyFields(h, db, src, w, v, 0);
      WriteLonger(h, db', [Le(|entries| + 1, 4) + TableBytes(entries)], 4);
    } else if IsRef(w) {
      LeafInside(src, w, v);
      WriteLonger(h, db, [src[w.val..w.val + LeafSize(src, w)]], LeafAlign(w));
    }
  }

  lemma {:induction false} FieldsLonger(h: HashFn, db: Db, src: seq<byte>, w: word, v: Value, i: nat)
    requires Holds(src, w, v) && v.Node? && i <= |v.fields|
    ensures var db' := CopyFields(h, db, src, w, v, i).0; |db.data| <= |db'.data| && |db'.chains| == |db.chains|
    decreases v, 0, |v.fields| - i
  {
    hide Copy;
    if i < |v.fields| {
      CopyLonger(h, db, src, FieldAt(src, w, i), v.fields[i]);
      FieldsLonger(h, Copy(h, db, src, FieldAt(src, w, i), v.fields[i]).0, src, w, v, i + 1);
    }
  }

  function Through(db: Db, cached: bool): Db { if cached then db else db.(chains := []) }

  /** A write with the cache off is a write to a store without buckets. */
  lemma SeenWrite(h: HashFn, db: Db, cached: bool, segs: seq<seq<byte>>, align: nat)
    requires IsAlignment(align)
    ensures var (db', o) := Write(h, db, cached, segs, align);
            && (Through(db', cached), o) == Write(h, Through(db, cached), true, segs, align)
            && (!cached ==> db'.chains == db.chains)
  {
    hide CachedWrite;
  }

  function Prefixed(ws: seq<word>, r: (Db, seq<word>)): (Db, seq<word>) { (r.0, ws + r.1) }

  lemma PrefixedTwice(a: seq<word>, b: seq<word>, r: (Db, seq<word>))
    ensures Prefixed(a, Prefixed(b, r)) == Prefixed(a + b, r)
  {
    assert a + (b + r.1) == a + b + r.1;
  }

  lemma FieldCopied(h: HashFn, db: Db, src: seq<byte>, w: word, v: Value, k: nat, db': Db, c: word)
    requires Holds(src, w, v) && v.Node? && k < |v.fields|
    requires Holds(src, ReadField(src, w, k + 1), v.fields[k])
    requires Copy(h, db, src, ReadField(src, w, k + 1), v.fields[k]) == (db', c)
    ensures CopyFields(h, db, src, w, v, k) == Prefixed([c], CopyFields(h, db', src, w, v, k + 1))
  {
    hide Copy;
  }

  lemma AllCopied(h: HashFn, db: Db, src: seq<byte>, w: word, v: Value, entries: seq<word>)
    requires Holds(src, w, v) && v.Node?
    ensures Prefixed(entries, CopyFields(h, db, src, w, v, |v.fields|)) == (db, entries)
  {
    assert entries + [] == entries;
  }

  lemma NodeCopied(h: HashFn, db: Db, src: seq<byte>, w: word, v: Value, db': Db, entries: seq<word>)
    requires Holds(src, w, v) && v.Node? && w.tag < 16
    requires CopyFields(h, db, src, w, v, 0) == (db', entries)
    ensures Copy(h, db, src, w, v) == PutTable(h, db', w.tag, entries)
  {
  }

  lemma Extended(s: seq<byte>, a: nat, b: nat, n: nat)
    requires a <= b && b + n <= |s|
    ensures s[a..b + n] == s[a..b] + s[b..b + n]
  {
  }

  lemma PrefixSlice(s: seq<byte>, len: nat, o: nat, n: nat)
    requires o + n <= len <= |s|
    ensures s[..len][o..o + n] == s[o..o + n]
  {
  }

  lemma ScanUnfold(chain: seq<Entry>, i: nat, hash: nat, bytes: seq<byte>, data: seq<byte>)
    requires i <= |chain|
    ensures Scan(chain, i, hash, bytes, data) ==
            if i == |chain| || chain[i].len == 0 || Matches(chain[i], hash, bytes, data) then i
            else Scan(chain, i + 1, hash, bytes, data)
  {
  }

  /** iovec_len */
  method SegsLength(segs: seq<seq<byte>>) returns (n: nat)
    ensures n == |Concat(segs)|
  {
    n := 0;
    assert segs[..0] == [];
    for i := 0 to |segs|
      invariant n == |Concat(segs[..i])|
    {
      TakeOneMore(segs, i);
      n := n + |segs[i]|;
    }
    assert segs[..|segs|] == segs;
  }

  lemma TakeOneMore(segs: seq<seq<byte>>, i: nat)
    requires i < |segs|
    ensures Concat(segs[..i + 1]) == Concat(segs[..i]) + segs[i]
  {
    assert segs[..i + 1] == segs[..i] + [segs[i]];
    ConcatAppend(segs[..i], [segs[i]]);
    ConcatOne(segs[i]);
  }

  lemma TakeNone()
    ensures Concat([]) == []
  {
  }

  lemma TakeIsPrefix(segs: seq<seq<byte>>, i: nat)
    requires i <= |segs|
    ensures Concat(segs[..i]) <= Concat(segs)
  {
    assert segs == segs[..i] + segs[i..];
    ConcatAppend(segs[..i], segs[i..]);
  }

  lemma MismatchInside(data: seq<byte>, base: nat, whole: seq<byte>, at: nat, part: seq<byte>)
    requires base + |whole| <= |data| && at + |part| <= |whole| && whole[at..at + |part|] == part
    requires data[base + at..base + at + |part|] != part
    ensures data[base..base + |whole|] != whole
  {
    if data[base..base + |whole|] == whole {
      PartFound(data, base, whole, at, part);
    }
  }

  /** The four segments of a nested store are its prefix and its block. */
  lemma NestedParts(inner: seq<byte>, header: seq<byte>, padding: seq<byte>)
    requires header == AdbBlocks.Header(AdbBlocks.TYPE_ADB, |inner|)
    requires padding == Zeroes(Next8(|header| + |inner|) - (|header| + |inner|))
    ensures var bytes := Nested(inner);
            && |bytes| == |header| + |inner| + |padding|
            && Concat([Le(|bytes|, 4), header, inner, padding]) == Concat([Le(|bytes|, 4)] + [bytes])
            && |Concat([Le(|bytes|, 4)] + [bytes])| == 4 + |bytes|
  {
    hide Le;
    var bytes := Nested(inner);
    var prefix := Le(|bytes|, 4);
    assert bytes == header + inner + padding;
    assert [prefix, header, inner, padding] == [prefix] + ([header] + ([inner] + [padding]));
    ConcatAppend([prefix], [header] + ([inner] + [padding]));
    ConcatAppend([header], [inner] + [padding]);
    ConcatAppend([inner], [padding]);
    ConcatAppend([prefix], [bytes]);
    ConcatOne(prefix);
    ConcatOne(header);
    ConcatOne(inner);
    ConcatOne(padding);
    ConcatOne(bytes);
    assert header + (inner + padding) == bytes;
  }
}
