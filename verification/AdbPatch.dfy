/**
 The in-place fill of the unique id: mkpkg writes a placeholder blob past the
 cache, builds the rest of the package, and then overwrites the blob's bytes.
 */
module AdbPatch {
  import opened Bytes
  import opened AdbValue
  import opened AdbSpec
  import opened AdbRuns

  function Patch(data: seq<byte>, at: nat, bytes: seq<byte>): (r: seq<byte>)
    requires at + |bytes| <= |data|
    ensures |r| == |data|
  {
    data[..at] + bytes + data[at + |bytes|..]
  }

  function Patched(db: Db, at: nat, bytes: seq<byte>): Db
    requires at + |bytes| <= |db.data|
  {
    db.(data := Patch(db.data, at, bytes))
  }

  /** No cache slot touches bytes at..end. */
  ghost predicate SlotsClear(chain: seq<Entry>, at: nat, end: nat)
  {
    forall i :: 0 <= i < |chain| && chain[i].len != 0 ==> chain[i].offs + chain[i].len <= at || end <= chain[i].offs
  }

  ghost predicate Clear(db: Db, at: nat, end: nat)
  {
    && Wf(db) && HDR_SIZE <= at <= end <= |db.data|
    && forall b :: 0 <= b < |db.chains| ==> SlotsClear(db.chains[b], at, end)
  }

  lemma PatchElsewhere(data: seq<byte>, at: nat, bytes: seq<byte>, o: nat, n: nat)
    requires at + |bytes| <= |data| && o + n <= |data|
    requires o + n <= at || at + |bytes| <= o
    ensures Patch(data, at, bytes)[o..o + n] == data[o..o + n]
  {
    var p := Patch(data, at, bytes);
    forall i | o <= i < o + n
      ensures p[i] == data[i]
    {
    }
  }

  lemma PatchPrefix(data: seq<byte>, more: seq<byte>, at: nat, bytes: seq<byte>)
    requires at + |bytes| <= |data|
    ensures Patch(data + more, at, bytes) == Patch(data, at, bytes) + more
  {
  }

  lemma {:induction false} ScanAgrees(chain: seq<Entry>, i: nat, hash: nat, bytes: seq<byte>, data: seq<byte>, at: nat, patch: seq<byte>)
    requires i <= |chain| && at + |patch| <= |data|
    requires SlotsInside(chain, |data|) && SlotsClear(chain, at, at + |patch|)
    ensures Scan(chain, i, hash, bytes, Patch(data, at, patch)) == Scan(chain, i, hash, bytes, data)
    decreases |chain| - i
  {
    hide Patch;
    if i < |chain| {
      if chain[i].len != 0 {
        PatchElsewhere(data, at, patch, chain[i].offs, chain[i].len);
      }
      ScanAgrees(chain, i + 1, hash, bytes, data, at, patch);
    }
  }

  /** A plain append commutes with the patch. */
  lemma RawCommutes(db: Db, bytes: seq<byte>, align: nat, at: nat, patch: seq<byte>)
    requires IsAlignment(align) && at + |patch| <= |db.data|
    ensures |db.data| <= |RawWrite(db, bytes, align).0.data|
    ensures RawWrite(Patched(db, at, patch), bytes, align)
         == (Patched(RawWrite(db, bytes, align).0, at, patch), RawWrite(db, bytes, align).1)
  {
    hide RoundUp;
    var pad := Zeroes(RoundUp(|db.data|, align) - |db.data|);
    PatchPrefix(db.data, pad + bytes, at, patch);
    assert db.data + pad + bytes == db.data + (pad + bytes);
    assert Patch(db.data, at, patch) + pad + bytes == Patch(db.data, at, patch) + (pad + bytes);
  }

  /** Every write, cached or not, commutes with the patch, and keeps the cache
      off the patched bytes. */
  lemma WriteCommutes(h: HashFn, db: Db, cached: bool, segs: seq<seq<byte>>, align: nat, at: nat, patch: seq<byte>)
    requires IsAlignment(align) && Clear(db, at, at + |patch|) && |Concat(segs)| > 0
    ensures Clear(Write(h, db, cached, segs, align).0, at, at + |patch|)
    ensures Write(h, Patched(db, at, patch), cached, segs, align)
         == (Patched(Write(h, db, cached, segs, align).0, at, patch), Write(h, db, cached, segs, align).1)
  {
    hide RoundUp, Patch, Concat;
    WritePlaces(h, db, cached, segs, align);
    RawCommutes(db, Concat(segs), align, at, patch);
    var (db', o) := Write(h, db, cached, segs, align);
    if cached && |db.chains| > 0 {
      var b := BucketOf(h(segs), |db.chains|);
      assert SlotsInside(db.chains[b], |db.data|) && SlotsClear(db.chains[b], at, at + |patch|);
      ScanAgrees(db.chains[b], 0, h(segs), Concat(segs), db.data, at, patch);
    }
    forall c | 0 <= c < |db'.chains|
      ensures SlotsClear(db'.chains[c], at, at + |patch|)
    {
      assert SlotsClear(db.chains[c], at, at + |patch|);
    }
  }

  lemma TableCommutes(h: HashFn, db: Db, t: nat, entries: seq<word>, at: nat, patch: seq<byte>)
    requires Clear(db, at, at + |patch|) && t < 16
    ensures Clear(PutTable(h, db, t, entries).0, at, at + |patch|)
    ensures PutTable(h, Patched(db, at, patch), t, entries)
         == (Patched(PutTable(h, db, t, entries).0, at, patch), PutTable(h, db, t, entries).1)
  {
    hide Write, Patch, TableBytes, Le;
    var table := Le(|entries| + 1, 4) + TableBytes(entries);
    ConcatOne(table);
    WriteCommutes(h, db, true, [table], 4, at, patch);
  }

  lemma {:induction false} CopyCommutes(h: HashFn, db: Db, src: seq<byte>, w: word, v: Value, at: nat, patch: seq<byte>)
    requires Holds(src, w, v) && Clear(db, at, at + |patch|)
    ensures Clear(Copy(h, db, src, w, v).0, at, at + |patch|)
    ensures Copy(h, Patched(db, at, patch), src, w, v)
         == (Patched(Copy(h, db, src, w, v).0, at, patch), Copy(h, db, src, w, v).1)
    decreases v, 0
  {
    hide Write, Patch, PutTable;
    if v.Node? {
      CopyFieldsCommutes(h, db, src, w, v, 0, at, patch);
      var (db', entries) := CopyFields(h, db, src, w, v, 0);
      TypeOfHeld(src, w, v);
      TableCommutes(h, db', w.tag, entries, at, patch);
    } else if IsRef(w) {
      LeafInside(src, w, v);
      LeafNonempty(src, w, v);
      var bytes := src[w.val..w.val + LeafSize(src, w)];
      ConcatOne(bytes);
      WriteCommutes(h, db, true, [bytes], LeafAlign(w), at, patch);
    }
  }

  lemma {:induction false} CopyFieldsCommutes(h: HashFn, db: Db, src: seq<byte>, w: word, v: Value, i: nat, at: nat, patch: seq<byte>)
    requires Holds(src, w, v) && v.Node? && i <= |v.fields| && Clear(db, at, at + |patch|)
    ensures Clear(CopyFields(h, db, src, w, v, i).0, at, at + |patch|)
    ensures CopyFields(h, Patched(db, at, patch), src, w, v, i)
         == (Patched(CopyFields(h, db, src, w, v, i).0, at, patch), CopyFields(h, db, src, w, v, i).1)
    decreases v, 0, |v.fields| - i
  {
    hide Patch;
    if i < |v.fields| {
      CopyCommutes(h, db, src, FieldAt(src, w, i), v.fields[i], at, patch);
      var db1 := Copy(h, db, src, FieldAt(src, w, i), v.fields[i]).0;
      CopyFieldsCommutes(h, db1, src, w, v, i + 1, at, patch);
    }
  }

  lemma RootCommutes(db: Db, w: word, at: nat, patch: seq<byte>)
    requires Clear(db, at, at + |patch|)
    ensures Clear(PutRoot(db, w), at, at + |patch|)
    ensures PutRoot(Patched(db, at, patch), w) == Patched(PutRoot(db, w), at, patch)
  {
    hide Le;
    var db' := PutRoot(db, w);
    forall b | 0 <= b < |db'.chains|
      ensures SlotsInside(db'.chains[b], |db'.data|) && SlotsClear(db'.chains[b], at, at + |patch|)
    {
      assert SlotsInside(db.chains[b], |db.data|) && SlotsClear(db.chains[b], at, at + |patch|);
    }
    assert PutRoot(Patched(db, at, patch), w).data == Patch(db'.data, at, patch);
  }

  /** Every operation does the same to a store before and after the patch. */
  lemma StepCommutes(h: HashFn, db: Db, words: seq<word>, op: Op, at: nat, patch: seq<byte>)
    requires Clear(db, at, at + |patch|) && ValidOp(op, |words|)
    ensures Clear(Step(h, db, words, op).0, at, at + |patch|)
    ensures Step(h, Patched(db, at, patch), words, op)
         == (Patched(Step(h, db, words, op).0, at, patch), Step(h, db, words, op).1)
  {
    hide Write, Patch, Le, PutTable, Copy, PutRoot, Holds, Pow256, TrimWords, PutNested, Nested;
    match op {
      case IntOp(n) =>
        var k := if n >= 0x1_0000_0000 then 8 else 4;
        ConcatOne(Le(n, k));
        WriteCommutes(h, db, true, [Le(n, k)], 4, at, patch);
      case BlobOp(parts) => BlobCommutes(h, db, true, parts, at, patch);
      case RawBlobOp(bytes) => BlobCommutes(h, db, false, [bytes], at, patch);
      case NodeOp(isArray, refs) =>
        TableCommutes(h, db, NodeType(isArray), TrimWords(RefWords(refs, words)), at, patch);
      case RootOp(ref) => RootCommutes(db, RefWord(ref, words), at, patch);
      case NestedOp(inner) => NestedCommutes(h, db, inner, at, patch);
      case CopyOp(src, w, v) => CopyCommutes(h, db, src, w, v, at, patch);
    }
  }

  lemma NestedCommutes(h: HashFn, db: Db, inner: seq<byte>, at: nat, patch: seq<byte>)
    requires Clear(db, at, at + |patch|)
    ensures Clear(PutNested(h, db, inner).0, at, at + |patch|)
    ensures PutNested(h, Patched(db, at, patch), inner)
         == (Patched(PutNested(h, db, inner).0, at, patch), PutNested(h, db, inner).1)
  {
    hide Write, Patch, Le, Nested;
    if |inner| > HDR_SIZE {
      var bytes := Nested(inner);
      ConcatAppend([Le(|bytes|, 4)], [bytes]);
      ConcatOne(Le(|bytes|, 4));
      WriteCommutes(h, db, false, [Le(|bytes|, 4)] + [bytes], 4, at, patch);
    }
  }

  lemma BlobCommutes(h: HashFn, db: Db, cached: bool, parts: seq<seq<byte>>, at: nat, patch: seq<byte>)
    requires Clear(db, at, at + |patch|)
    ensures Clear(PutBlob(h, db, cached, parts).0, at, at + |patch|)
    ensures PutBlob(h, Patched(db, at, patch), cached, parts)
         == (Patched(PutBlob(h, db, cached, parts).0, at, patch), PutBlob(h, db, cached, parts).1)
  {
    hide Write, Patch, Le;
    var size := |Concat(parts)|;
    if size > 0 {
      var k := PrefixSize(BlobType(size));
      ConcatAppend([Le(size, k)], parts);
      ConcatOne(Le(size, k));
      WriteCommutes(h, db, cached, [Le(size, k)] + parts, k, at, patch);
    }
  }

  // ---- The placeholder ----------------------------------------------------------

  /** Where the bytes of an uncached blob of this size will start. */
  function RawBlobAt(db: Db, size: nat): nat
    requires size > 0
  {
    RoundUp(|db.data|, PrefixSize(BlobType(size))) + PrefixSize(BlobType(size))
  }

  /** Writing a blob past the cache and then overwriting its bytes is the same as
      writing the other blob. */
  lemma RawBlobPatched(h: HashFn, db: Db, bytes: seq<byte>, bytes': seq<byte>)
    requires Wf(db) && 0 < |bytes| == |bytes'|
    ensures var at := RawBlobAt(db, |bytes|);
            var (db', w) := PutBlob(h, db, false, [bytes]);
            && Clear(db', at, at + |bytes'|)
            && PutBlob(h, db, false, [bytes']) == (Patched(db', at, bytes'), w)
            && w == Tag(BlobType(|bytes|), at - PrefixSize(BlobType(|bytes|)))
  {
    hide Le, RoundUp;
    ConcatOne(bytes);
    ConcatOne(bytes');
    var k := PrefixSize(BlobType(|bytes|));
    var prefix := Le(|bytes|, k);
    ConcatTwo(prefix, bytes);
    ConcatTwo(prefix, bytes');
    assert [prefix] + [bytes] == [prefix, bytes] && [prefix] + [bytes'] == [prefix, bytes'];
    var (db', w) := PutBlob(h, db, false, [bytes]);
    var base := Padded(db.data, k);
    var at := RawBlobAt(db, |bytes|);
    assert db'.data == base + (prefix + bytes);
    assert at == |base| + k;
    assert Patch(base + (prefix + bytes), at, bytes') == base + (prefix + bytes');
    forall b | 0 <= b < |db'.chains|
      ensures SlotsInside(db'.chains[b], |db'.data|) && SlotsClear(db'.chains[b], at, at + |bytes'|)
    {
      assert SlotsInside(db.chains[b], |db.data|);
    }
  }

  /** The run with another id in place of the placeholder is a run too. */
  lemma OtherIdValid(before: seq<Op>, bytes: seq<byte>, bytes': seq<byte>, after: seq<Op>)
    requires ValidRun(before + [RawBlobOp(bytes)] + after) && |bytes| == |bytes'|
    ensures ValidRun(before + [RawBlobOp(bytes')] + after)
  {
    var ops := before + [RawBlobOp(bytes)] + after;
    var ops' := before + [RawBlobOp(bytes')] + after;
    forall k | 0 <= k < |ops'|
      ensures ValidOp(ops'[k], k)
    {
      assert ValidOp(ops[k], k);
    }
  }

  lemma {:induction false} RunsAgree(h: HashFn, buckets: nat, before: seq<Op>, bytes: seq<byte>, bytes': seq<byte>, after: seq<Op>)
    requires ValidRun(before + [RawBlobOp(bytes)] + after) && ValidRun(before + [RawBlobOp(bytes')] + after)
    requires 0 < |bytes| == |bytes'| && ValidRun(before)
    ensures var (db, words) := Run(h, buckets, before + [RawBlobOp(bytes)] + after);
            var at := RawBlobAt(Run(h, buckets, before).0, |bytes|);
            && Clear(db, at, at + |bytes'|)
            && Run(h, buckets, before + [RawBlobOp(bytes')] + after) == (Patched(db, at, bytes'), words)
            && words[|before|] == Tag(BlobType(|bytes|), at - PrefixSize(BlobType(|bytes|)))
    decreases |after|
  {
    hide Step, Patch, PutBlob, RawBlobAt, Holds, Run, Meaning, OpMeaning, Clear;
    var ops := before + [RawBlobOp(bytes)] + after;
    var ops' := before + [RawBlobOp(bytes')] + after;
    RunUnfold(h, buckets, ops);
    RunUnfold(h, buckets, ops');
    if after == [] {
      assert ops == before + [RawBlobOp(bytes)] && ops' == before + [RawBlobOp(bytes')];
      assert ops[..|ops| - 1] == before && ops'[..|ops'| - 1] == before;
      var (db, words) := Run(h, buckets, before);
      RawBlobPatched(h, db, bytes, bytes');
      LastStep(h, db, words, bytes);
      LastStep(h, db, words, bytes');
    } else {
      var shorter := after[..|after| - 1];
      assert ops[..|ops| - 1] == before + [RawBlobOp(bytes)] + shorter;
      assert ops'[..|ops'| - 1] == before + [RawBlobOp(bytes')] + shorter;
      RunsAgree(h, buckets, before, bytes, bytes', shorter);
      var (db, words) := Run(h, buckets, before + [RawBlobOp(bytes)] + shorter);
      var at := RawBlobAt(Run(h, buckets, before).0, |bytes|);
      StepCommutes(h, db, words, after[|after| - 1], at, bytes');
    }
  }

  lemma LastStep(h: HashFn, db: Db, words: seq<word>, bytes: seq<byte>)
    requires HDR_SIZE <= |db.data| && ValidOp(RawBlobOp(bytes), |words|)
    ensures Step(h, db, words, RawBlobOp(bytes)) == PutBlob(h, db, false, [bytes])
  {
  }

  /** Overwriting the bytes of the placeholder, at the place where the reader
      finds them, turns the store into exactly the one that a run with the other
      id would have built: the same words, the same cache, and every word of the
      run reads as if that id had been written in the first place. */
  lemma PatchIsRewrite(h: HashFn, buckets: nat, before: seq<Op>, bytes: seq<byte>, bytes': seq<byte>, after: seq<Op>)
    requires ValidRun(before + [RawBlobOp(bytes)] + after)
    requires 0 < |bytes| == |bytes'|
    requires |Run(h, buckets, before + [RawBlobOp(bytes)] + after).0.data| <= OFFSET_LIMIT
    ensures ValidRun(before + [RawBlobOp(bytes')] + after)
    ensures var (db, words) := Run(h, buckets, before + [RawBlobOp(bytes)] + after);
            var id := words[|before|];
            var at := id.val + PrefixSize(id.tag);
            && at + |bytes'| <= |db.data|
            && Run(h, buckets, before + [RawBlobOp(bytes')] + after) == (Patched(db, at, bytes'), words)
            && AllHeld(Patched(db, at, bytes'), words, Meaning(before + [RawBlobOp(bytes')] + after))
  {
    hide Step, Patch, PutBlob, Holds, Pow256;
    var ops := before + [RawBlobOp(bytes)] + after;
    assert ValidRun(before) by {
      forall k | 0 <= k < |before|
        ensures ValidOp(before[k], k)
      {
        assert ValidOp(ops[k], k);
      }
    }
    OtherIdValid(before, bytes, bytes', after);
    RunsAgree(h, buckets, before, bytes, bytes', after);
    RunHolds(h, buckets, before + [RawBlobOp(bytes')] + after);
  }
}
