/**
 Whole runs on the store as the C code keeps it: the methods of the growing buffer,
 called one after the other, are the run that AdbRuns gives a meaning to.
 */
module AdbStore {
  import opened Bytes
  import opened AdbValue
  import opened AdbSpec
  import opened AdbRuns
  import opened AdbWriter

  /** A store that can be written to through its cache. */
  ghost predicate Writable(db: Adb)
    reads db, db.mem
  {
    db.Valid() && db.Caching() && db.chains != [] && HDR_SIZE <= db.len
  }

  method Apply(db: Adb, words: seq<word>, op: Op) returns (w: word)
    requires Writable(db) && ValidOp(op, |words|)
    modifies db, db.mem
    ensures Writable(db) && (db.mem == old(db.mem) || fresh(db.mem))
    ensures (db.Model(), w) == Step(db.hashOf, old(db.Model()), words, op)
  {
    hide Write, PutTable, PutInt, PutBlob, PutNested, Nested, Copy, Holds, TrimWords, SlotsInside;
    StepShape(db.hashOf, db.Model(), words, op);
    if op.IntOp? {
      w := db.Int(op.n);
    } else if op.BlobOp? {
      w := db.BlobVec(op.parts);
    } else if op.RawBlobOp? {
      w := db.BlobRaw(op.bytes);
    } else if op.NodeOp? {
      var kept := TrimWords(RefWords(op.refs, words));
      w := NULL;
      if kept != [] {
        w := db.Table(NodeType(op.isArray), kept);
      }
    } else if op.RootOp? {
      w := RefWord(op.ref, words);
      db.Root(w);
    } else if op.NestedOp? {
      var inner := new Adb.OfBlob(op.inner);
      assert inner.mem[..inner.len] == op.inner;
      w := db.PutAdb(inner);
    } else {
      var from := new Adb.OfBlob(op.src);
      w := db.CopyFrom(from, op.w, op.tree);
    }
  }

  lemma StepShape(h: HashFn, db: Db, words: seq<word>, op: Op)
    requires Wf(db) && ValidOp(op, |words|)
    ensures var db' := Step(h, db, words, op).0;
            |db'.chains| == |db.chains| && |db.data| <= |db'.data|
  {
    hide Step, SlotsInside;
    StepGrows(h, db, words, op);
  }

  /** Any run of writes on a fresh store: every word it has returned holds its value in the
      buffer as it is at the end. */
  method Execute(h: HashFn, buckets: nat, ops: seq<Op>) returns (db: Adb, words: seq<word>)
    requires ValidRun(ops) && buckets > 0
    ensures fresh(db) && db.Valid() && (db.Model(), words) == Run(h, buckets, ops)
    ensures db.len <= OFFSET_LIMIT ==> AllHeld(db.Model(), words, Meaning(ops))
  {
    hide Step, ValidOp;
    db := new Adb.Dynamic(h, buckets);
    words := [];
    var k := 0;
    FreshRun(h, buckets);
    while k < |ops|
      invariant 0 <= k <= |ops| && ValidRun(ops[..k])
      invariant fresh(db) && fresh(db.mem) && Writable(db) && db.hashOf == h
      invariant (db.Model(), words) == Run(h, buckets, ops[..k])
    {
      var next := ops[..k + 1];
      assert next[..k] == ops[..k] && next[k] == ops[k];
      assert ValidRun(next);
      RunUnfold(h, buckets, next);
      var w := Apply(db, words, ops[k]);
      words := words + [w];
      k := k + 1;
    }
    assert ops[..k] == ops;
    RunHolds(h, buckets, ops);
  }

  lemma FreshRun(h: HashFn, buckets: nat)
    ensures ValidRun([]) && Run(h, buckets, []) == (Fresh(buckets), [])
    ensures |Fresh(buckets).data| == HDR_SIZE
  {
  }

  // ---- On a caller's buffer --------------------------------------------------------------

  /** One write to a store without cache, if it fits. */
  method ApplyStatic(db: Adb, words: seq<word>, op: Op) returns (w: word)
    requires db.Valid() && db.chains == [] && !db.Caching() && db.hashOf == NO_HASH
    requires ValidOp(op, |words|) && !op.RootOp?
    requires |Step(NO_HASH, db.Model(), words, op).0.data| <= db.mem.Length
    modifies db, db.mem
    ensures db.Valid() && db.chains == [] && !db.Caching() && db.mem == old(db.mem)
    ensures (db.Model(), w) == Step(NO_HASH, old(db.Model()), words, op)
  {
    hide RoundUp, Le, Holds, TrimWords, TableBytes, Concat, Nested;
    StaticRoom(db.Model(), words, op);
    PlainStore(db.Model());
    if op.IntOp? {
      w := db.Int(op.n);
    } else if op.BlobOp? {
      w := db.BlobVec(op.parts);
      BlobPlain(NO_HASH, old(db.Model()), op.parts);
    } else if op.RawBlobOp? {
      w := db.BlobRaw(op.bytes);
    } else if op.NestedOp? {
      var inner := new Adb.OfBlob(op.inner);
      assert inner.mem[..inner.len] == op.inner;
      w := db.PutAdb(inner);
    } else if op.CopyOp? {
      var from := new Adb.OfBlob(op.src);
      w := db.CopyFrom(from, op.w, op.tree);
    } else {
      var kept := TrimWords(RefWords(op.refs, words));
      w := NULL;
      if kept != [] {
        w := db.Table(NodeType(op.isArray), kept);
      }
    }
    PlainStore(db.Model());
  }

  /** Without buckets a store looks the same with the cache on and off. */
  lemma PlainStore(db: Db)
    ensures db.chains == [] ==> Through(db, false) == db == Through(db, true)
  {
  }

  lemma BlobPlain(h: HashFn, db: Db, parts: seq<seq<byte>>)
    requires db.chains == []
    ensures PutBlob(h, db, true, parts) == PutBlob(h, db, false, parts)
  {
  }

  /** The room an operation needs is what it adds. */
  lemma StaticRoom(db: Db, words: seq<word>, op: Op)
    requires db.chains == [] && ValidOp(op, |words|) && !op.RootOp?
    ensures var size := |Step(NO_HASH, db, words, op).0.data|;
            && (op.IntOp? && op.n >= 0x1000_0000 ==>
                  size == RoundUp(|db.data|, 4) + if op.n >= 0x1_0000_0000 then 8 else 4)
            && (op.BlobOp? && Concat(op.parts) != [] ==>
                  var k := PrefixSize(BlobType(|Concat(op.parts)|)); size == RoundUp(|db.data|, k) + k + |Concat(op.parts)|)
            && (op.RawBlobOp? && op.bytes != [] ==>
                  var k := PrefixSize(BlobType(|op.bytes|)); size == RoundUp(|db.data|, k) + k + |op.bytes|)
            && (op.NestedOp? && |op.inner| > HDR_SIZE ==> size == RoundUp(|db.data|, 4) + 4 + |Nested(op.inner)|)
            && (op.NodeOp? && TrimWords(RefWords(op.refs, words)) != [] ==>
                  size == RoundUp(|db.data|, 4) + 4 + 4 * |TrimWords(RefWords(op.refs, words))|)
  {
    hide RoundUp, Le, TrimWords, TableBytes, Concat, Nested;
    match op {
      case IntOp(n) =>
        ConcatOne(Le(n, 8));
        ConcatOne(Le(n, 4));
      case BlobOp(parts) => SizeWithPrefix(parts);
      case RawBlobOp(bytes) =>
        ConcatOne(bytes);
        SizeWithPrefix([bytes]);
      case NestedOp(inner) =>
        var bytes := Nested(inner);
        ConcatTwo(Le(|bytes|, 4), bytes);
        assert [Le(|bytes|, 4)] + [bytes] == [Le(|bytes|, 4), bytes];
      case NodeOp(isArray, refs) =>
        var kept := TrimWords(RefWords(refs, words));
        ConcatOne(Le(|kept| + 1, 4) + TableBytes(kept));
      case CopyOp(_, _, _) =>
    }
  }

  lemma SizeWithPrefix(parts: seq<seq<byte>>)
    ensures var size := |Concat(parts)|;
            var k := PrefixSize(BlobType(size));
            |Concat([Le(size, k)] + parts)| == k + size
  {
    hide Le;
    var size := |Concat(parts)|;
    var k := PrefixSize(BlobType(size));
    ConcatAppend([Le(size, k)], parts);
    ConcatOne(Le(size, k));
  }

  /** A run on a buffer that is large enough for it: every word it has returned holds its value in
      the buffer, which is never replaced. */
  method ExecuteStatic(buf: array<byte>, ops: seq<Op>) returns (db: Adb, words: seq<word>)
    requires ValidRun(ops) && Rootless(ops)
    requires |StaticRun(NO_HASH, ops).0.data| <= buf.Length
    modifies buf
    ensures fresh(db) && db.mem == buf && db.Valid() && (db.Model(), words) == StaticRun(NO_HASH, ops)
    ensures db.len <= OFFSET_LIMIT ==> AllHeld(db.Model(), words, Meaning(ops), 0)
  {
    hide Step, ValidOp, StaticRun;
    db := new Adb.Static(buf);
    words := [];
    var k := 0;
    EmptyStatic();
    while k < |ops|
      invariant 0 <= k <= |ops| && ValidRun(ops[..k]) && Rootless(ops[..k])
      invariant fresh(db) && db.mem == buf
      invariant db.Valid() && db.chains == [] && !db.Caching() && db.hashOf == NO_HASH
      invariant (db.Model(), words) == StaticRun(NO_HASH, ops[..k])
    {
      var next := ops[..k + 1];
      assert next[..k] == ops[..k] && next[k] == ops[k];
      assert ValidRun(next) && Rootless(next);
      StaticUnfold(NO_HASH, next);
      StaticShorter(NO_HASH, ops, k + 1);
      var w := ApplyStatic(db, words, ops[k]);
      words := words + [w];
      k := k + 1;
    }
    assert ops[..k] == ops;
    StaticRunHolds(NO_HASH, ops);
  }

  lemma EmptyStatic()
    ensures ValidRun([]) && Rootless([]) && StaticRun(NO_HASH, []) == (Db([], []), [])
  {
  }

  /** A shorter run needs no more room. */
  lemma {:induction false} StaticShorter(h: HashFn, ops: seq<Op>, k: nat)
    requires ValidRun(ops) && Rootless(ops) && k <= |ops|
    ensures ValidRun(ops[..k]) && Rootless(ops[..k])
    ensures |StaticRun(h, ops[..k]).0.data| <= |StaticRun(h, ops).0.data|
    decreases |ops|
  {
    hide Step, ValidOp, StaticRun;
    if k == |ops| {
      assert ops[..k] == ops;
    } else {
      var front := ops[..|ops| - 1];
      assert front[..k] == ops[..k];
      StaticUnfold(h, ops);
      StaticShorter(h, front, k);
    }
  }
}
