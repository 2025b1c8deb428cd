/**
 A package as it lies in a file: the file header, and the table of directories and files as the
 readers find it in the database of the leading block. With the run theorem of the store this
 closes the circle, from the calls of the writers to what an extraction tells its caller.
 */
module PackageFile {
  import opened Bytes
  import opened AdbValue
  import opened AdbSpec
  import opened AdbRuns
  import opened AdbBlocks
  import P = AdbParse
  import X = ExtractV3
  import opened PackageImage

  const FORMAT_MAGIC: nat := 0x2e42_4441     // ADB.
  const SCHEMA_PACKAGE: nat := 0x676b_6370   // pckg

  const HEADER_ERROR: int := -6

  const PKG_PATHS: nat := 2

  const DI_NAME: nat := 1
  const DI_ACL: nat := 2
  const DI_FILES: nat := 3

  const FI_NAME: nat := 1
  const FI_ACL: nat := 2
  const FI_SIZE: nat := 3
  const FI_HASHES: nat := 5
  const FI_TARGET: nat := 6

  const ACL_XATTRS: nat := 4

  // ---- The table in a value --------------------------------------------------------------

  /** Entry i of a table, counted from 1. */
  function Field(v: Value, i: nat): Value
  {
    if v.Node? && 1 <= i <= |v.fields| then v.fields[i - 1] else NullValue
  }

  function Length(v: Value): nat { if v.Node? then |v.fields| else 0 }

  function BlobIn(v: Value): Option<seq<byte>> { if v.Blob? then Some(v.bytes) else None }

  function IntIn(v: Value): nat { if v.Int? then v.n else 0 }

  /** A null blob has no bytes. */
  function BytesOf(b: Option<seq<byte>>): seq<byte> { match b case Some(s) => s case None => [] }

  /** Every extended attribute has a name and a value, with a zero byte between them. */
  predicate AclIn(v: Value)
  {
    var xattrs := Field(v, ACL_XATTRS);
    forall i :: 1 <= i <= Length(xattrs) ==> 0 in BytesOf(BlobIn(Field(xattrs, i)))
  }

  function FileIn(v: Value): X.File
  {
    X.File(BytesOf(BlobIn(Field(v, FI_NAME))), IntIn(Field(v, FI_SIZE)), BlobIn(Field(v, FI_TARGET)),
           BytesOf(BlobIn(Field(v, FI_HASHES))), AclIn(Field(v, FI_ACL)))
  }

  function PathIn(v: Value): X.Path
  {
    var files := Field(v, DI_FILES);
    X.Path(BytesOf(BlobIn(Field(v, DI_NAME))),
           seq(Length(files), i requires 0 <= i < Length(files) => FileIn(Field(files, i + 1))),
           AclIn(Field(v, DI_ACL)))
  }

  /** The table of a package. */
  function PathsIn(v: Value): seq<X.Path>
  {
    var paths := Field(v, PKG_PATHS);
    seq(Length(paths), i requires 0 <= i < Length(paths) => PathIn(Field(paths, i + 1)))
  }

  function OptionalBlob(b: Option<seq<byte>>): Value { if b.Some? then Blob(b.value) else NullValue }

  /** The entries of a file, a directory, a package and its access line, written out. */
  lemma EntriesAre(name: seq<byte>, acl: Value, size: nat, mtime: Value, hashes: seq<byte>, target: Option<seq<byte>>,
                   list: seq<Value>, info: Value, mode: Value, user: Value, group: Value)
    ensures FileIn(Node(false, [Blob(name), acl, Int(size), mtime, Blob(hashes), OptionalBlob(target)])) ==
            X.File(name, size, target, hashes, AclIn(acl))
    ensures PathIn(Node(false, [Blob(name), acl, Node(true, list)])) ==
            X.Path(name, seq(|list|, i requires 0 <= i < |list| => FileIn(list[i])), AclIn(acl))
    ensures PathsIn(Node(false, [info, Node(true, list)])) == seq(|list|, i requires 0 <= i < |list| => PathIn(list[i]))
    ensures AclIn(Node(false, [mode, user, group, Node(true, list)])) <==>
              forall i :: 0 <= i < |list| ==> list[i].Blob? && 0 in list[i].bytes
  {
    hide FileIn, PathIn, AclIn;
    FileEntries(name, acl, size, mtime, hashes, target);
    var v, all := Node(false, [info, Node(true, list)]), Node(true, list);
    assert Field(v, PKG_PATHS) == all;
    forall i | 0 <= i < |list|
      ensures PathsIn(v)[i] == PathIn(list[i])
    {
      assert Field(all, i + 1) == list[i];
    }
    PathEntries(name, acl, list);
    AclEntries(mode, user, group, list);
  }

  lemma FileEntries(name: seq<byte>, acl: Value, size: nat, mtime: Value, hashes: seq<byte>, target: Option<seq<byte>>)
    ensures FileIn(Node(false, [Blob(name), acl, Int(size), mtime, Blob(hashes), OptionalBlob(target)])) ==
            X.File(name, size, target, hashes, AclIn(acl))
  {
    hide AclIn;
  }

  lemma PathEntries(name: seq<byte>, acl: Value, list: seq<Value>)
    ensures PathIn(Node(false, [Blob(name), acl, Node(true, list)])) ==
            X.Path(name, seq(|list|, i requires 0 <= i < |list| => FileIn(list[i])), AclIn(acl))
  {
    hide AclIn, FileIn;
    var v, all := Node(false, [Blob(name), acl, Node(true, list)]), Node(true, list);
    assert Field(v, DI_NAME) == Blob(name) && Field(v, DI_ACL) == acl && Field(v, DI_FILES) == all;
    var files := PathIn(v).files;
    forall i | 0 <= i < |list|
      ensures files[i] == FileIn(list[i])
    {
      assert Field(all, i + 1) == list[i];
    }
    assert files == seq(|list|, i requires 0 <= i < |list| => FileIn(list[i]));
  }

  lemma AclEntries(mode: Value, user: Value, group: Value, list: seq<Value>)
    ensures AclIn(Node(false, [mode, user, group, Node(true, list)])) <==>
              forall i :: 0 <= i < |list| ==> list[i].Blob? && 0 in list[i].bytes
  {
    var v, all := Node(false, [mode, user, group, Node(true, list)]), Node(true, list);
    assert Field(v, ACL_XATTRS) == all;
    if AclIn(v) {
      forall i | 0 <= i < |list|
        ensures list[i].Blob? && 0 in list[i].bytes
      {
        assert Field(all, i + 1) == list[i];
      }
    }
    if forall i :: 0 <= i < |list| ==> list[i].Blob? && 0 in list[i].bytes {
      forall i | 1 <= i <= |list|
        ensures 0 in BytesOf(BlobIn(Field(all, i)))
      {
        assert Field(all, i) == list[i - 1];
      }
    }
  }

  // ---- The table in an arena ---------------------------------------------------------------

  function Root(data: seq<byte>): word { if |data| < HDR_SIZE then NULL else WordAt(data, 4) }

  function Count(data: seq<byte>, w: word): (n: nat)
    ensures n + 1 == ReadNum(data, w)
  {
    ReadNum(data, w) - 1
  }

  /** apk_extract_v3_acl */
  predicate ReadAcl(data: seq<byte>, w: word)
  {
    var xattrs := ReadField(data, w, ACL_XATTRS);
    forall i :: 1 <= i <= Count(data, xattrs) ==> 0 in BytesOf(ReadBlob(data, ReadField(data, xattrs, i)))
  }

  function ReadFile(data: seq<byte>, w: word): X.File
  {
    X.File(BytesOf(ReadBlob(data, ReadField(data, w, FI_NAME))), ReadInt(data, ReadField(data, w, FI_SIZE)),
           ReadBlob(data, ReadField(data, w, FI_TARGET)), BytesOf(ReadBlob(data, ReadField(data, w, FI_HASHES))),
           ReadAcl(data, ReadField(data, w, FI_ACL)))
  }

  function ReadPath(data: seq<byte>, w: word): X.Path
  {
    var files := ReadField(data, w, DI_FILES);
    X.Path(BytesOf(ReadBlob(data, ReadField(data, w, DI_NAME))),
           seq(Count(data, files), i requires 0 <= i < Count(data, files) => ReadFile(data, ReadField(data, files, i + 1))),
           ReadAcl(data, ReadField(data, w, DI_ACL)))
  }

  /** The table as the extraction walks it, in whatever the leading block contains. */
  function ReadTable(data: seq<byte>): seq<X.Path>
  {
    var paths := ReadField(data, Root(data), PKG_PATHS);
    seq(Count(data, paths), i requires 0 <= i < Count(data, paths) => ReadPath(data, ReadField(data, paths, i + 1)))
  }

  // ---- Reading what is held -------------------------------------------------------------------

  lemma FieldHeld(data: seq<byte>, w: word, v: Value, i: nat)
    requires Holds(data, w, v)
    ensures Holds(data, ReadField(data, w, i), Field(v, i)) && Count(data, w) == Length(v)
  {
    hide ReadNum, WordAt;
    HoldsReads(data, w, v);
    NullHeld(data);
    if 1 <= i <= Length(v) {
      assert Holds(data, ReadField(data, w, i - 1 + 1), v.fields[i - 1]);
    }
  }

  lemma LeafHeld(data: seq<byte>, w: word, v: Value)
    requires Holds(data, w, v)
    ensures ReadBlob(data, w) == BlobIn(v) && ReadInt(data, w) == IntIn(v)
  {
    HoldsReads(data, w, v);
  }

  lemma BlobHeldIn(data: seq<byte>, w: word, v: Value, i: nat)
    requires Holds(data, w, v)
    ensures ReadBlob(data, ReadField(data, w, i)) == BlobIn(Field(v, i))
  {
    hide ReadField, ReadBlob, ReadInt, Holds;
    FieldHeld(data, w, v, i);
    LeafHeld(data, ReadField(data, w, i), Field(v, i));
  }

  lemma AclHeld(data: seq<byte>, w: word, v: Value)
    requires Holds(data, w, v)
    ensures ReadAcl(data, w) == AclIn(v)
  {
    hide ReadField, ReadBlob, ReadNum, Holds;
    FieldHeld(data, w, v, ACL_XATTRS);
    var x, xattrs := ReadField(data, w, ACL_XATTRS), Field(v, ACL_XATTRS);
    FieldHeld(data, x, xattrs, 0);
    forall i | 1 <= i <= Length(xattrs)
      ensures ReadBlob(data, ReadField(data, x, i)) == BlobIn(Field(xattrs, i))
    {
      BlobHeldIn(data, x, xattrs, i);
    }
  }

  lemma FileHeld(data: seq<byte>, w: word, v: Value)
    requires Holds(data, w, v)
    ensures ReadFile(data, w) == FileIn(v)
  {
    hide ReadField, ReadBlob, ReadInt, Holds, ReadAcl, AclIn;
    BlobHeldIn(data, w, v, FI_NAME);
    BlobHeldIn(data, w, v, FI_TARGET);
    BlobHeldIn(data, w, v, FI_HASHES);
    FieldHeld(data, w, v, FI_SIZE);
    LeafHeld(data, ReadField(data, w, FI_SIZE), Field(v, FI_SIZE));
    FieldHeld(data, w, v, FI_ACL);
    AclHeld(data, ReadField(data, w, FI_ACL), Field(v, FI_ACL));
  }

  lemma PathHeld(data: seq<byte>, w: word, v: Value)
    requires Holds(data, w, v)
    ensures ReadPath(data, w) == PathIn(v)
  {
    hide ReadField, ReadBlob, ReadNum, Holds, ReadAcl, AclIn, ReadFile, FileIn;
    BlobHeldIn(data, w, v, DI_NAME);
    FieldHeld(data, w, v, DI_ACL);
    AclHeld(data, ReadField(data, w, DI_ACL), Field(v, DI_ACL));
    FieldHeld(data, w, v, DI_FILES);
    var fw, files := ReadField(data, w, DI_FILES), Field(v, DI_FILES);
    FieldHeld(data, fw, files, 0);
    forall i | 1 <= i <= Length(files)
      ensures ReadFile(data, ReadField(data, fw, i)) == FileIn(Field(files, i))
    {
      FieldHeld(data, fw, files, i);
      FileHeld(data, ReadField(data, fw, i), Field(files, i));
    }
    assert ReadPath(data, w).files == PathIn(v).files;
  }

  /** If the root holds a package, the walk finds its table. */
  lemma TableHeld(data: seq<byte>, v: Value)
    requires Holds(data, Root(data), v)
    ensures ReadTable(data) == PathsIn(v)
  {
    hide ReadField, ReadNum, Holds, ReadPath, PathIn, Root;
    FieldHeld(data, Root(data), v, PKG_PATHS);
    var pw, paths := ReadField(data, Root(data), PKG_PATHS), Field(v, PKG_PATHS);
    FieldHeld(data, pw, paths, 0);
    forall i | 1 <= i <= Length(paths)
      ensures ReadPath(data, ReadField(data, pw, i)) == PathIn(Field(paths, i))
    {
      FieldHeld(data, pw, paths, i);
      PathHeld(data, ReadField(data, pw, i), Field(paths, i));
    }
  }

  lemma NumBound(data: seq<byte>, w: word)
    ensures Count(data, w) < Pow256(4)
  {
    hide NatAt;
    Pow256Values();
    if IsNodeType(w.tag) && w.val + 8 <= |data| {
      NatAtReads(data, w.val, 4);
      FromLeBound(data[w.val..w.val + 4]);
    }
  }

  /** Whatever the block contains, the numbers of the table fit the header of a DATA block. */
  lemma TableSmall(data: seq<byte>)
    ensures X.Small(ReadTable(data))
  {
    hide ReadField, ReadNum, ReadAcl, ReadFile, Pow256;
    var paths := ReadField(data, Root(data), PKG_PATHS);
    NumBound(data, paths);
    forall p | 0 <= p < Count(data, paths)
      ensures |ReadTable(data)[p].files| < Pow256(4)
    {
      NumBound(data, ReadField(data, ReadField(data, paths, p + 1), DI_FILES));
    }
  }

  // ---- The file -----------------------------------------------------------------------------------

  /** adb_c_header */
  function FileHeader(schema: nat): (r: seq<byte>)
    ensures |r| == 8
  {
    Le(FORMAT_MAGIC, 4) + Le(schema, 4)
  }

  /** Extraction of a file by a caller that takes packages: header, blocks, table. */
  function ExtractFile(penv: P.Env, env: X.Env, file: seq<byte>): (int, seq<X.Event>)
    requires P.ValidEnv(penv)
  {
    if |file| < 8 || NatAt(file, 0, 4) != FORMAT_MAGIC then (HEADER_ERROR, [])
    else if NatAt(file, 4, 4) != SCHEMA_PACKAGE then (X.SCHEMA_ERROR, [])
    else Extraction(penv, env, ReadTable, file[8..])
  }

  /** A file is accepted exactly when it has the header of a package, its blocks fill the rest in
      the form ADB SIG* DATA*, the database header is good, the contents are trusted, the table
      in the database is well formed, and the DATA blocks are the very list the package writer
      emits for that table, with contents of the digests in it; the caller has then been told of
      every entry of it once, in order, with its contents. */
  lemma FileAcceptedIff(penv: P.Env, env: X.Env, file: seq<byte>)
    requires Wired(penv, env, ReadTable) && X.AnswersZero(env) && env.hasFile
    ensures var (r, log) := ExtractFile(penv, env, file);
            && (r == 0 <==>
                  && |file| >= 8 && file[..8] == FileHeader(SCHEMA_PACKAGE)
                  && var (blocks, ending) := Enumerate(file[8..], 0);
                     && ending == Clean && P.Shape(blocks) && P.HeaderOk(penv, blocks[0].payload) && P.TrustedBy(penv, blocks)
                     && var paths := ReadTable(blocks[0].payload);
                        && X.AllOk(paths, X.Table(paths)) && X.IsEmission(paths, X.DataItems(paths, X.Table(paths)), Datas(blocks))
                        && X.AllGenuine(env, paths, X.DataItems(paths, X.Table(paths)), X.Bodies(Datas(blocks))))
            && (r == 0 ==>
                  var blocks := Enumerate(file[8..], 0).0;
                  var paths := ReadTable(blocks[0].payload);
                  && |Datas(blocks)| == |X.DataItems(paths, X.Table(paths))|
                  && log == X.Reports(paths, X.Table(paths), X.Bodies(Datas(blocks))))
  {
    hide Enumerate, P.HeaderOk, P.TrustedBy, P.Shape, X.IsEmission, X.AllGenuine, X.DataItems, X.Table, X.Reports, X.Small, X.AllOk,
      Datas, Extraction, ReadTable, FileHeader, NatAt, Wired;
    P.ShapeNonempty(if |file| >= 8 then Enumerate(file[8..], 0).0 else []);
    if |file| >= 8 {
      HeaderRead(file);
      var blocks := Enumerate(file[8..], 0).0;
      if blocks != [] {
        TableSmall(blocks[0].payload);
      }
      AcceptedIff(penv, env, ReadTable, file[8..]);
    }
  }

  lemma HeaderRead(file: seq<byte>)
    requires |file| >= 8
    ensures NatAt(file, 0, 4) == FORMAT_MAGIC && NatAt(file, 4, 4) == SCHEMA_PACKAGE <==> file[..8] == FileHeader(SCHEMA_PACKAGE)
  {
    hide NatAt, Le;
    Pow256Values();
    X.WordIff(file, 0, FORMAT_MAGIC);
    X.WordIff(file, 4, SCHEMA_PACKAGE);
    assert file[..8] == file[0..4] + file[4..8];
    var h := FileHeader(SCHEMA_PACKAGE);
    assert h[0..4] == Le(FORMAT_MAGIC, 4) && h[4..8] == Le(SCHEMA_PACKAGE, 4);
    if file[..8] == h {
      assert file[0..4] == file[..8][0..4] && file[4..8] == file[..8][4..8];
    }
  }

  /** ADB.pckg */
  lemma HeaderBytes()
    ensures FileHeader(SCHEMA_PACKAGE) == [0x41, 0x44, 0x42, 0x2e, 0x70, 0x63, 0x6b, 0x67]
  {
    hide NatAt, FileHeader;
    var b: seq<byte> := [0x41, 0x44, 0x42, 0x2e, 0x70, 0x63, 0x6b, 0x67];
    NatAtBytes(b, 0);
    NatAtBytes(b, 4);
    HeaderRead(b);
    assert b[..8] == b;
  }

  // ---- From the writers to the reports ----------------------------------------------------------------

  /** Writers leave the first half of the database header alone. */
  lemma {:induction false} RunHeader(h: HashFn, buckets: nat, ops: seq<Op>)
    requires ValidRun(ops)
    ensures |Run(h, buckets, ops).0.data| >= HDR_SIZE && Run(h, buckets, ops).0.data[..4] == Zeroes(4)
  {
    hide Step, Meaning, OpMeaning;
    if ops == [] {
      assert Zeroes(HDR_SIZE)[..4] == Zeroes(4);
    } else {
      var prev, op := ops[..|ops| - 1], ops[|ops| - 1];
      RunUnfold(h, buckets, ops);
      RunHeader(h, buckets, prev);
      StepHeader(h, Run(h, buckets, prev).0, Run(h, buckets, prev).1, op);
    }
  }

  lemma StepHeader(h: HashFn, db: Db, words: seq<word>, op: Op)
    requires Wf(db) && ValidOp(op, |words|)
    ensures var db' := Step(h, db, words, op).0; |db'.data| >= HDR_SIZE && db'.data[..4] == db.data[..4]
  {
    hide Write, TableBytes, Le, TrimWords, Concat, Holds, Copy, PutNested, Nested;
    StepGrows(h, db, words, op);
    match op {
      case IntOp(n) => IntBuilt(h, db, n);
      case BlobOp(parts) => BlobBuilt(h, db, true, parts);
      case RawBlobOp(bytes) =>
        ConcatOne(bytes);
        BlobBuilt(h, db, false, [bytes]);
      case NodeOp(isArray, refs) =>
        var kept := TrimWords(RefWords(refs, words));
        if kept != [] {
          var table := Le(|kept| + 1, 4) + TableBytes(kept);
          ConcatOne(table);
          WritePlaces(h, db, true, [table], 4);
        }
      case RootOp(ref) => assert PutRoot(db, RefWord(ref, words)).data[..4] == db.data[..4];
      case NestedOp(inner) => NestedBuilt(h, db, inner);
      case CopyOp(src, cw, v) => CopyBuilt(h, db, src, cw, v);
    }
  }

  /** A run that ends by setting the root: the root holds what it was set to. */
  lemma RootRead(h: HashFn, buckets: nat, ops: seq<Op>)
    requires ValidRun(ops) && ops != [] && ops[|ops| - 1].RootOp?
    requires |Run(h, buckets, ops).0.data| <= OFFSET_LIMIT
    ensures Holds(Run(h, buckets, ops).0.data, Root(Run(h, buckets, ops).0.data), Meaning(ops)[|ops| - 1])
  {
    hide Holds, Meaning, OpMeaning, NatAt, Le;
    RunHolds(h, buckets, ops);
    RunUnfold(h, buckets, ops);
    var prev := ops[..|ops| - 1];
    var (db, words) := Run(h, buckets, prev);
    var w := RefWord(ops[|ops| - 1].ref, words);
    var data := Run(h, buckets, ops).0.data;
    assert data == PutRoot(db, w).data;
    assert data[4..4 + 4] == Le(Pack(w), 4);
    WordStored(data, 4, w);
  }

  /** A package from beginning to end. Some calls of the writers build a value, the last one sets
      the root; the database goes out behind the file header, with signatures and one DATA block
      for each file with contents. Whoever trusts it and takes files is told of exactly the
      entries in the value that was built, each once and in order, with the contents. */
  lemma WrittenPackage(penv: P.Env, env: X.Env, h: HashFn, buckets: nat, ops: seq<Op>,
                       sigs: seq<seq<byte>>, bodies: seq<seq<byte>>)
    requires Wired(penv, env, ReadTable) && X.AnswersZero(env) && env.hasFile
    requires ValidRun(ops) && ops != [] && ops[|ops| - 1].RootOp? && |Run(h, buckets, ops).0.data| <= OFFSET_LIMIT
    requires var paths := PathsIn(Meaning(ops)[|ops| - 1]);
             && X.AllOk(paths, X.Table(paths)) && X.Fits(paths, X.DataItems(paths, X.Table(paths)), bodies)
             && X.AllGenuine(env, paths, X.DataItems(paths, X.Table(paths)), bodies)
    requires (forall i :: 0 <= i < |sigs| ==> |sigs[i]| + 31 < U64) && (forall i :: 0 <= i < |bodies| ==> |bodies[i]| + 31 < U64)
    requires var paths := PathsIn(Meaning(ops)[|ops| - 1]);
             var adb := Run(h, buckets, ops).0.data;
             && !P.Refused(penv, adb)
             && P.TrustedBy(penv, PackageBlocks(adb, sigs, X.Emitted(X.DataItems(paths, X.Table(paths)), bodies)))
    ensures var paths := PathsIn(Meaning(ops)[|ops| - 1]);
            var blocks := PackageBlocks(Run(h, buckets, ops).0.data, sigs, X.Emitted(X.DataItems(paths, X.Table(paths)), bodies));
            ExtractFile(penv, env, FileHeader(SCHEMA_PACKAGE) + Written(blocks)) ==
            (0, X.Reports(paths, X.Table(paths), bodies))
  {
    hide Run, Meaning, PathsIn, ReadTable, Written, P.TrustedBy, P.Refused, X.DataItems, X.Table, X.Reports, X.AllOk,
      X.Emitted, X.AllGenuine, Extraction, FileHeader, Holds, NatAt, Wired, PackageBlocks;
    var v := Meaning(ops)[|ops| - 1];
    var paths, adb := PathsIn(v), Run(h, buckets, ops).0.data;
    RootRead(h, buckets, ops);
    TableHeld(adb, v);
    TableSmall(adb);
    RunHeader(h, buckets, ops);
    assert adb[..4][0] == adb[0];
    var payloads := X.Emitted(X.DataItems(paths, X.Table(paths)), bodies);
    var blocks := PackageBlocks(adb, sigs, payloads);
    AllStorable(adb, sigs, paths, bodies);
    PackageRoundTrip(penv, env, ReadTable, adb, sigs, bodies);
    var file := FileHeader(SCHEMA_PACKAGE) + Written(blocks);
    assert file[..8] == FileHeader(SCHEMA_PACKAGE) && file[8..] == Written(blocks);
    HeaderRead(file);
  }

  lemma AllStorable(adb: seq<byte>, sigs: seq<seq<byte>>, paths: seq<X.Path>, bodies: seq<seq<byte>>)
    requires |adb| <= OFFSET_LIMIT && X.Fits(paths, X.DataItems(paths, X.Table(paths)), bodies)
    requires (forall i :: 0 <= i < |sigs| ==> |sigs[i]| + 31 < U64) && (forall i :: 0 <= i < |bodies| ==> |bodies[i]| + 31 < U64)
    ensures var blocks := PackageBlocks(adb, sigs, X.Emitted(X.DataItems(paths, X.Table(paths)), bodies));
            forall i :: 0 <= i < |blocks| ==> Storable(blocks[i])
  {
    hide X.DataItems, X.Table, X.DataPayload;
    var data := X.DataItems(paths, X.Table(paths));
    var payloads := X.Emitted(data, bodies);
    forall i | 0 <= i < |payloads|
      ensures |payloads[i]| == 8 + |bodies[i]|
    {
      X.PayloadBody(data[i], bodies[i]);
    }
  }
}
