/**
 A whole package, from the bytes of the image to the reports the caller receives:
 block framing, the trust automaton and the suspended walk put together.
 */
module PackageImage {
  import opened Bytes
  import opened AdbBlocks
  import P = AdbParse
  import X = ExtractV3

  /** Payloads of the DATA blocks. */
  function Datas(bs: seq<Block>): seq<seq<byte>>
  {
    if bs == [] then []
    else
      var n := |bs| - 1;
      Datas(bs[..n]) + if bs[n].typ == TYPE_DATA then [bs[n].payload] else []
  }

  /** The extractor after a number of DATA blocks. */
  function After(env: X.Env, paths: seq<X.Path>, payloads: seq<seq<byte>>): (s: X.Stand)
    ensures X.AllInTable(paths, s.items)
  {
    if payloads == [] then X.Stand(0, [], X.Table(paths))
    else
      var n := |payloads| - 1;
      var s := After(env, paths, payloads[..n]);
      if s.code < 0 then s else X.Feed(env, paths, s.items, payloads[n], s.log)
  }

  /** The data-block callback: the table is the one in the leading block. */
  function OnBlock(env: X.Env, table: seq<byte> -> seq<X.Path>, called: seq<Block>, b: Block): int
  {
    if b.typ != TYPE_DATA || called == [] then 0
    else
      var paths := table(called[0].payload);
      var s := After(env, paths, Datas(called));
      X.Feed(env, paths, s.items, b.payload, s.log).code
  }

  ghost predicate Wired(penv: P.Env, env: X.Env, table: seq<byte> -> seq<X.Path>)
  {
    P.ValidEnv(penv) && forall called, b :: penv.callback(called, b) == OnBlock(env, table, called, b)
  }

  /** The closing step, after a successful parse. */
  function Closing(env: X.Env, paths: seq<X.Path>, s: X.Stand): (int, seq<X.Event>)
    requires X.AllInTable(paths, s.items)
  {
    var at := X.Advance(env, paths, s.items, s.log);
    (if at.code == 0 then X.BLOCK_ERROR else if at.code == 1 then 0 else at.code, at.log)
  }

  /** How a result is returned: an extraction cancelled by its caller is a success, but only if
      the database is still there, which a failing block callback drops. */
  function Returned(r: int, kept: bool): int
  {
    if r == X.CANCELED then (if kept then 0 else X.BLOCK_ERROR) else r
  }

  /** The result of an extraction, and what the caller was told. */
  function Extraction(penv: P.Env, env: X.Env, table: seq<byte> -> seq<X.Path>, data: seq<byte>): (int, seq<X.Event>)
    requires P.ValidEnv(penv)
  {
    var (blocks, ending) := Enumerate(data, 0);
    var left := P.Run(penv, P.Start(penv), blocks, [], 0);
    var r := P.Close(left, ending);
    if left.called == [] then (Returned(r, false), [])
    else
      var paths := table(left.called[0].payload);
      var s := After(env, paths, Datas(left.called));
      if r != 0 then (Returned(r, false), s.log)
      else
        var (r', log) := Closing(env, paths, s);
        (Returned(r', true), log)
  }

  // ---- Feeding block by block ----------------------------------------------------------------

  lemma {:induction false} AfterResumed(env: X.Env, paths: seq<X.Path>, xs: seq<seq<byte>>, ys: seq<seq<byte>>)
    ensures var s := After(env, paths, xs);
            var whole := X.Resumed(env, paths, X.Table(paths), xs + ys, []);
            if s.code < 0 then whole.0 == s.code else whole == X.Resumed(env, paths, s.items, ys, s.log)
    decreases |xs|
  {
    hide X.Feed, X.Advance, X.Table;
    if xs == [] {
      assert xs + ys == ys;
    } else {
      var n := |xs| - 1;
      var ys' := [xs[n]] + ys;
      AfterResumed(env, paths, xs[..n], ys');
      assert xs[..n] + ys' == xs + ys;
      assert ys'[0] == xs[n] && ys'[1..] == ys;
    }
  }

  /** Feeding all blocks and closing is the nested loop over the table. */
  lemma AfterNested(env: X.Env, paths: seq<X.Path>, xs: seq<seq<byte>>)
    requires X.ValidEnv(env)
    ensures var s := After(env, paths, xs);
            var whole := X.Nested(env, paths, X.Table(paths), xs, []);
            if s.code < 0 then whole.0 == s.code else whole == Closing(env, paths, s)
  {
    hide X.Feed, X.Advance, X.Table, X.Nested, After;
    assert xs + [] == xs;
    AfterResumed(env, paths, xs, []);
    X.ResumedIsNested(env, paths, X.Table(paths), xs, []);
  }

  lemma FeedCode(env: X.Env, paths: seq<X.Path>, items: seq<X.Item>, b: seq<byte>, log: seq<X.Event>)
    requires X.ValidEnv(env) && X.AllInTable(paths, items)
    ensures X.Feed(env, paths, items, b, log).code <= 0
  {
    hide X.Advance, X.Matches, X.ItemOk, X.EventOf;
  }

  lemma {:induction false} AfterCode(env: X.Env, paths: seq<X.Path>, xs: seq<seq<byte>>)
    requires X.ValidEnv(env)
    ensures After(env, paths, xs).code <= 0
  {
    hide X.Feed, X.Table;
    if xs != [] {
      var n := |xs| - 1;
      AfterCode(env, paths, xs[..n]);
      var s := After(env, paths, xs[..n]);
      FeedCode(env, paths, s.items, xs[n], s.log);
    }
  }

  /** The parse automaton sees no failing callback exactly when no block is refused. */
  lemma {:induction false} FineIff(penv: P.Env, env: X.Env, table: seq<byte> -> seq<X.Path>, bs: seq<Block>)
    requires Wired(penv, env, table) && X.ValidEnv(env) && bs != [] && bs[0].typ == TYPE_ADB
    ensures P.CallbacksFine(penv, bs) <==> After(env, table(bs[0].payload), Datas(bs)).code >= 0
    ensures P.CallbacksFine(penv, bs) ==> P.LastCode(penv, bs) == 0
  {
    hide X.Feed, X.Table;
    var n := |bs| - 1;
    var front, b := bs[..n], bs[n];
    FineSplit(penv, bs);
    if n == 0 {
      assert penv.callback(front, b) == OnBlock(env, table, front, b) == 0;
      assert Datas(bs) == [] by { assert Datas(front) == []; }
      assert P.CallbacksFine(penv, front);
    } else {
      FineIff(penv, env, table, front);
      var paths := table(bs[0].payload);
      assert front[0] == bs[0];
      assert penv.callback(front, b) == OnBlock(env, table, front, b);
      var s := After(env, paths, Datas(front));
      if b.typ == TYPE_DATA {
        FeedCode(env, paths, s.items, b.payload, s.log);
        var xs := Datas(bs);
        assert xs == Datas(front) + [b.payload];
        assert xs[..|xs| - 1] == Datas(front) && xs[|xs| - 1] == b.payload;
      } else {
        assert Datas(bs) == Datas(front) + [] == Datas(front);
      }
    }
  }

  lemma FineSplit(penv: P.Env, bs: seq<Block>)
    requires bs != []
    ensures var n := |bs| - 1;
            P.CallbacksFine(penv, bs) <==> P.CallbacksFine(penv, bs[..n]) && penv.callback(bs[..n], bs[n]) >= 0
  {
    var n := |bs| - 1;
    var front := bs[..n];
    assert forall i :: 0 <= i < n ==> front[..i] == bs[..i] && front[i] == bs[i];
    if P.CallbacksFine(penv, bs) {
      forall i | 0 <= i < n ensures penv.callback(front[..i], front[i]) >= 0 {
        assert penv.callback(bs[..i], bs[i]) >= 0;
      }
    }
  }

  // ---- The whole image ---------------------------------------------------------------------------

  /** An image is accepted exactly when its blocks fill it in the form ADB SIG* DATA*,
      the header is good, the contents are trusted, the table is well formed, and the DATA
      blocks are the very list the package writer emits for it, with contents of the digests in
      the table; the caller has then been told of every entry once, in order, with its
      contents. (On an image with a block of wrapped size the loop may not end; it accepts none.) */
  lemma AcceptedIff(penv: P.Env, env: X.Env, table: seq<byte> -> seq<X.Path>, data: seq<byte>)
    requires Wired(penv, env, table) && X.AnswersZero(env) && env.hasFile
    requires Enumerate(data, 0).0 != [] ==> X.Small(table(Enumerate(data, 0).0[0].payload))
    ensures var (blocks, ending) := Enumerate(data, 0);
            var (r, log) := Extraction(penv, env, table, data);
            && (r == 0 <==>
                  && ending == Clean && P.Shape(blocks) && P.HeaderOk(penv, blocks[0].payload) && P.TrustedBy(penv, blocks)
                  && var paths := table(blocks[0].payload);
                     && X.AllOk(paths, X.Table(paths)) && X.IsEmission(paths, X.DataItems(paths, X.Table(paths)), Datas(blocks))
                     && X.AllGenuine(env, paths, X.DataItems(paths, X.Table(paths)), X.Bodies(Datas(blocks))))
            && (r == 0 ==>
                  var paths := table(blocks[0].payload);
                  && |Datas(blocks)| == |X.DataItems(paths, X.Table(paths))|
                  && log == X.Reports(paths, X.Table(paths), X.Bodies(Datas(blocks))))
  {
    hide Enumerate, P.Run, P.HeaderOk, P.TrustedBy, P.CallbacksFine, P.LastCode, P.Legal, P.Tracks,
      X.IsEmission, X.AllGenuine, X.DataItems, X.Table, X.Reports, X.Nested, X.Small, X.AllOk, After, Datas, Closing, P.Shape, OnBlock;
    var (blocks, ending) := Enumerate(data, 0);
    P.SucceedsIff(penv, blocks, ending);
    P.ShapeNonempty(blocks);
    if P.Shape(blocks) {
      ShapeFirst(blocks);
      var paths := table(blocks[0].payload);
      FineIff(penv, env, table, blocks);
      AfterNested(env, paths, Datas(blocks));
      X.NestedExact(env, paths, X.Table(paths), Datas(blocks), []);
      CalledAll(penv, blocks, ending);
      if |Datas(blocks)| == |X.DataItems(paths, X.Table(paths))| {
        EmptyLog(X.Reports(paths, X.Table(paths), X.Bodies(Datas(blocks))));
      }
    }
  }

  /** A caller that takes no files stops after the meta data. It gets them exactly from images
      without any DATA block: the first such block is refused with the cancellation, which drops
      the database, and an extraction without a database fails. */
  lemma MetaOnlyIff(penv: P.Env, env: X.Env, table: seq<byte> -> seq<X.Path>, data: seq<byte>)
    requires Wired(penv, env, table) && X.AnswersZero(env) && !env.hasFile
    ensures var (blocks, ending) := Enumerate(data, 0);
            var (r, log) := Extraction(penv, env, table, data);
            && (r == 0 <==>
                  && ending == Clean && P.Shape(blocks) && P.HeaderOk(penv, blocks[0].payload) && P.TrustedBy(penv, blocks)
                  && Datas(blocks) == [])
            && (r == 0 ==> log == [X.MetaEvent])
  {
    hide Enumerate, P.Run, P.HeaderOk, P.TrustedBy, P.CallbacksFine, P.LastCode, P.Legal, P.Tracks,
      X.Table, After, Datas, Closing, P.Shape, OnBlock;
    var (blocks, ending) := Enumerate(data, 0);
    P.SucceedsIff(penv, blocks, ending);
    P.ShapeNonempty(blocks);
    if P.Shape(blocks) {
      ShapeFirst(blocks);
      var paths := table(blocks[0].payload);
      FineIff(penv, env, table, blocks);
      CancelledAfter(env, paths, Datas(blocks));
      CalledAll(penv, blocks, ending);
    }
  }

  lemma {:induction false} CancelledAfter(env: X.Env, paths: seq<X.Path>, xs: seq<seq<byte>>)
    requires X.AnswersZero(env) && !env.hasFile
    ensures var s := After(env, paths, xs);
            if xs == [] then s.code == 0 && Closing(env, paths, s) == (X.CANCELED, [X.MetaEvent]) else s.code < 0
    decreases |xs|
  {
    hide X.ItemsFrom, X.Mismatch;
    var items := X.Table(paths);
    assert items[0] == X.MetaItem;
    assert [] + [X.MetaEvent] == [X.MetaEvent];
    assert X.Advance(env, paths, items, []) == X.Stand(X.CANCELED, [X.MetaEvent], items);
    if |xs| > 1 {
      CancelledAfter(env, paths, xs[..|xs| - 1]);
    }
  }

  lemma EmptyLog(log: seq<X.Event>)
    ensures [] + log == log
  {
  }

  lemma ShapeFirst(bs: seq<Block>)
    requires P.Shape(bs)
    ensures bs != [] && bs[0].typ == TYPE_ADB
  {
  }

  lemma CalledAll(penv: P.Env, blocks: seq<Block>, ending: Ending)
    requires P.ValidEnv(penv)
    ensures var left := P.Run(penv, P.Start(penv), blocks, [], 0);
            P.Close(left, ending) == 0 ==> left.called == blocks
  {
    hide P.Run, P.Legal, P.TrustedBy;
    P.FirstCalls(penv);
    assert [] + blocks == blocks;
    P.RunLegal(penv, P.Start(penv), blocks, [], 0, blocks);
  }

  // ---- Round trip ------------------------------------------------------------------------------------

  function DataBlocks(payloads: seq<seq<byte>>): (r: seq<Block>)
    ensures |r| == |payloads|
  {
    seq(|payloads|, i requires 0 <= i < |payloads| => Block(TYPE_DATA, payloads[i]))
  }

  function SigBlocks(sigs: seq<seq<byte>>): (r: seq<Block>)
    ensures |r| == |sigs|
  {
    seq(|sigs|, i requires 0 <= i < |sigs| => Block(TYPE_SIG, sigs[i]))
  }

  /** The blocks the package writer puts out: the database, its signatures, and one
      DATA block per file with contents. */
  function PackageBlocks(adb: seq<byte>, sigs: seq<seq<byte>>, payloads: seq<seq<byte>>): seq<Block>
  {
    [Block(TYPE_ADB, adb)] + SigBlocks(sigs) + DataBlocks(payloads)
  }

  lemma PackageShape(adb: seq<byte>, sigs: seq<seq<byte>>, payloads: seq<seq<byte>>)
    ensures P.Shape(PackageBlocks(adb, sigs, payloads))
  {
  }

  lemma {:induction false} DatasConcat(a: seq<Block>, payloads: seq<seq<byte>>)
    ensures Datas(a + DataBlocks(payloads)) == Datas(a) + payloads
    decreases |payloads|
  {
    var bs := a + DataBlocks(payloads);
    if payloads == [] {
      assert bs == a;
    } else {
      var n := |payloads| - 1;
      DatasConcat(a, payloads[..n]);
      assert bs[..|bs| - 1] == a + DataBlocks(payloads[..n]);
      assert bs[|bs| - 1] == Block(TYPE_DATA, payloads[n]);
      assert Datas(a) + payloads[..n] + [payloads[n]] == Datas(a) + payloads;
    }
  }

  lemma {:induction false} NoDatas(a: seq<Block>)
    requires forall i :: 0 <= i < |a| ==> a[i].typ != TYPE_DATA
    ensures Datas(a) == []
  {
    if a != [] {
      NoDatas(a[..|a| - 1]);
    }
  }

  /** A package written for some table and contents, with a header and signatures that
      satisfy the reader, is extracted completely: every entry, in order, contents
      included. */
  lemma PackageRoundTrip(penv: P.Env, env: X.Env, table: seq<byte> -> seq<X.Path>,
                         adb: seq<byte>, sigs: seq<seq<byte>>, bodies: seq<seq<byte>>)
    requires Wired(penv, env, table) && X.AnswersZero(env) && env.hasFile && X.Small(table(adb)) && X.AllOk(table(adb), X.Table(table(adb)))
    requires X.Fits(table(adb), X.DataItems(table(adb), X.Table(table(adb))), bodies)
    requires X.AllGenuine(env, table(adb), X.DataItems(table(adb), X.Table(table(adb))), bodies)
    requires var paths := table(adb);
             var blocks := PackageBlocks(adb, sigs, X.Emitted(X.DataItems(paths, X.Table(paths)), bodies));
             && (forall i :: 0 <= i < |blocks| ==> Storable(blocks[i]))
             && P.HeaderOk(penv, adb) && P.TrustedBy(penv, blocks)
    ensures var paths := table(adb);
            var blocks := PackageBlocks(adb, sigs, X.Emitted(X.DataItems(paths, X.Table(paths)), bodies));
            Extraction(penv, env, table, Written(blocks)) == (0, X.Reports(paths, X.Table(paths), bodies))
  {
    hide Written, Enumerate, P.Run, P.HeaderOk, P.TrustedBy, P.Shape, X.DataItems, X.Table, X.Reports, X.Nested,
      X.Small, X.AllOk, X.Emitted, X.IsEmission, X.AllGenuine, Datas, Storable, Extraction;
    var paths := table(adb);
    var payloads := X.Emitted(X.DataItems(paths, X.Table(paths)), bodies);
    var blocks := PackageBlocks(adb, sigs, payloads);
    WrittenEnumerates(blocks);
    PackageShape(adb, sigs, payloads);
    var front := [Block(TYPE_ADB, adb)] + SigBlocks(sigs);
    NoDatas(front);
    DatasConcat(front, payloads);
    assert [] + payloads == payloads;
    EmissionOf(paths, X.DataItems(paths, X.Table(paths)), bodies);
    AcceptedIff(penv, env, table, Written(blocks));
  }

  /** Such images: a written package gives its meta data to a caller without a file operation exactly
      if none of its files has contents. */
  lemma MetaOnlyWritten(penv: P.Env, env: X.Env, table: seq<byte> -> seq<X.Path>,
                        adb: seq<byte>, sigs: seq<seq<byte>>, bodies: seq<seq<byte>>)
    requires Wired(penv, env, table) && X.AnswersZero(env) && !env.hasFile
    requires X.Fits(table(adb), X.DataItems(table(adb), X.Table(table(adb))), bodies)
    requires var paths := table(adb);
             var blocks := PackageBlocks(adb, sigs, X.Emitted(X.DataItems(paths, X.Table(paths)), bodies));
             && (forall i :: 0 <= i < |blocks| ==> Storable(blocks[i]))
             && P.HeaderOk(penv, adb) && P.TrustedBy(penv, blocks)
    ensures var paths := table(adb);
            var blocks := PackageBlocks(adb, sigs, X.Emitted(X.DataItems(paths, X.Table(paths)), bodies));
            var (r, log) := Extraction(penv, env, table, Written(blocks));
            && (r == 0 <==> X.DataItems(paths, X.Table(paths)) == []) && (r == 0 ==> log == [X.MetaEvent])
  {
    hide Written, Enumerate, P.Run, P.HeaderOk, P.TrustedBy, P.Shape, X.DataItems, X.Table, Datas, Storable, Extraction;
    var paths := table(adb);
    var payloads := X.Emitted(X.DataItems(paths, X.Table(paths)), bodies);
    var blocks := PackageBlocks(adb, sigs, payloads);
    WrittenEnumerates(blocks);
    PackageShape(adb, sigs, payloads);
    var front := [Block(TYPE_ADB, adb)] + SigBlocks(sigs);
    NoDatas(front);
    DatasConcat(front, payloads);
    assert [] + payloads == payloads;
    MetaOnlyIff(penv, env, table, Written(blocks));
  }

  lemma EmissionOf(paths: seq<X.Path>, data: seq<X.Item>, bodies: seq<seq<byte>>)
    requires X.AllData(paths, data) && X.Fits(paths, data, bodies)
    ensures X.IsEmission(paths, data, X.Emitted(data, bodies))
    ensures X.Bodies(X.Emitted(data, bodies)) == bodies
  {
    hide X.DataPayload;
    var blocks := X.Emitted(data, bodies);
    forall i | 0 <= i < |data|
      ensures X.Bodies(blocks)[i] == bodies[i]
    {
      X.PayloadBody(data[i], bodies[i]);
    }
    assert X.Bodies(blocks) == bodies;
  }
}
