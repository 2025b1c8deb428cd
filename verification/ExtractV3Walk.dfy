/**
 The resumable iterator over a package's table, as the object that keeps its
 cursors between calls, and the loop that emits the DATA blocks.
 */
module ExtractV3Walk {
  import opened Bytes
  import opened AdbValue
  import opened ExtractV3

  class Extractor {
    const env: Env
    const paths: seq<Path>

    // Cursors, numbered from one; zero before the first call.
    var curPath: nat
    var curFile: nat
    // The entries the cursors were last moved to, and the path built so far.
    var path: Path
    var file: File
    var name: seq<byte>

    var log: seq<Event>

    /** Before the first call, or resting on a file that waits for its contents. */
    ghost predicate Valid()
      reads this
    {
      curPath == 0 || Suspended()
    }

    ghost predicate Suspended()
      reads this
    {
      && 1 <= curPath <= |paths| && path == paths[curPath - 1]
      && 1 <= curFile <= |path.files| && file == path.files[curFile - 1]
      && NeedsData(file) && name == Pushed(DirName(path), file.name)
    }

    /** What is still to be reported behind the cursors. */
    ghost function Rest(): (r: seq<Item>)
      requires Valid()
      reads this
      ensures AllInTable(paths, r)
    {
      if curPath == 0 then Table(paths) else From(paths, curPath, curFile + 1)
    }

    constructor (env: Env, paths: seq<Path>)
      ensures Valid() && Rest() == Table(paths) && log == []
      ensures this.env == env && this.paths == paths
    {
      this.env, this.paths := env, paths;
      curPath, curFile := 0, 0;
      path, file := Path([], [], false), File([], 0, None, [], false);
      name, log := [], [];
    }

    method TellMeta() returns (r: int)
      modifies this`log
      ensures (r, log) == Report(env, paths, MetaItem, None, old(log))
    {
      r := env.answer(log, MetaEvent);
      log := log + [MetaEvent];
      if r == 0 && !env.hasFile {
        r := CANCELED;
      }
    }

    /** Reports the current directory under the path built so far. */
    method TellDir() returns (r: int)
      requires 1 <= curPath <= |paths| && path == paths[curPath - 1] && name == DirName(path)
      modifies this`log
      ensures (r, log) == Report(env, paths, DirItem(curPath), None, old(log))
    {
      if !path.aclOk {
        return SCHEMA_ERROR;
      }
      var e := DirEvent(curPath, name);
      r := env.answer(log, e);
      log := log + [e];
    }

    /** Reports the current file under the path built so far. */
    method TellFile(data: Option<seq<byte>>) returns (r: int)
      requires 1 <= curPath <= |paths| && path == paths[curPath - 1]
      requires 1 <= curFile <= |path.files| && file == path.files[curFile - 1]
      requires name == Pushed(DirName(path), file.name)
      modifies this`log
      ensures (r, log) == Report(env, paths, FileItem(curPath, curFile), data, old(log))
    {
      hide Pushed;
      if !SchemaOk(file) {
        return SCHEMA_ERROR;
      }
      var e := FileEvent(curPath, curFile, name, data);
      r := env.answer(log, e);
      log := log + [e];
      if r == 0 && data.Some? && !env.digestOk(file.hashes, data.value) {
        r := FILE_INTEGRITY;
      }
    }

    /** The files of the current directory, from the cursor on: stops at one that needs
        contents or whose report fails. */
    method WalkFiles() returns (stopped: bool, r: int)
      requires 1 <= curPath <= |paths| && path == paths[curPath - 1] && 1 <= curFile && name == DirName(path)
      requires ValidEnv(env)
      modifies this
      ensures curPath == old(curPath)
      ensures var s := Advance(env, paths, Inside(paths, old(curPath), old(curFile)), old(log));
              if stopped then
                && r == s.code && log == s.log
                && (r == 0 ==> Suspended() && s.items == [FileItem(curPath, curFile)] + Rest())
              else Advance(env, paths, From(paths, curPath + 1, 1), log) == s
    {
      hide Report, Advance, From, ItemsFrom, Inside, AllInTable, NeedsData, Pushed, ItemOk;
      ghost var target := Advance(env, paths, Inside(paths, curPath, curFile), log);
      while curFile <= |path.files|
        invariant curPath == old(curPath) && path == paths[curPath - 1] && 1 <= curFile
        invariant name == DirName(path)
        invariant Advance(env, paths, Inside(paths, curPath, curFile), log) == target
        decreases |path.files| - curFile
      {
        file := path.files[curFile - 1];
        var dir := name;
        name := Pushed(name, file.name);
        NextInDir(paths, curPath, curFile);
        ghost var it, rest := FileItem(curPath, curFile), Inside(paths, curPath, curFile + 1);
        if NeedsData(file) {
          AdvanceRests(env, paths, it, rest, log);
          return true, 0;
        }
        AdvanceReports(env, paths, it, rest, log);
        r := TellFile(None);
        if r != 0 {
          return true, r;
        }
        name := dir;
        curFile := curFile + 1;
      }
      DirDone(paths, curPath, curFile);
      stopped, r := false, 0;
    }

    /** Goes on to the next file that needs contents: 0 when resting on one, 1 at the
        end of the table, otherwise the code of the report that failed. */
    method NextFile() returns (r: int)
      requires Valid() && ValidEnv(env)
      modifies this
      ensures var s := Advance(env, paths, old(Rest()), old(log));
              && r == s.code && log == s.log
              && (r == 0 ==> Suspended() && s.items == [FileItem(curPath, curFile)] + Rest())
    {
      hide Report, Advance, From, ItemsFrom, Inside, AllInTable, NeedsData, Pushed, ItemOk;
      ghost var target := Advance(env, paths, Rest(), log);
      if curPath == 0 {
        curPath, curFile := 1, 1;
        Begun(paths);
        AdvanceReports(env, paths, MetaItem, From(paths, 1, 1), log);
        r := TellMeta();
        if r != 0 {
          return;
        }
      } else {
        ResumeAt(paths, curPath, curFile);
        curFile := curFile + 1;
        if curFile > |path.files| {
          curPath := curPath + 1;
          curFile := 1;
        }
      }
      while curPath <= |paths|
        invariant curPath >= 1 && 1 <= curFile
        invariant curFile > 1 ==> curPath <= |paths| && path == paths[curPath - 1]
        invariant Advance(env, paths, From(paths, curPath, curFile), log) == target
        decreases |paths| - curPath
      {
        if curFile == 1 {
          path := paths[curPath - 1];
          Opened(paths, curPath);
        } else {
          Reopened(paths, curPath, curFile);
        }
        ghost var at := curPath;
        name := Pushed([], path.name);
        if name != [] && curFile == 1 {
          AdvanceReports(env, paths, DirItem(curPath), Inside(paths, curPath, 1), log);
          r := TellDir();
          if r != 0 {
            return;
          }
        }
        var stopped;
        stopped, r := WalkFiles();
        if stopped {
          return;
        }
        curPath, curFile := curPath + 1, 1;
      }
      Finished(env, paths, curPath, curFile, log);
      r := 1;
    }

    /** One DATA block. */
    method DataBlock(b: seq<byte>) returns (r: int)
      requires Valid() && ValidEnv(env)
      modifies this
      ensures var s := Feed(env, paths, old(Rest()), b, old(log));
              r == s.code && log == s.log && (r >= 0 ==> Valid() && Rest() == s.items)
    {
      hide Advance, Report, From, AllInTable, NatAt, NeedsData;
      ghost var s := Advance(env, paths, Rest(), log);
      r := NextFile();
      if r != 0 {
        return if r > 0 then BLOCK_ERROR else r;
      }
      assert s.items[0] == FileItem(curPath, curFile) && s.items[1..] == Rest();
      if |b| < 8 {
        return EOF_ERROR;
      }
      var pathIdx, fileIdx := NatAt(b, 0, 4), NatAt(b, 4, 4);
      if pathIdx != curPath || fileIdx != curFile || |b| - 8 != file.size {
        return BLOCK_ERROR;
      }
      r := TellFile(Some(b[8..]));
    }

    /** A whole extraction: every DATA block in turn, then the closing step, which must
        find the end of the table. */
    method Extract(blocks: seq<seq<byte>>) returns (r: int)
      requires Valid() && ValidEnv(env) && curPath == 0
      modifies this
      ensures (r, log) == Nested(env, paths, Table(paths), blocks, old(log))
    {
      hide Feed, Advance, Nested;
      ghost var target := Resumed(env, paths, Rest(), blocks, log);
      ResumedIsNested(env, paths, Rest(), blocks, log);
      var i := 0;
      while i < |blocks|
        invariant 0 <= i <= |blocks| && Valid()
        invariant Resumed(env, paths, Rest(), blocks[i..], log) == target
      {
        assert blocks[i..][0] == blocks[i] && blocks[i..][1..] == blocks[i + 1..];
        r := DataBlock(blocks[i]);
        if r < 0 {
          return;
        }
        i := i + 1;
      }
      r := NextFile();
      if r == 0 {
        r := BLOCK_ERROR;
      } else if r == 1 {
        r := 0;
      }
    }
  }

  lemma Begun(paths: seq<Path>)
    ensures Table(paths) == [MetaItem] + From(paths, 1, 1)
  {
    hide Inside;
  }

  lemma ResumeAt(paths: seq<Path>, p: nat, f: nat)
    requires 1 <= p <= |paths| && 1 <= f <= |paths[p - 1].files|
    ensures f + 1 > |paths[p - 1].files| ==> From(paths, p, f + 1) == From(paths, p + 1, 1)
  {
    hide ItemsFrom, AllInTable;
    if f + 1 > |paths[p - 1].files| {
      DirDone(paths, p, f + 1);
    }
  }

  lemma PastEnd(paths: seq<Path>, p: nat)
    requires 1 <= p
    ensures p > |paths| ==> ItemsFrom(paths, p) == []
  {
  }

  lemma Opened(paths: seq<Path>, p: nat)
    requires 1 <= p <= |paths|
    ensures From(paths, p, 1) ==
            if DirName(paths[p - 1]) != [] then [DirItem(p)] + Inside(paths, p, 1) else Inside(paths, p, 1)
  {
    hide Inside, AllInTable, DirName;
    assert [] + Inside(paths, p, 1) == Inside(paths, p, 1);
  }

  lemma Reopened(paths: seq<Path>, p: nat, f: nat)
    requires 1 <= p <= |paths| && 1 < f
    ensures From(paths, p, f) == Inside(paths, p, f)
  {
  }

  lemma NextInDir(paths: seq<Path>, p: nat, f: nat)
    requires 1 <= p <= |paths| && 1 <= f <= |paths[p - 1].files|
    ensures Inside(paths, p, f) == [FileItem(p, f)] + Inside(paths, p, f + 1)
    ensures From(paths, p, f + 1) == Inside(paths, p, f + 1)
  {
    hide ItemsFrom, AllInTable;
    var here, later := FilesFrom(paths, p, f + 1), ItemsFrom(paths, p + 1);
    assert ([FileItem(p, f)] + here) + later == [FileItem(p, f)] + (here + later);
  }

  lemma DirDone(paths: seq<Path>, p: nat, f: nat)
    requires 1 <= p <= |paths| && |paths[p - 1].files| < f
    ensures Inside(paths, p, f) == From(paths, p + 1, 1)
  {
    hide ItemsFrom, AllInTable;
    PastEnd(paths, p + 1);
    assert [] + ItemsFrom(paths, p + 1) == ItemsFrom(paths, p + 1);
  }

  lemma Finished(env: Env, paths: seq<Path>, p: nat, f: nat, log: seq<Event>)
    requires 1 <= f && |paths| < p
    ensures Advance(env, paths, From(paths, p, f), log) == Stand(1, log, [])
  {
  }

  /** The package writer's emitting loop: one block per file with contents, in table
      order, numbered by its place in the table. */
  method Emit(paths: seq<Path>, disk: (nat, nat) -> seq<byte>) returns (blocks: seq<seq<byte>>)
    ensures var data := DataItems(paths, Table(paths));
            blocks == Emitted(data, Gathered(data, disk))
  {
    hide ItemsFrom, FilesFrom, DataItems, AllInTable, Emitted, Gathered, DataPayload, Table;
    blocks := [];
    ghost var data := DataItems(paths, ItemsFrom(paths, 1));
    var i := 1;
    ghost var done: seq<Item> := [];
    NothingEmitted(paths, disk, data);
    while i <= |paths|
      invariant 1 <= i <= |paths| + 1 && AllData(paths, done)
      invariant blocks == Emitted(done, Gathered(done, disk))
      invariant done + DataItems(paths, ItemsFrom(paths, i)) == data
    {
      SplitDir(paths, i);
      var files := paths[i - 1].files;
      var j := 1;
      ghost var later := DataItems(paths, ItemsFrom(paths, i + 1));
      assert done + (DataItems(paths, FilesFrom(paths, i, 1)) + later) == data;
      while j <= |files|
        invariant 1 <= j && AllData(paths, done)
        invariant blocks == Emitted(done, Gathered(done, disk))
        invariant done + (DataItems(paths, FilesFrom(paths, i, j)) + later) == data
      {
        var f := files[j - 1];
        SplitFile(paths, i, j);
        if f.target.Some? || f.size == 0 {
          j := j + 1;
          continue;
        }
        ghost var it := FileItem(i, j);
        blocks := blocks + [DataPayload(FileItem(i, j), disk(i, j))];
        EmittedSnoc(done, it, disk);
        Shift(done, it, DataItems(paths, FilesFrom(paths, i, j + 1)), later);
        assert IsData(paths, it) by { OneData(paths, i, j); }
        done := done + [it];
        j := j + 1;
      }
      NoMoreFiles(paths, i, j, done, later);
      i := i + 1;
    }
    AllEmitted(paths, i, done);
  }

  lemma NothingEmitted(paths: seq<Path>, disk: (nat, nat) -> seq<byte>, data: seq<Item>)
    ensures Emitted([], Gathered([], disk)) == [] && [] + data == data
  {
  }

  lemma OneData(paths: seq<Path>, p: nat, f: nat)
    requires 1 <= p <= |paths| && 1 <= f <= |paths[p - 1].files|
    requires paths[p - 1].files[f - 1].target.None? && paths[p - 1].files[f - 1].size != 0
    ensures IsData(paths, FileItem(p, f))
  {
  }

  lemma NoMoreFiles(paths: seq<Path>, p: nat, f: nat, done: seq<Item>, later: seq<Item>)
    requires 1 <= p <= |paths| && |paths[p - 1].files| < f
    ensures done + (DataItems(paths, FilesFrom(paths, p, f)) + later) == done + later
  {
    assert [] + later == later;
  }

  lemma AllEmitted(paths: seq<Path>, p: nat, done: seq<Item>)
    requires |paths| < p
    ensures done + DataItems(paths, ItemsFrom(paths, p)) == done
    ensures DataItems(paths, Table(paths)) == DataItems(paths, ItemsFrom(paths, 1))
  {
    hide ItemsFrom;
    PastEnd(paths, p);
    assert done + [] == done;
    assert Table(paths)[1..] == ItemsFrom(paths, 1);
    assert [] + DataItems(paths, ItemsFrom(paths, 1)) == DataItems(paths, ItemsFrom(paths, 1));
  }

  lemma Shift(done: seq<Item>, it: Item, rest: seq<Item>, later: seq<Item>)
    ensures done + (([it] + rest) + later) == (done + [it]) + (rest + later)
  {
  }

  lemma SplitDir(paths: seq<Path>, p: nat)
    requires 1 <= p <= |paths|
    ensures DataItems(paths, ItemsFrom(paths, p)) ==
            DataItems(paths, FilesFrom(paths, p, 1)) + DataItems(paths, ItemsFrom(paths, p + 1))
  {
    hide FilesFrom, DirName, DataItems, AllInTable;
    var d := DirOf(paths, p);
    DataItemsConcat(paths, d, Inside(paths, p, 1));
    DataItemsConcat(paths, FilesFrom(paths, p, 1), ItemsFrom(paths, p + 1));
    DirNoData(paths, p);
    assert [] + DataItems(paths, Inside(paths, p, 1)) == DataItems(paths, Inside(paths, p, 1));
  }

  lemma DirNoData(paths: seq<Path>, p: nat)
    requires 1 <= p <= |paths|
    ensures DataItems(paths, DirOf(paths, p)) == []
  {
    hide DirName;
    if DirOf(paths, p) != [] {
      assert DirOf(paths, p)[1..] == [];
    }
  }

  lemma SplitFile(paths: seq<Path>, p: nat, f: nat)
    requires 1 <= p <= |paths| && 1 <= f <= |paths[p - 1].files|
    ensures var it, rest := FileItem(p, f), DataItems(paths, FilesFrom(paths, p, f + 1));
            DataItems(paths, FilesFrom(paths, p, f)) ==
            if NeedsData(paths[p - 1].files[f - 1]) then [it] + rest else rest
  {
    hide NeedsData;
    var items := FilesFrom(paths, p, f);
    assert items[0] == FileItem(p, f) && items[1..] == FilesFrom(paths, p, f + 1);
  }

  lemma EmittedSnoc(done: seq<Item>, it: Item, disk: (nat, nat) -> seq<byte>)
    requires it.FileItem? && forall i :: 0 <= i < |done| ==> done[i].FileItem?
    ensures var next := done + [it];
            Emitted(next, Gathered(next, disk)) ==
            Emitted(done, Gathered(done, disk)) + [DataPayload(it, disk(it.path, it.file))]
  {
    hide DataPayload;
  }
}
