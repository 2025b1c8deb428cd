/**
 Extraction of a version 3 package: a walk over its table of directories and
 files that is suspended at every file with contents and resumed once per DATA
 block, and the writer that emits those blocks.
 */
module ExtractV3 {
  import opened Bytes
  import opened AdbValue

  const BLOCK_ERROR: int := -1
  const SCHEMA_ERROR: int := -5
  const EOF_ERROR: int := -7
  const FILE_INTEGRITY: int := -8
  const CANCELED: int := -125

  const PATH_MAX: nat := 4096

  const S_IFIFO: nat := 0x1000
  const S_IFCHR: nat := 0x2000
  const S_IFBLK: nat := 0x6000
  const S_IFREG: nat := 0x8000
  const S_IFLNK: nat := 0xa000

  datatype File = File(name: seq<byte>, size: nat, target: Option<seq<byte>>, hashes: seq<byte>, aclOk: bool)
  datatype Path = Path(name: seq<byte>, files: seq<File>, aclOk: bool)

  /** What the caller is told, in order: the package meta data, a directory, a file
      with its contents if it has any. */
  datatype Event =
    | MetaEvent
    | DirEvent(path: nat, dirName: seq<byte>)
    | FileEvent(path: nat, file: nat, fileName: seq<byte>, data: Option<seq<byte>>)

  /** The caller's answers: zero or a negative code, each depending on all that came
      before; and the check of contents against the digest in the table. */
  datatype Env = Env(hasFile: bool, answer: (seq<Event>, Event) -> int, digestOk: (seq<byte>, seq<byte>) -> bool)

  ghost predicate ValidEnv(env: Env) { forall log, e :: env.answer(log, e) <= 0 }

  // ---- Path names ---------------------------------------------------------------------------

  /** apk_pathbuilder_pushb: a name that would not fit leaves the path as it was. */
  function Pushed(name: seq<byte>, part: seq<byte>): seq<byte>
  {
    if |name| + |part| + 2 >= PATH_MAX then name
    else if name == [] then part
    else name + [0x2f] + part
  }

  function DirName(p: Path): seq<byte> { Pushed([], p.name) }

  // ---- Which entries are well formed and which carry data ---------------------------------------

  predicate NeedsData(f: File) { f.size != 0 && f.target.None? }

  predicate SchemaOk(f: File)
  {
    f.aclOk &&
    match f.target
    case None => |f.hashes| in {20, 32, 64}
    case Some(t) =>
      |t| >= 2 &&
      var mode, rest := FromLe(t[..2]), |t| - 2;
      if mode in {S_IFBLK, S_IFCHR, S_IFIFO} then rest == 8
      else mode in {S_IFLNK, S_IFREG} && rest < PATH_MAX - 1
  }

  /** A device: two bytes of type and eight of number. */
  ghost predicate IsDevice(t: seq<byte>)
  {
    |t| == 10 && (t[..2] == [0, 0x60] || t[..2] == [0, 0x20] || t[..2] == [0, 0x10])
  }

  /** A symbolic or hard link: two bytes of type and a path that fits. */
  ghost predicate IsLink(t: seq<byte>)
  {
    2 <= |t| <= 4096 && (t[..2] == [0, 0xa0] || t[..2] == [0, 0x80])
  }

  /** A file entry is well formed exactly if its access line is and it is a device, a link, or a
      regular file with a digest of a known length. It has a DATA block exactly if it is a regular
      file and not empty. */
  lemma FileOkIff(f: File)
    ensures SchemaOk(f) <==>
              && f.aclOk
              && (if f.target.Some? then IsDevice(f.target.value) || IsLink(f.target.value)
                  else |f.hashes| == 20 || |f.hashes| == 32 || |f.hashes| == 64)
    ensures NeedsData(f) <==> f.target == None && f.size > 0
  {
    if f.target.Some? && |f.target.value| >= 2 {
      TwoBytes(f.target.value[..2]);
    }
  }

  lemma TwoBytes(t: seq<byte>)
    requires |t| == 2
    ensures var low: nat, high: nat := t[0], t[1]; FromLe(t) == low + 256 * high
  {
    assert FromLe([]) == 0 && t[1..] == [t[1]] && t[1..][1..] == [];
  }

  // ---- The table, flattened ------------------------------------------------------------------------

  datatype Item = MetaItem | DirItem(path: nat) | FileItem(path: nat, file: nat)

  predicate InTable(paths: seq<Path>, it: Item)
  {
    match it
    case MetaItem => true
    case DirItem(p) => 1 <= p <= |paths|
    case FileItem(p, f) => 1 <= p <= |paths| && 1 <= f <= |paths[p - 1].files|
  }

  function FileOf(paths: seq<Path>, it: Item): File
    requires InTable(paths, it) && it.FileItem?
  {
    paths[it.path - 1].files[it.file - 1]
  }

  predicate IsData(paths: seq<Path>, it: Item)
    requires InTable(paths, it)
  {
    it.FileItem? && NeedsData(FileOf(paths, it))
  }

  /** The files of one directory from number f on. */
  function FilesFrom(paths: seq<Path>, p: nat, f: nat): (r: seq<Item>)
    requires 1 <= p <= |paths| && 1 <= f
    ensures AllInTable(paths, r)
    decreases |paths[p - 1].files| + 1 - f
  {
    if f > |paths[p - 1].files| then [] else [FileItem(p, f)] + FilesFrom(paths, p, f + 1)
  }

  function DirOf(paths: seq<Path>, p: nat): (r: seq<Item>)
    requires 1 <= p <= |paths|
    ensures AllInTable(paths, r)
  {
    if DirName(paths[p - 1]) != [] then [DirItem(p)] else []
  }

  /** All entries from directory p on: each named directory before its files. */
  function ItemsFrom(paths: seq<Path>, p: nat): (r: seq<Item>)
    requires 1 <= p
    ensures AllInTable(paths, r)
    decreases |paths| + 1 - p, 1
  {
    if p > |paths| then [] else DirOf(paths, p) + Inside(paths, p, 1)
  }

  /** The files of directory p from number f on, then all later directories. */
  function Inside(paths: seq<Path>, p: nat, f: nat): (r: seq<Item>)
    requires 1 <= p <= |paths| && 1 <= f
    ensures AllInTable(paths, r)
    decreases |paths| + 1 - p, 0
  {
    FilesFrom(paths, p, f) + ItemsFrom(paths, p + 1)
  }

  /** The entries from file f of directory p on, f > 1 meaning that the directory
      itself is behind. */
  function From(paths: seq<Path>, p: nat, f: nat): (r: seq<Item>)
    requires 1 <= p && 1 <= f
    ensures AllInTable(paths, r)
  {
    if p > |paths| then [] else if f == 1 then ItemsFrom(paths, p) else Inside(paths, p, f)
  }

  /** Everything there is to report. */
  function Table(paths: seq<Path>): (r: seq<Item>)
    ensures AllInTable(paths, r)
  {
    [MetaItem] + ItemsFrom(paths, 1)
  }

  predicate AllInTable(paths: seq<Path>, items: seq<Item>)
  {
    forall i :: 0 <= i < |items| ==> InTable(paths, items[i])
  }

  /** Table order: a directory before its files, files by number. */
  predicate Before(a: Item, b: Item)
  {
    match (a, b)
    case (_, MetaItem) => false
    case (MetaItem, _) => true
    case (DirItem(p), DirItem(q)) => p < q
    case (DirItem(p), FileItem(q, g)) => p <= q
    case (FileItem(p, f), DirItem(q)) => p < q
    case (FileItem(p, f), FileItem(q, g)) => p < q || (p == q && f < g)
  }

  predicate Ordered(items: seq<Item>)
  {
    forall i, j :: 0 <= i < j < |items| ==> Before(items[i], items[j])
  }

  lemma {:induction false} FilesListed(paths: seq<Path>, p: nat, f: nat)
    requires 1 <= p <= |paths| && 1 <= f
    ensures Ordered(FilesFrom(paths, p, f))
    ensures forall it :: it in FilesFrom(paths, p, f) <==>
            it.FileItem? && it.path == p && f <= it.file <= |paths[p - 1].files|
    decreases |paths[p - 1].files| + 1 - f
  {
    if f <= |paths[p - 1].files| {
      FilesListed(paths, p, f + 1);
      assert FilesFrom(paths, p, f) == [FileItem(p, f)] + FilesFrom(paths, p, f + 1);
      OrderedConcat([FileItem(p, f)], FilesFrom(paths, p, f + 1));
    }
  }

  predicate Listed(paths: seq<Path>, p: nat, it: Item)
  {
    !it.MetaItem? && it.path >= p && InTable(paths, it) && (it.DirItem? ==> DirName(paths[it.path - 1]) != [])
  }

  lemma {:induction false} ItemsListed(paths: seq<Path>, p: nat)
    requires 1 <= p
    ensures Ordered(ItemsFrom(paths, p))
    ensures forall it :: it in ItemsFrom(paths, p) <==> Listed(paths, p, it)
    decreases |paths| + 1 - p
  {
    hide DirName;
    if p <= |paths| {
      ItemsListed(paths, p + 1);
      FilesListed(paths, p, 1);
      var d, fs, rest := DirOf(paths, p), FilesFrom(paths, p, 1), ItemsFrom(paths, p + 1);
      assert ItemsFrom(paths, p) == d + (fs + rest);
      OrderedConcat(fs, rest);
      OrderedConcat(d, fs + rest);
    }
  }

  lemma OrderedConcat(a: seq<Item>, b: seq<Item>)
    requires Ordered(a) && Ordered(b) && forall x, y :: x in a && y in b ==> Before(x, y)
    ensures Ordered(a + b)
  {
  }

  /** The table lists the meta data, each named directory and each file exactly once,
      in order. */
  lemma TableExact(paths: seq<Path>)
    ensures Ordered(Table(paths))
    ensures forall it :: it in Table(paths) <==> it.MetaItem? || Listed(paths, 1, it)
    ensures forall i, j :: 0 <= i < j < |Table(paths)| ==> Table(paths)[i] != Table(paths)[j]
  {
    hide ItemsFrom;
    ItemsListed(paths, 1);
    OrderedConcat([MetaItem], ItemsFrom(paths, 1));
  }

  // ---- Reporting --------------------------------------------------------------------------------------

  function EventOf(paths: seq<Path>, it: Item, data: Option<seq<byte>>): Event
    requires InTable(paths, it)
  {
    match it
    case MetaItem => MetaEvent
    case DirItem(p) => DirEvent(p, DirName(paths[p - 1]))
    case FileItem(p, f) => FileEvent(p, f, Pushed(DirName(paths[p - 1]), FileOf(paths, it).name), data)
  }

  /** The name of an entry, from the names in the table. */
  function Join(dir: seq<byte>, part: seq<byte>): seq<byte>
  {
    if dir == [] then part else dir + [0x2f] + part
  }

  /** A path component is pushed exactly if the result, a slash and the end mark fit. */
  lemma PushedIff(name: seq<byte>, part: seq<byte>)
    ensures Pushed(name, part) == Join(name, part) <==> |name| + |part| + 2 < PATH_MAX
  {
    assert |Join(name, part)| == |name| + |part| + (if name == [] then 0 else 1);
  }

  /** An entry is reported under its own name exactly if that fits. A file whose name does not fit
      behind that of its directory is reported under the directory's name, and files of a directory
      whose name does not fit are reported without it. */
  lemma ReportedNameIff(paths: seq<Path>, it: Item, data: Option<seq<byte>>)
    requires InTable(paths, it) && !it.MetaItem?
    ensures var dir := paths[it.path - 1].name;
            && (it.DirItem? ==>
                  (EventOf(paths, it, data).dirName == dir <==> |dir| + 2 < PATH_MAX))
            && (it.FileItem? ==>
                  var name, part := EventOf(paths, it, data).fileName, FileOf(paths, it).name;
                  && (name == Join(dir, part) <==> |dir| + |part| + 2 < PATH_MAX)
                  && (|dir| + 2 < PATH_MAX <= |dir| + |part| + 2 ==> name == dir)
                  && (|dir| + 2 >= PATH_MAX ==> name == if |part| + 2 < PATH_MAX then part else []))
  {
    var dir := paths[it.path - 1].name;
    PushedIff([], dir);
    if it.FileItem? {
      PushedIff(dir, FileOf(paths, it).name);
    }
  }

  /** Such a file: a regular file in the directory d, with a name of 4094 letters. The caller is told
      of a file called d. */
  lemma LongName(env: Env, log: seq<Event>, hash: seq<byte>)
    requires |hash| == 20
    ensures var paths := [Path([0x64], [File(seq(4094, _ => 0x61), 0, None, hash, true)], true)];
            Report(env, paths, FileItem(1, 1), None, log).1 == log + [FileEvent(1, 1, [0x64], None)]
  {
    var paths := [Path([0x64], [File(seq(4094, _ => 0x61), 0, None, hash, true)], true)];
    ReportedNameIff(paths, FileItem(1, 1), None);
  }

  predicate ItemOk(paths: seq<Path>, it: Item)
    requires InTable(paths, it)
  {
    match it
    case MetaItem => true
    case DirItem(p) => paths[p - 1].aclOk
    case FileItem(p, f) => SchemaOk(FileOf(paths, it))
  }

  /** The contents, if there are any, have the digest in the table. */
  predicate Genuine(env: Env, paths: seq<Path>, it: Item, data: Option<seq<byte>>)
    requires InTable(paths, it)
  {
    it.FileItem? && data.Some? ==> env.digestOk(FileOf(paths, it).hashes, data.value)
  }

  /** One report: refused for a malformed entry, otherwise answered by the caller, and after
      that refused for contents of another digest; a caller that takes no files is done after
      the meta data. */
  function Report(env: Env, paths: seq<Path>, it: Item, data: Option<seq<byte>>, log: seq<Event>): (int, seq<Event>)
    requires InTable(paths, it)
  {
    if !ItemOk(paths, it) then (SCHEMA_ERROR, log)
    else
      var e := EventOf(paths, it, data);
      var r := env.answer(log, e);
      (if r != 0 then r
       else if it.MetaItem? && !env.hasFile then CANCELED
       else if !Genuine(env, paths, it, data) then FILE_INTEGRITY
       else 0, log + [e])
  }

  // ---- DATA blocks -------------------------------------------------------------------------------------

  /** The payload of a DATA block: path and file number, then the contents. */
  function DataPayload(it: Item, body: seq<byte>): seq<byte>
    requires it.FileItem?
  {
    Le(it.path, 4) + Le(it.file, 4) + body
  }

  predicate Matches(paths: seq<Path>, it: Item, b: seq<byte>)
    requires InTable(paths, it) && it.FileItem?
  {
    && |b| >= 8
    && NatAt(b, 0, 4) == it.path && NatAt(b, 4, 4) == it.file
    && |b| - 8 == FileOf(paths, it).size
  }

  /** The code for a block that does not match. */
  function Mismatch(b: seq<byte>): int { if |b| < 8 then EOF_ERROR else BLOCK_ERROR }

  // ---- The plain nested loop -----------------------------------------------------------------------------

  /** Walking the table in one go, taking a block from the list at each file with
      contents. */
  function Nested(env: Env, paths: seq<Path>, items: seq<Item>, blocks: seq<seq<byte>>, log: seq<Event>): (int, seq<Event>)
    requires AllInTable(paths, items)
    decreases |items|
  {
    if items == [] then (if blocks == [] then 0 else BLOCK_ERROR, log)
    else
      var it := items[0];
      if IsData(paths, it) then
        if blocks == [] then (BLOCK_ERROR, log)
        else if !Matches(paths, it, blocks[0]) then (Mismatch(blocks[0]), log)
        else
          var (r, log') := Report(env, paths, it, Some(blocks[0][8..]), log);
          if r != 0 then (r, log') else Nested(env, paths, items[1..], blocks[1..], log')
      else
        var (r, log') := Report(env, paths, it, None, log);
        if r != 0 then (r, log') else Nested(env, paths, items[1..], blocks, log')
  }

  // ---- The suspended walk -----------------------------------------------------------------------------------

  /** Where the walk stands after a call: its code (1 at the end of the table, 0 when
      suspended at items[0]), the log, and what is left. */
  datatype Stand = Stand(code: int, log: seq<Event>, items: seq<Item>)

  function Advance(env: Env, paths: seq<Path>, items: seq<Item>, log: seq<Event>): (s: Stand)
    requires AllInTable(paths, items)
    ensures AllInTable(paths, s.items) && |s.items| <= |items|
    ensures s.code == 0 ==> s.items != [] && IsData(paths, s.items[0])
    decreases |items|
  {
    if items == [] then Stand(1, log, [])
    else if IsData(paths, items[0]) then Stand(0, log, items)
    else
      var (r, log') := Report(env, paths, items[0], None, log);
      if r != 0 then Stand(r, log', items) else Advance(env, paths, items[1..], log')
  }

  lemma AdvanceReports(env: Env, paths: seq<Path>, it: Item, rest: seq<Item>, log: seq<Event>)
    requires InTable(paths, it) && !IsData(paths, it) && AllInTable(paths, rest) && AllInTable(paths, [it] + rest)
    ensures var (r, log') := Report(env, paths, it, None, log);
            Advance(env, paths, [it] + rest, log) ==
            if r != 0 then Stand(r, log', [it] + rest) else Advance(env, paths, rest, log')
  {
    hide Report, IsData;
    assert ([it] + rest)[1..] == rest;
  }

  lemma AdvanceRests(env: Env, paths: seq<Path>, it: Item, rest: seq<Item>, log: seq<Event>)
    requires InTable(paths, it) && IsData(paths, it) && AllInTable(paths, [it] + rest)
    ensures Advance(env, paths, [it] + rest, log) == Stand(0, log, [it] + rest)
  {
    hide Report, IsData;
  }

  /** One DATA block: go on to the next file with contents, match it, deliver it. */
  function Feed(env: Env, paths: seq<Path>, items: seq<Item>, b: seq<byte>, log: seq<Event>): (s: Stand)
    requires AllInTable(paths, items)
    ensures AllInTable(paths, s.items)
  {
    var at := Advance(env, paths, items, log);
    if at.code != 0 then (if at.code > 0 then at.(code := BLOCK_ERROR) else at)
    else if !Matches(paths, at.items[0], b) then at.(code := Mismatch(b))
    else
      var (r, log') := Report(env, paths, at.items[0], Some(b[8..]), at.log);
      Stand(r, log', at.items[1..])
  }

  /** All blocks one by one, then the closing step. */
  function Resumed(env: Env, paths: seq<Path>, items: seq<Item>, blocks: seq<seq<byte>>, log: seq<Event>): (int, seq<Event>)
    requires AllInTable(paths, items)
    decreases |blocks|
  {
    if blocks == [] then
      var s := Advance(env, paths, items, log);
      (if s.code == 0 then BLOCK_ERROR else if s.code == 1 then 0 else s.code, s.log)
    else
      var s := Feed(env, paths, items, blocks[0], log);
      if s.code < 0 then (s.code, s.log) else Resumed(env, paths, s.items, blocks[1..], s.log)
  }

  /** The suspended and resumed walk is the nested loop: same result, same reports,
      whatever the table, the blocks and the answers. */
  lemma {:induction false} ResumedIsNested(env: Env, paths: seq<Path>, items: seq<Item>, blocks: seq<seq<byte>>, log: seq<Event>)
    requires ValidEnv(env) && AllInTable(paths, items)
    ensures Resumed(env, paths, items, blocks, log) == Nested(env, paths, items, blocks, log)
    decreases |items|, |blocks|
  {
    hide ItemOk, EventOf;
    if items == [] {
    } else if IsData(paths, items[0]) {
      if blocks != [] && Matches(paths, items[0], blocks[0]) {
        var (r, log') := Report(env, paths, items[0], Some(blocks[0][8..]), log);
        if r == 0 {
          ResumedIsNested(env, paths, items[1..], blocks[1..], log');
        }
      }
    } else {
      var (r, log') := Report(env, paths, items[0], None, log);
      if r == 0 {
        ResumedIsNested(env, paths, items[1..], blocks, log');
        assert Advance(env, paths, items, log) == Advance(env, paths, items[1..], log');
        ResumedSkips(env, paths, items, items[1..], blocks, log, log');
      }
    }
  }

  lemma ResumedSkips(env: Env, paths: seq<Path>, items: seq<Item>, rest: seq<Item>, blocks: seq<seq<byte>>,
                     log: seq<Event>, log': seq<Event>)
    requires AllInTable(paths, items) && AllInTable(paths, rest)
    requires Advance(env, paths, items, log) == Advance(env, paths, rest, log')
    ensures Resumed(env, paths, items, blocks, log) == Resumed(env, paths, rest, blocks, log')
  {
    hide Matches, Report, Advance;
  }

  // ---- What is accepted ----------------------------------------------------------------------------------------

  /** The contents behind the block header. */
  function Bodies(blocks: seq<seq<byte>>): seq<seq<byte>>
  {
    seq(|blocks|, i requires 0 <= i < |blocks| => if |blocks[i]| >= 8 then blocks[i][8..] else [])
  }

  predicate AllData(paths: seq<Path>, data: seq<Item>)
  {
    forall i :: 0 <= i < |data| ==> InTable(paths, data[i]) && IsData(paths, data[i])
  }

  /** The entries that need a block, in table order. */
  function DataItems(paths: seq<Path>, items: seq<Item>): (r: seq<Item>)
    requires AllInTable(paths, items)
    ensures AllData(paths, r)
  {
    if items == [] then []
    else (if IsData(paths, items[0]) then [items[0]] else []) + DataItems(paths, items[1..])
  }

  /** Contents of the right number and sizes. */
  predicate Fits(paths: seq<Path>, data: seq<Item>, bodies: seq<seq<byte>>)
    requires AllData(paths, data)
  {
    |bodies| == |data| && forall i :: 0 <= i < |data| ==> |bodies[i]| == FileOf(paths, data[i]).size
  }

  /** The blocks the package writer emits for those contents. */
  function Emitted(data: seq<Item>, bodies: seq<seq<byte>>): (r: seq<seq<byte>>)
    requires |data| == |bodies| && forall i :: 0 <= i < |data| ==> data[i].FileItem?
  {
    seq(|data|, i requires 0 <= i < |data| => DataPayload(data[i], bodies[i]))
  }

  /** Every entry once, in table order, files with their contents. */
  function Reports(paths: seq<Path>, items: seq<Item>, bodies: seq<seq<byte>>): seq<Event>
    requires AllInTable(paths, items) && |bodies| == |DataItems(paths, items)|
    decreases |items|
  {
    if items == [] then []
    else if IsData(paths, items[0]) then
      [EventOf(paths, items[0], Some(bodies[0]))] + Reports(paths, items[1..], bodies[1..])
    else [EventOf(paths, items[0], None)] + Reports(paths, items[1..], bodies)
  }

  predicate Small(paths: seq<Path>)
  {
    |paths| < Pow256(4) && forall p :: 0 <= p < |paths| ==> |paths[p].files| < Pow256(4)
  }

  ghost predicate AnswersZero(env: Env) { forall log, e :: env.answer(log, e) == 0 }

  predicate AllOk(paths: seq<Path>, items: seq<Item>)
    requires AllInTable(paths, items)
  {
    forall i :: 0 <= i < |items| ==> ItemOk(paths, items[i])
  }

  /** A block matches an entry exactly when it is the block the writer emits for some
      contents of the entry's size. */
  lemma MatchesIff(paths: seq<Path>, it: Item, b: seq<byte>)
    requires Small(paths) && InTable(paths, it) && it.FileItem?
    ensures Matches(paths, it, b) <==>
            |b| >= 8 && |b[8..]| == FileOf(paths, it).size && b == DataPayload(it, b[8..])
  {
    hide Le, NatAt, FromLe;
    if |b| >= 8 {
      HeaderIff(b, it.path, it.file);
    }
  }

  lemma HeaderIff(b: seq<byte>, p: nat, f: nat)
    requires |b| >= 8 && p < Pow256(4) && f < Pow256(4)
    ensures (NatAt(b, 0, 4) == p && NatAt(b, 4, 4) == f) <==> b == Le(p, 4) + Le(f, 4) + b[8..]
  {
    hide Le, NatAt, FromLe;
    var whole := Le(p, 4) + Le(f, 4) + b[8..];
    WordIff(b, 0, p);
    WordIff(b, 4, f);
    if b[0..4] == Le(p, 4) && b[4..8] == Le(f, 4) {
      assert b == b[0..4] + b[4..8] + b[8..];
    }
    if b == whole {
      assert whole[0..4] == Le(p, 4) && whole[4..8] == Le(f, 4);
    }
  }

  lemma WordIff(b: seq<byte>, o: nat, n: nat)
    requires o + 4 <= |b| && n < Pow256(4)
    ensures NatAt(b, o, 4) == n <==> b[o..o + 4] == Le(n, 4)
  {
    hide Le, NatAt, FromLe;
    NatAtReads(b, o, 4);
    LeRoundTrip(n, 4);
    FromLeRoundTrip(b[o..o + 4]);
  }

  /** The block list is what the writer emits, for contents of the right sizes. */
  predicate IsEmission(paths: seq<Path>, data: seq<Item>, blocks: seq<seq<byte>>)
    requires AllData(paths, data)
  {
    |blocks| == |data| && Fits(paths, data, Bodies(blocks)) && blocks == Emitted(data, Bodies(blocks))
  }

  /** All contents have their digests. */
  predicate AllGenuine(env: Env, paths: seq<Path>, data: seq<Item>, bodies: seq<seq<byte>>)
    requires AllData(paths, data)
  {
    |bodies| == |data| && forall i :: 0 <= i < |data| ==> Genuine(env, paths, data[i], Some(bodies[i]))
  }

  lemma GenuineCons(env: Env, paths: seq<Path>, it: Item, rest: seq<Item>, bodies: seq<seq<byte>>)
    requires AllData(paths, rest) && InTable(paths, it) && IsData(paths, it) && bodies != []
    ensures AllData(paths, [it] + rest)
    ensures AllGenuine(env, paths, [it] + rest, bodies) <==>
            Genuine(env, paths, it, Some(bodies[0])) && AllGenuine(env, paths, rest, bodies[1..])
  {
    hide Genuine, IsData;
    var data := [it] + rest;
    if AllGenuine(env, paths, data, bodies) {
      forall i | 0 <= i < |rest| ensures Genuine(env, paths, rest[i], Some(bodies[1..][i])) {
        assert data[i + 1] == rest[i];
      }
    }
  }

  /** A block too short for its header, in the place of a block for an entry. */
  predicate Short(data: seq<Item>, blocks: seq<seq<byte>>, i: int)
  {
    0 <= i < |data| && i < |blocks| && |blocks[i]| < 8
  }

  /** A block for another entry, or of another size. */
  predicate Misplaced(paths: seq<Path>, data: seq<Item>, blocks: seq<seq<byte>>, i: int)
    requires AllData(paths, data)
  {
    0 <= i < |data| && i < |blocks| && |blocks[i]| >= 8 && !Matches(paths, data[i], blocks[i])
  }

  /** A block for its entry, of another digest. */
  predicate Forged(env: Env, paths: seq<Path>, data: seq<Item>, blocks: seq<seq<byte>>, i: int)
    requires AllData(paths, data)
  {
    0 <= i < |data| && i < |blocks| && Matches(paths, data[i], blocks[i]) && !Genuine(env, paths, data[i], Some(blocks[i][8..]))
  }

  /** What the codes of a failure say. */
  ghost predicate Explains(env: Env, paths: seq<Path>, items: seq<Item>, blocks: seq<seq<byte>>, r: int)
    requires AllInTable(paths, items)
  {
    var data := DataItems(paths, items);
    && (r == SCHEMA_ERROR ==> !AllOk(paths, items))
    && (r == EOF_ERROR ==> exists i :: Short(data, blocks, i))
    && (r == BLOCK_ERROR ==> |blocks| != |data| || exists i :: Misplaced(paths, data, blocks, i))
    && (r == FILE_INTEGRITY ==> exists i :: Forged(env, paths, data, blocks, i))
  }

  lemma {:induction false} NestedCode(env: Env, paths: seq<Path>, items: seq<Item>, blocks: seq<seq<byte>>, log: seq<Event>)
    requires AnswersZero(env) && env.hasFile && AllInTable(paths, items)
    ensures Explains(env, paths, items, blocks, Nested(env, paths, items, blocks, log).0)
    decreases |items|
  {
    hide Matches, EventOf, ItemOk, Genuine, NeedsData, FileOf, AllOk;
    if items != [] {
      OkCons(paths, items);
      var it, rest := items[0], DataItems(paths, items[1..]);
      if !IsData(paths, it) {
        NestedCode(env, paths, items[1..], blocks, log + [EventOf(paths, it, None)]);
        assert DataItems(paths, items) == rest;
        NoContents(env, paths, it);
      } else {
        var data := DataItems(paths, items);
        assert data == [it] + rest;
        if blocks != [] {
          if !Matches(paths, it, blocks[0]) {
            assert Short(data, blocks, 0) || Misplaced(paths, data, blocks, 0);
          } else {
            MatchesLong(paths, it, blocks[0]);
            var body := blocks[0][8..];
            if !Genuine(env, paths, it, Some(body)) {
              assert Forged(env, paths, data, blocks, 0);
            }
            NestedCode(env, paths, items[1..], blocks[1..], log + [EventOf(paths, it, Some(body))]);
            ExplainsTail(env, paths, items, blocks, Nested(env, paths, items[1..], blocks[1..], log + [EventOf(paths, it, Some(body))]).0);
          }
        }
      }
    }
  }

  lemma NoContents(env: Env, paths: seq<Path>, it: Item)
    requires InTable(paths, it)
    ensures Genuine(env, paths, it, None)
  {
  }

  lemma MatchesLong(paths: seq<Path>, it: Item, b: seq<byte>)
    requires InTable(paths, it) && it.FileItem? && Matches(paths, it, b)
    ensures |b| >= 8
  {
  }

  lemma ExplainsTail(env: Env, paths: seq<Path>, items: seq<Item>, blocks: seq<seq<byte>>, r: int)
    requires items != [] && AllInTable(paths, items) && IsData(paths, items[0]) && blocks != []
    requires AllInTable(paths, items[1..]) && Explains(env, paths, items[1..], blocks[1..], r)
    ensures Explains(env, paths, items, blocks, r)
  {
    hide Matches, Genuine, IsData, ItemOk;
    var data, rest := DataItems(paths, items), DataItems(paths, items[1..]);
    assert data == [items[0]] + rest;
    if r == SCHEMA_ERROR {
      OkCons(paths, items);
    }
    if i :| Short(rest, blocks[1..], i) {
      assert Short(data, blocks, i + 1);
    }
    if i :| Misplaced(paths, rest, blocks[1..], i) {
      assert Misplaced(paths, data, blocks, i + 1);
    }
    if i :| Forged(env, paths, rest, blocks[1..], i) {
      assert Forged(env, paths, data, blocks, i + 1);
    }
  }

  /** With a willing caller, the walk succeeds exactly on a well-formed table and the block
      list the writer emits for it: nothing missing, nothing extra, nothing reordered,
      nothing of another size or digest. Every entry is then reported exactly once, in order. */
  lemma {:induction false} NestedExact(env: Env, paths: seq<Path>, items: seq<Item>, blocks: seq<seq<byte>>, log: seq<Event>)
    requires AnswersZero(env) && env.hasFile && Small(paths) && AllInTable(paths, items)
    ensures var data := DataItems(paths, items);
            var (r, log') := Nested(env, paths, items, blocks, log);
            && (r == 0 <==> AllOk(paths, items) && IsEmission(paths, data, blocks) && AllGenuine(env, paths, data, Bodies(blocks)))
            && (r == 0 ==> |blocks| == |data| && log' == log + Reports(paths, items, Bodies(blocks)))
            && (r != 0 ==> r in {BLOCK_ERROR, SCHEMA_ERROR, EOF_ERROR, FILE_INTEGRITY})
    decreases |items|
  {
    hide Matches, EventOf, ItemOk, SchemaOk, DataPayload, IsEmission, NeedsData, FileOf, AllOk, AllGenuine;
    OkCons(paths, items);
    if items == [] {
      NoEmission(env, paths, blocks);
      assert log + [] == log;
    } else {
      var it, rest := items[0], DataItems(paths, items[1..]);
      if !IsData(paths, it) {
        var e := EventOf(paths, it, None);
        NestedExact(env, paths, items[1..], blocks, log + [e]);
        assert DataItems(paths, items) == rest;
        if |blocks| == |rest| {
          LogConcat(log, e, Reports(paths, items[1..], Bodies(blocks)));
        }
      } else {
        assert DataItems(paths, items) == [it] + rest;
        FirstEmission(paths, it, rest, blocks);
        if blocks != [] {
          BodiesTail(blocks);
          GenuineCons(env, paths, it, rest, Bodies(blocks));
        }
        if blocks != [] && Matches(paths, it, blocks[0]) {
          var e := EventOf(paths, it, Some(blocks[0][8..]));
          NestedExact(env, paths, items[1..], blocks[1..], log + [e]);
          if |blocks[1..]| == |rest| {
            LogConcat(log, e, Reports(paths, items[1..], Bodies(blocks[1..])));
          }
        }
      }
    }
  }

  lemma OkCons(paths: seq<Path>, items: seq<Item>)
    requires AllInTable(paths, items)
    ensures AllOk(paths, items) <==> items == [] || (ItemOk(paths, items[0]) && AllOk(paths, items[1..]))
  {
    hide ItemOk, InTable;
    if items != [] && ItemOk(paths, items[0]) && AllOk(paths, items[1..]) {
      forall i | 0 <= i < |items| ensures ItemOk(paths, items[i]) {
        if i > 0 {
          assert items[i] == items[1..][i - 1];
        }
      }
    }
  }

  lemma LogConcat(log: seq<Event>, e: Event, tail: seq<Event>)
    ensures log + [e] + tail == log + ([e] + tail)
  {
  }

  lemma NoEmission(env: Env, paths: seq<Path>, blocks: seq<seq<byte>>)
    ensures IsEmission(paths, [], blocks) <==> blocks == []
    ensures blocks == [] ==> AllGenuine(env, paths, [], Bodies(blocks))
  {
  }

  lemma BodiesTail(blocks: seq<seq<byte>>)
    requires blocks != []
    ensures |Bodies(blocks)| == |blocks| && Bodies(blocks)[1..] == Bodies(blocks[1..])
    ensures |blocks[0]| >= 8 ==> Bodies(blocks)[0] == blocks[0][8..]
  {
  }

  /** An emission starts with a block that matches the first entry and goes on with an
      emission for the others. */
  lemma FirstEmission(paths: seq<Path>, it: Item, rest: seq<Item>, blocks: seq<seq<byte>>)
    requires Small(paths) && AllData(paths, rest) && InTable(paths, it) && IsData(paths, it)
    ensures AllData(paths, [it] + rest)
    ensures IsEmission(paths, [it] + rest, blocks) <==>
            blocks != [] && Matches(paths, it, blocks[0]) && IsEmission(paths, rest, blocks[1..])
    ensures blocks != [] && Matches(paths, it, blocks[0]) ==> |blocks[0]| >= 8
  {
    hide DataPayload, FileOf, Matches;
    var data, bodies := [it] + rest, Bodies(blocks);
    assert data[0] == it && data[1..] == rest;
    if blocks != [] {
      MatchesIff(paths, it, blocks[0]);
      if |blocks| == |data| {
        BodiesTail(blocks);
        FitsCons(paths, it, rest, bodies);
        EmittedCons(it, rest, bodies);
        PayloadBody(it, bodies[0]);
        assert blocks == [blocks[0]] + blocks[1..];
        assert Emitted(data, bodies)[1..] == Emitted(rest, bodies[1..]);
      }
    }
  }

  lemma PayloadBody(it: Item, body: seq<byte>)
    requires it.FileItem?
    ensures |DataPayload(it, body)| == 8 + |body| && DataPayload(it, body)[8..] == body
  {
  }

  lemma EmittedCons(it: Item, rest: seq<Item>, bodies: seq<seq<byte>>)
    requires |bodies| == 1 + |rest| && it.FileItem? && forall i :: 0 <= i < |rest| ==> rest[i].FileItem?
    ensures Emitted([it] + rest, bodies) == [DataPayload(it, bodies[0])] + Emitted(rest, bodies[1..])
  {
    hide DataPayload;
  }

  lemma FitsCons(paths: seq<Path>, it: Item, rest: seq<Item>, bodies: seq<seq<byte>>)
    requires AllData(paths, rest)
    requires InTable(paths, it) && IsData(paths, it) && |bodies| == 1 + |rest|
    ensures AllData(paths, [it] + rest)
    ensures Fits(paths, [it] + rest, bodies) <==>
            |bodies[0]| == FileOf(paths, it).size && Fits(paths, rest, bodies[1..])
  {
    var data := [it] + rest;
    assert data[0] == it && data[1..] == rest;
    if Fits(paths, data, bodies) {
      forall i | 0 <= i < |rest| ensures |bodies[1..][i]| == FileOf(paths, rest[i]).size {
        assert data[i + 1] == rest[i];
      }
    }
  }

  // ---- The emitting loop ------------------------------------------------------------------------------------

  /** Contents of the data entries, read from the files on disk. */
  function Gathered(data: seq<Item>, disk: (nat, nat) -> seq<byte>): (r: seq<seq<byte>>)
    requires forall i :: 0 <= i < |data| ==> data[i].FileItem?
    ensures |r| == |data|
  {
    seq(|data|, i requires 0 <= i < |data| => disk(data[i].path, data[i].file))
  }

  lemma {:induction false} DataItemsConcat(paths: seq<Path>, a: seq<Item>, b: seq<Item>)
    requires AllInTable(paths, a) && AllInTable(paths, b)
    ensures AllInTable(paths, a + b) && DataItems(paths, a + b) == DataItems(paths, a) + DataItems(paths, b)
  {
    hide IsData, InTable;
    if a == [] {
      assert a + b == b;
    } else {
      DataItemsConcat(paths, a[1..], b);
      assert (a + b)[0] == a[0] && (a + b)[1..] == a[1..] + b;
      var x, y := DataItems(paths, a[1..]), DataItems(paths, b);
      assert [a[0]] + (x + y) == ([a[0]] + x) + y && [] + (x + y) == ([] + x) + y;
    }
  }
}
