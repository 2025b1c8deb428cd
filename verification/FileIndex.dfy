/**
 The file ownership index of the installed database: a hash table of file records,
 and the installs, upgrades and removals that hand paths from package to package.
 */
module FileIndex {
  import opened Bytes

  /** Directory name and file name. */
  type FilePath = (seq<byte>, seq<byte>)

  /** A file record: its path never changes; the serial tells records apart. */
  datatype File = File(path: FilePath, serial: nat)

  // ---- The hash table --------------------------------------------------------------------------

  /** Where the first record with the path is in a chain, or its length. */
  function FirstAt(chain: seq<File>, path: FilePath): (i: nat)
    ensures i <= |chain| && (i < |chain| ==> chain[i].path == path)
    ensures forall k :: 0 <= k < i ==> chain[k].path != path
  {
    if chain == [] then 0 else if chain[0].path == path then 0 else 1 + FirstAt(chain[1..], path)
  }

  function SlotOf(hashOf: FilePath -> nat, n: nat, path: FilePath): (b: nat)
    requires 0 < n
    ensures b < n
  {
    hashOf(path) % n
  }

  /** A chain holds exactly the records that hash to its slot, one per path. */
  ghost predicate ChainOk(chain: seq<File>, b: nat, hashOf: FilePath -> nat, n: nat, items: map<FilePath, File>)
    requires 0 < n
  {
    && (forall i :: 0 <= i < |chain| ==> InTable(chain[i], b, hashOf, n, items))
    && (forall i, j :: 0 <= i < j < |chain| ==> chain[i].path != chain[j].path)
    && (forall p :: p in items && SlotOf(hashOf, n, p) == b ==> items[p].path == p && items[p] in chain)
  }

  predicate InTable(f: File, b: nat, hashOf: FilePath -> nat, n: nat, items: map<FilePath, File>)
    requires 0 < n
  {
    SlotOf(hashOf, n, f.path) == b && f.path in items && items[f.path] == f
  }

  lemma ChainInsert(chain: seq<File>, b: nat, hashOf: FilePath -> nat, n: nat, items: map<FilePath, File>, f: File)
    requires 0 < n && ChainOk(chain, b, hashOf, n, items) && f.path !in items
    ensures ChainOk(if SlotOf(hashOf, n, f.path) == b then [f] + chain else chain, b, hashOf, n, items[f.path := f])
  {
    hide SlotOf;
    forall i | 0 <= i < |chain|
      ensures chain[i].path != f.path && InTable(chain[i], b, hashOf, n, items[f.path := f])
    {
      assert InTable(chain[i], b, hashOf, n, items);
    }
  }

  function Without(chain: seq<File>, i: nat): (r: seq<File>)
    requires i < |chain|
    ensures |r| == |chain| - 1
    ensures forall k :: 0 <= k < |r| ==> r[k] == if k < i then chain[k] else chain[k + 1]
  {
    chain[..i] + chain[i + 1..]
  }

  lemma WithoutKeeps(chain: seq<File>, i: nat, k: nat)
    requires i < |chain| && k < |chain| && k != i
    ensures chain[k] in Without(chain, i)
  {
    var rest := Without(chain, i);
    if k < i {
      assert rest[k] == chain[k];
    } else {
      assert rest[k - 1] == chain[k];
    }
  }

  lemma WithoutApart(chain: seq<File>, i: nat)
    requires i < |chain| && forall j, k :: 0 <= j < k < |chain| ==> chain[j].path != chain[k].path
    ensures var rest := Without(chain, i);
            && (forall j, k :: 0 <= j < k < |rest| ==> rest[j].path != rest[k].path)
            && (forall k :: 0 <= k < |rest| ==> rest[k].path != chain[i].path && rest[k] in chain)
  {
  }

  /** The search finds a path exactly when the table has it here. */
  lemma ChainFound(chain: seq<File>, b: nat, hashOf: FilePath -> nat, n: nat, items: map<FilePath, File>, path: FilePath)
    requires 0 < n && ChainOk(chain, b, hashOf, n, items)
    ensures var i := FirstAt(chain, path);
            && (path in items && SlotOf(hashOf, n, path) == b <==> i < |chain|)
            && (i < |chain| ==> items[path] == chain[i])
  {
    hide SlotOf, FirstAt;
    var i := FirstAt(chain, path);
    if i < |chain| {
      assert InTable(chain[i], b, hashOf, n, items);
    }
  }

  /** A chain that does not have the path stays right when the path goes. */
  lemma ChainMiss(chain: seq<File>, b: nat, hashOf: FilePath -> nat, n: nat, items: map<FilePath, File>, path: FilePath)
    requires 0 < n && ChainOk(chain, b, hashOf, n, items) && FirstAt(chain, path) == |chain|
    ensures ChainOk(chain, b, hashOf, n, items - {path})
  {
    hide SlotOf, FirstAt;
    forall i | 0 <= i < |chain|
      ensures InTable(chain[i], b, hashOf, n, items - {path})
    {
      assert InTable(chain[i], b, hashOf, n, items);
    }
  }

  lemma ChainCut(chain: seq<File>, b: nat, hashOf: FilePath -> nat, n: nat, items: map<FilePath, File>, path: FilePath)
    requires 0 < n && ChainOk(chain, b, hashOf, n, items) && FirstAt(chain, path) < |chain|
    ensures ChainOk(Without(chain, FirstAt(chain, path)), b, hashOf, n, items - {path})
  {
    hide SlotOf, FirstAt, Without;
    var i := FirstAt(chain, path);
    var rest := Without(chain, i);
    WithoutApart(chain, i);
    forall k | 0 <= k < |rest|
      ensures InTable(rest[k], b, hashOf, n, items - {path})
    {
      var k' :| 0 <= k' < |chain| && chain[k'] == rest[k];
      assert InTable(chain[k'], b, hashOf, n, items);
    }
    forall p | p in items - {path} && SlotOf(hashOf, n, p) == b
      ensures items[p].path == p && items[p] in rest
    {
      assert items[p].path == p && items[p] in chain;
      var k :| 0 <= k < |chain| && chain[k] == items[p];
      WithoutKeeps(chain, i, k);
    }
  }

  class HashTable {
    const hashOf: FilePath -> nat
    var buckets: seq<seq<File>>
    var numItems: nat
    ghost var items: map<FilePath, File>

    ghost predicate Valid()
      reads this
    {
      && 0 < |buckets| && numItems == |items|
      && forall b :: 0 <= b < |buckets| ==> ChainOk(buckets[b], b, hashOf, |buckets|, items)
    }

    constructor (hashOf: FilePath -> nat, numBuckets: nat)
      requires 0 < numBuckets
      ensures Valid() && items == map[]
    {
      this.hashOf := hashOf;
      buckets := seq(numBuckets, _ => []);
      numItems, items := 0, map[];
    }

    /** The record of a path, exactly when there is one. */
    method Get(path: FilePath) returns (f: Option<File>)
      requires Valid()
      ensures f == if path in items then Some(items[path]) else None
      ensures f.Some? ==> f.value.path == path
    {
      hide SlotOf, FirstAt;
      var b := SlotOf(hashOf, |buckets|, path);
      var chain := buckets[b];
      var i := FirstAt(chain, path);
      ChainFound(chain, b, hashOf, |buckets|, items, path);
      if i < |chain| {
        return Some(chain[i]);
      }
      f := None;
    }

    method Insert(f: File)
      requires Valid() && f.path !in items
      modifies this
      ensures Valid() && items == old(items)[f.path := f] && numItems == old(numItems) + 1
    {
      hide ChainOk, SlotOf;
      var b := SlotOf(hashOf, |buckets|, f.path);
      forall s | 0 <= s < |buckets|
        ensures ChainOk(if s == b then [f] + buckets[s] else buckets[s], s, hashOf, |buckets|, items[f.path := f])
      {
        ChainInsert(buckets[s], s, hashOf, |buckets|, items, f);
      }
      buckets := buckets[b := [f] + buckets[b]];
      numItems := numItems + 1;
      items := items[f.path := f];
      assert items.Keys == old(items).Keys + {f.path};
    }

    /** Takes the record of a path out of the table. */
    method Delete(path: FilePath)
      requires Valid()
      modifies this
      ensures Valid() && items == old(items) - {path}
      ensures numItems == old(numItems) - if path in old(items) then 1 else 0
    {
      hide ChainOk, SlotOf, FirstAt;
      var b := SlotOf(hashOf, |buckets|, path);
      var chain := buckets[b];
      var i := FirstAt(chain, path);
      ChainFound(chain, b, hashOf, |buckets|, items, path);
      ghost var now := if i < |chain| then buckets[b := Without(chain, i)] else buckets;
      forall s | 0 <= s < |buckets|
        ensures ChainOk(now[s], s, hashOf, |buckets|, items - {path})
      {
        ChainFound(buckets[s], s, hashOf, |buckets|, items, path);
        if s == b && i < |chain| {
          ChainCut(chain, b, hashOf, |buckets|, items, path);
        } else {
          ChainMiss(buckets[s], s, hashOf, |buckets|, items, path);
        }
      }
      assert (items - {path}).Keys == items.Keys - {path};
      if i < |chain| {
        buckets := buckets[b := Without(chain, i)];
        numItems := numItems - 1;
      }
      items := items - {path};
    }
  }

  // ---- Packages and their files -------------------------------------------------------------------

  const PRIO_DISK: nat := 0
  const PRIO_MAX: nat := 2

  /** A directory of a package: the layer it lives on, and its file records. */
  datatype Dir = Dir(prio: nat, files: seq<File>)

  datatype Owner = Overlay | Pkg(id: nat)

  predicate At(dirs: seq<Dir>, i: int, j: int) { 0 <= i < |dirs| && 0 <= j < |dirs[i].files| }

  ghost predicate Lists(dirs: seq<Dir>, f: File) { exists i, j :: At(dirs, i, j) && dirs[i].files[j] == f }

  ghost predicate DirsOk(dirs: seq<Dir>)
  {
    && (forall i :: 0 <= i < |dirs| ==> dirs[i].prio < PRIO_MAX)
    && (forall i, j, k, l :: At(dirs, i, j) && At(dirs, k, l) && dirs[i].files[j] == dirs[k].files[l] ==> i == k && j == l)
  }

  predicate Indexed(items: map<FilePath, File>, f: File) { f.path in items && items[f.path] == f }

  /** Every record is listed by its owner and by nobody else. */
  ghost predicate Owned(pkgs: map<nat, seq<Dir>>, overlay: seq<File>, owner: map<File, Owner>)
  {
    && (forall f :: f in overlay ==> f in owner && owner[f] == Overlay)
    && (forall p, f :: p in pkgs && Lists(pkgs[p], f) ==> f in owner && owner[f] == Pkg(p))
    && (forall f :: f in owner ==> if owner[f].Overlay? then f in overlay else owner[f].id in pkgs && Lists(pkgs[owner[f].id], f))
  }

  /** The index holds exactly the records that are listed, not displaced, and not
      waiting. */
  ghost predicate Exact(items: map<FilePath, File>, owner: map<File, Owner>, audited: set<File>, waiting: set<File>)
  {
    && (forall f :: f in owner && f !in audited && f !in waiting ==> Indexed(items, f))
    && (forall p :: p in items ==>
          items[p].path == p && items[p] in owner && items[p] !in audited && items[p] !in waiting)
  }

  lemma ExactDisplace(items: map<FilePath, File>, owner: map<File, Owner>, audited: set<File>, waiting: set<File>, f: File)
    requires Exact(items, owner, audited, waiting) && f in waiting && f in owner && f !in audited
    ensures var audited' := if f.path in items then audited + {items[f.path]} else audited;
            Exact(items[f.path := f], owner, audited', waiting - {f}) && f !in audited'
    ensures f.path in items ==> items[f.path] in owner
  {
    var audited' := if f.path in items then audited + {items[f.path]} else audited;
    var items' := items[f.path := f];
    forall g | g in owner && g !in audited' && g !in waiting - {f}
      ensures Indexed(items', g)
    {
      if g != f {
        assert Indexed(items, g);
      }
    }
  }

  lemma ExactRemove(items: map<FilePath, File>, owner: map<File, Owner>, audited: set<File>, waiting: set<File>, f: File)
    requires Exact(items, owner, audited, waiting) && f in owner && f !in audited && f !in waiting
    ensures Indexed(items, f) && Exact(items - {f.path}, owner, audited, waiting + {f})
  {
    assert Indexed(items, f);
    forall g | g in owner && g !in audited && g !in waiting + {f}
      ensures Indexed(items - {f.path}, g)
    {
      assert Indexed(items, g);
    }
  }

  class FileDb {
    const files: HashTable
    var stats: nat
    var audited: set<File>
    var pkgs: map<nat, seq<Dir>>
    var overlay: seq<File>
    // Serial of the next record.
    var next: nat
    ghost var owner: map<File, Owner>

    /** The invariant, with a set of records that are listed but kept out of the index for
        the moment. */
    ghost predicate Holding(waiting: set<File>)
      reads this, files
    {
      && files.Valid() && stats == |files.items|
      && Owned(pkgs, overlay, owner) && Exact(files.items, owner, audited, waiting)
      && (forall f :: f in owner ==> f.serial < next)
      && (forall f :: f in audited ==> f.serial < next)
      && (forall p :: p in pkgs ==> DirsOk(pkgs[p]))
    }

    /** At rest: each path has at most one record; the index holds exactly the records of
        installed packages and of the overlay that were not displaced; the statistics
        count them. */
    ghost predicate Valid()
      reads this, files
    {
      Holding({})
    }

    /** Who owns which path, and how many directories each package has. */
    ghost function Seen(): View
      requires Valid()
      reads this, files
    {
      View(Owners(files.items, owner), Sizes(pkgs))
    }

    constructor (hashOf: FilePath -> nat, numBuckets: nat)
      requires 0 < numBuckets
      ensures Valid() && fresh(files) && pkgs == map[] && overlay == [] && Seen() == View(map[], map[])
    {
      files := new HashTable(hashOf, numBuckets);
      stats, audited, pkgs, overlay, next, owner := 0, {}, map[], [], 0, map[];
    }

    /** Takes over the path of a waiting record. */
    method MigrateFile(f: File, ghost waiting: set<File>)
      requires Holding(waiting) && f in waiting && f in owner && f !in audited
      modifies this`stats, this`audited, files
      ensures Holding(waiting - {f})
      ensures files.items == old(files.items)[f.path := f]
      ensures audited == if f.path in old(files.items) then old(audited) + {old(files.items)[f.path]} else old(audited)
    {
      hide Owned, Exact, DirsOk;
      ExactDisplace(files.items, owner, audited, waiting, f);
      ghost var was := files.items;
      assert (was - {f.path})[f.path := f] == was[f.path := f];
      assert was[f.path := f].Keys == was.Keys + {f.path};
      var ofile := files.Get(f.path);
      if ofile.Some? {
        audited := audited + {ofile.value};
        files.Delete(f.path);
      } else {
        stats := stats + 1;
      }
      files.Insert(f);
    }

    /** Takes a live record out of the index. */
    method PurgeFile(f: File, ghost waiting: set<File>)
      requires Holding(waiting) && f in owner && f !in audited && f !in waiting
      modifies this`stats, files
      ensures Holding(waiting + {f})
      ensures files.items == old(files.items) - {f.path} && f.path in old(files.items) && old(files.items)[f.path] == f
    {
      hide Owned;
      ExactRemove(files.items, owner, audited, waiting, f);
      assert (files.items - {f.path}).Keys == files.items.Keys - {f.path};
      files.Delete(f.path);
      assert |files.items| == |files.items.Keys|;
      stats := stats - 1;
    }

    /** Forgets a package none of whose records is in the index any more. */
    method RemovePkg(p: nat, ghost waiting: set<File>)
      requires Holding(waiting) && p in pkgs
      requires forall f :: f in waiting ==> f in owner && owner[f] == Pkg(p)
      requires forall f :: Lists(pkgs[p], f) ==> f in audited || f in waiting
      modifies this`pkgs, this`owner
      ensures Valid() && pkgs == old(pkgs) - {p}
      ensures forall f :: f in owner ==> f in old(owner) && owner[f] == old(owner)[f]
      ensures forall f :: f in old(owner) && old(owner)[f] != Pkg(p) ==> f in owner
    {
      hide DirsOk, Owned, Exact, Lists;
      RemoveExact(files.items, pkgs, overlay, owner, audited, waiting, p);
      owner := map f | f in owner && owner[f] != Pkg(p) :: owner[f];
      pkgs := pkgs - {p};
    }

    /** What holds while the records of a package are taken out one by one. */
    ghost predicate Purging(p: nat, gone: set<File>, before: map<FilePath, File>, i: nat, j: nat)
      reads this, files
    {
      && Holding(gone) && p in pkgs
      && (forall f :: f in gone ==> f in owner && owner[f] == Pkg(p))
      && Gone(pkgs[p], gone, audited, i, j) && Reduced(before, files.items, gone)
    }

    method PurgeNext(p: nat, i: nat, j: nat, ghost gone: set<File>, ghost before: map<FilePath, File>)
        returns (ghost gone': set<File>)
      requires Purging(p, gone, before, i, j) && At(pkgs[p], i, j)
      modifies this`stats, files
      ensures Purging(p, gone', before, i, j + 1)
    {
      hide Exact, Owned, Reduced, Gone;
      var f := pkgs[p][i].files[j];
      GoneStep(pkgs[p], gone, audited, i, j);
      gone' := gone;
      if f !in audited {
        ListedOwner(pkgs, overlay, owner, p, i, j);
        ReducedStep(before, files.items, owner, audited, gone, f);
        PurgeFile(f, gone);
        gone' := gone + {f};
      }
    }

    /** Takes the records of an installed package out of the index and forgets it. */
    method PurgePkg(p: nat)
      requires Valid() && p in pkgs
      modifies this`stats, this`pkgs, this`owner, files
      ensures Valid() && pkgs == old(pkgs) - {p}
      ensures Purged(old(files.items), files.items, old(pkgs)[p])
      ensures forall f :: f in owner ==> f in old(owner) && owner[f] == old(owner)[f]
    {
      hide Exact, Owned, Gone, Reduced, DirsOk;
      var dirs := pkgs[p];
      ghost var gone: set<File> := {};
      NoneGone(dirs, audited, files.items);
      var i := 0;
      while i < |dirs|
        invariant 0 <= i <= |dirs| && pkgs == old(pkgs) && owner == old(owner) && Purging(p, gone, old(files.items), i, 0)
      {
        var j := 0;
        while j < |dirs[i].files|
          invariant 0 <= j <= |dirs[i].files| && pkgs == old(pkgs) && owner == old(owner)
          invariant Purging(p, gone, old(files.items), i, j)
        {
          gone := PurgeNext(p, i, j, gone, old(files.items));
          j := j + 1;
        }
        GoneRow(dirs, gone, audited, i);
        i := i + 1;
      }
      assert Purged(old(files.items), files.items, dirs) by {
        PurgedAll(old(files.items), files.items, pkgs, overlay, owner, old(audited), gone, p);
      }
      RowsGone(dirs, gone, audited);
      RemovePkg(p, gone);
    }

    /** A new package gets its records, which are not in the index yet. */
    method Stage(p: nat, spec: seq<DirSpec>) returns (ghost waiting: set<File>)
      requires Valid() && p !in pkgs && SpecOk(spec)
      modifies this`pkgs, this`owner, this`next
      ensures Holding(waiting) && p in pkgs && pkgs == old(pkgs)[p := MakeDirs(spec, old(next))]
      ensures forall f :: f in waiting <==> Lists(pkgs[p], f)
      ensures forall f :: f in waiting ==> f in owner && owner[f] == Pkg(p) && f !in audited
      ensures forall f :: f in old(owner) ==> f in owner && owner[f] == old(owner)[f]
      ensures forall f :: f in owner && f !in waiting ==> f in old(owner)
    {
      hide Exact, Owned, DirsOk, MakeDirs, Lists, FilesOf, Total;
      var dirs := MakeDirs(spec, next);
      MadeDirs(spec, next);
      waiting := FilesOf(dirs);
      StageExact(files.items, pkgs, overlay, owner, audited, next, p, dirs, next + Total(spec));
      owner := owner + map f | f in waiting :: Pkg(p);
      pkgs := pkgs[p := dirs];
      next := next + Total(spec);
    }

    /** What holds while the records of a new package enter the index. */
    ghost predicate Migrating(p: nat, waiting: set<File>, before: map<FilePath, File>, prio: nat, i: nat, j: nat)
      reads this, files
    {
      && Holding(waiting) && p in pkgs
      && (forall f :: f in waiting ==> f in owner && owner[f] == Pkg(p) && f !in audited)
      && Pending(pkgs[p], waiting, prio, i, j)
      && Claimed(pkgs[p], before, files.items, waiting)
    }

    method MigrateNext(p: nat, prio: nat, i: nat, j: nat, ghost waiting: set<File>, ghost before: map<FilePath, File>)
        returns (ghost waiting': set<File>)
      requires Migrating(p, waiting, before, prio, i, j) && At(pkgs[p], i, j) && pkgs[p][i].prio == prio
      modifies this`stats, this`audited, files
      ensures Migrating(p, waiting', before, prio, i, j + 1)
    {
      hide Exact, Owned, Pending, Claimed, DirsOk;
      var f := pkgs[p][i].files[j];
      PendingStep(pkgs[p], waiting, prio, i, j);
      ListedOwner(pkgs, overlay, owner, p, i, j);
      ClaimedStep(pkgs[p], before, files.items, waiting, prio, i, j);
      WaitingApart(files.items, owner, audited, waiting);
      MigrateFile(f, waiting);
      waiting' := waiting - {f};
    }

    /** The directories of one layer; returns the next layer there is. */
    method MigratePriority(p: nat, prio: nat, ghost waiting: set<File>, ghost before: map<FilePath, File>)
        returns (nextPrio: nat, ghost waiting': set<File>)
      requires Migrating(p, waiting, before, prio, 0, 0) && prio < PRIO_MAX
      modifies this`stats, this`audited, files
      ensures prio < nextPrio <= PRIO_MAX
      ensures Migrating(p, waiting', before, nextPrio, 0, 0)
    {
      hide Holding, Pending, Claimed;
      var dirs := pkgs[p];
      nextPrio, waiting' := PRIO_MAX, waiting;
      var i := 0;
      while i < |dirs|
        invariant 0 <= i <= |dirs| && Migrating(p, waiting', before, prio, i, 0)
        invariant prio < nextPrio <= PRIO_MAX
        invariant forall k :: 0 <= k < i && prio < dirs[k].prio < PRIO_MAX ==> nextPrio <= dirs[k].prio
      {
        if dirs[i].prio != prio {
          if dirs[i].prio > prio && dirs[i].prio < nextPrio {
            nextPrio := dirs[i].prio;
          }
          PendingSkip(dirs, waiting', prio, i);
        } else {
          var j := 0;
          while j < |dirs[i].files|
            invariant 0 <= j <= |dirs[i].files| && Migrating(p, waiting', before, prio, i, j)
          {
            waiting' := MigrateNext(p, prio, i, j, waiting', before);
            j := j + 1;
          }
          PendingRow(dirs, waiting', prio, i);
        }
        i := i + 1;
      }
      HoldingDirs(p, waiting');
      PendingPass(dirs, waiting', prio, nextPrio);
    }

    /** All layers, from the disk up. */
    method Migrate(p: nat, ghost waiting: set<File>)
      requires Holding(waiting) && p in pkgs
      requires forall f :: f in waiting <==> Lists(pkgs[p], f)
      requires forall f :: f in waiting ==> f in owner && owner[f] == Pkg(p) && f !in audited
      modifies this`stats, this`audited, files
      ensures Valid() && TakenOver(pkgs[p], old(files.items), files.items)
    {
      hide Holding, Claimed;
      AllPending(pkgs[p], waiting, files.items);
      ghost var left := waiting;
      var prio := PRIO_DISK;
      while prio != PRIO_MAX
        invariant prio <= PRIO_MAX && Migrating(p, left, old(files.items), prio, 0, 0)
        decreases PRIO_MAX - prio
      {
        prio, left := MigratePriority(p, prio, left, old(files.items));
      }
      HoldingDirs(p, left);
      HoldingOwner(left);
      NonePending(pkgs, overlay, owner, left, p);
      ClaimedAll(pkgs[p], old(files.items), files.items);
    }

    lemma IndexOwned()
      requires Valid()
      ensures Owned(pkgs, overlay, owner)
      ensures forall path :: path in files.items ==> files.items[path].path == path && files.items[path] in owner
    {
    }

    lemma HoldingOwner(waiting: set<File>)
      requires Holding(waiting)
      ensures Owned(pkgs, overlay, owner) && forall path :: path in files.items ==> files.items[path].path == path
    {
    }

    ghost predicate Owns(who: Owner, f: File)
      reads this
    {
      f in owner && owner[f] == who
    }

    /** apk_db_install_pkg: a fresh install, an upgrade from another package, or a removal;
        the archive may fail to unpack. */
    method InstallPkg(leaving: Option<nat>, coming: Option<(nat, seq<DirSpec>)>, unpacked: bool) returns (ok: bool)
      requires Valid()
      requires leaving.Some? ==> leaving.value in pkgs
      requires coming.Some? ==> coming.value.0 !in pkgs && SpecOk(coming.value.1)
      modifies this, files
      ensures Valid()
      ensures ok <==> coming.None? || unpacked
      ensures !ok ==> pkgs == old(pkgs) && files.items == old(files.items)
      ensures ok && coming.Some? ==> coming.value.0 in pkgs && pkgs[coming.value.0] == MakeDirs(coming.value.1, old(next))
      ensures ok && coming.Some? ==> Recorded(pkgs[coming.value.0], coming.value.1)
      ensures ok && coming.Some? ==>
                forall path :: path in files.items && Owns(Pkg(coming.value.0), files.items[path]) <==> Has(coming.value.1, path)
      ensures ok ==> HandedOver(old(files.items), files.items, DirsIf(pkgs, coming), DirsOf(old(pkgs), leaving))
      ensures ok ==> pkgs == (if coming.Some? then old(pkgs)[coming.value.0 := MakeDirs(coming.value.1, old(next))] else old(pkgs))
                             - (if leaving.Some? then {leaving.value} else {})
      ensures forall f :: f in owner && f in old(owner) ==> owner[f] == old(owner)[f]
    {
      hide Holding, MakeDirs, Lists, Brings, Recorded, HandedOver, Has, Owned;
      ghost var mid := files.items;
      ghost var newDirs: seq<Dir>, oldDirs := [], DirsOf(pkgs, leaving);
      NothingBrought(mid);
      if coming.Some? {
        var (p, spec) := coming.value;
        ghost var waiting := Stage(p, spec);
        if !unpacked {
          RemovePkg(p, waiting);
          assert pkgs == old(pkgs);
          return false;
        }
        Migrate(p, waiting);
        mid := files.items;
        newDirs := pkgs[p];
        if leaving.Some? {
          HoldingOwner({});
          OwnersApart(pkgs, overlay, owner, p, leaving.value);
        }
      }
      if leaving.Some? {
        PurgePkg(leaving.value);
      } else {
        NothingPurged(mid);
      }
      HandOver(old(files.items), mid, files.items, newDirs, oldDirs);
      if coming.Some? {
        MadeDirs(coming.value.1, old(next));
        IndexOwned();
        OwnsBrought(files.items, old(files.items), oldDirs, pkgs, overlay, owner, coming.value.0, coming.value.1);
      }
      ok := true;
    }

    /** apk_db_file_new: a new record at the end of its owner's list. */
    method FileNew(who: Owner, path: FilePath) returns (f: File)
      requires Valid() && (who.Pkg? ==> who.id in pkgs && pkgs[who.id] != [])
      modifies this`pkgs, this`overlay, this`owner, this`next
      ensures Holding({f}) && f in owner && owner[f] == who && f.path == path && f !in audited
      ensures pkgs.Keys == old(pkgs).Keys && Sizes(pkgs) == Sizes(old(pkgs))
      ensures owner == old(owner)[f := who] && f !in old(owner)
    {
      hide Owned, Exact, DirsOk, Lists;
      f := File(path, next);
      OwnedNew(pkgs, overlay, owner, who, f);
      ExactNew(files.items, owner, audited, who, f);
      match who {
        case Overlay => overlay := overlay + [f];
        case Pkg(p) => pkgs := pkgs[p := Extended(pkgs[p], f)];
      }
      owner := owner[f := who];
      next := next + 1;
    }

    /** apk_db_file_get: the record of a path, made and listed if there is none. */
    method FileGet(who: Owner, path: FilePath) returns (f: File)
      requires Valid() && (who.Pkg? ==> who.id in pkgs && pkgs[who.id] != [])
      modifies this, files
      ensures Valid() && pkgs.Keys == old(pkgs).Keys && audited == old(audited)
      ensures files.items == if path in old(files.items) then old(files.items) else old(files.items)[path := f]
      ensures path in files.items && files.items[path] == f
      ensures path !in old(files.items) ==> f !in old(owner) && owner == old(owner)[f := who]
      ensures path in old(files.items) ==> owner == old(owner)
      ensures Sizes(pkgs) == Sizes(old(pkgs))
    {
      hide Owned, Exact, DirsOk, Sizes;
      var found := files.Get(path);
      if found.Some? {
        return found.value;
      }
      f := FileNew(who, path);
      ExactDisplace(files.items, owner, audited, {f}, f);
      assert {f} - {f} == {};
      assert files.items[path := f].Keys == files.items.Keys + {path};
      files.Insert(f);
      stats := stats + 1;
    }

    method HandleRecord(who: Owner, path: FilePath)
      requires Valid()
      modifies this, files
      ensures Valid() && Seen() == Handled(old(Seen()), Record(who, path))
    {
      hide Holding, Owners, Sizes;
      IndexOwned();
      Passed(files.items, owner, pkgs, Record(who, path));
      if who.Overlay? || (who.id in pkgs && pkgs[who.id] != []) {
        ghost var items, owners := files.items, owner;
        var f := FileGet(who, path);
        IndexOwned();
        OwnersRecorded(items, owners, path, f, who);
      }
    }

    method HandleChange(leaving: Option<nat>, coming: Option<(nat, seq<DirSpec>)>, unpacked: bool)
      requires Valid()
      modifies this, files
      ensures Valid() && Seen() == Handled(old(Seen()), Change(leaving, coming, unpacked))
    {
      hide Holding, Owners, Sizes, SpecOk, Owned, HandedOver, Recorded, Has, Moved;
      IndexOwned();
      Passed(files.items, owner, pkgs, Change(leaving, coming, unpacked));
      if (leaving.None? || leaving.value in pkgs) && (coming.None? || (coming.value.0 !in pkgs && SpecOk(coming.value.1))) {
        ghost var items, owners, had, loose := files.items, owner, pkgs, overlay;
        var ok := InstallPkg(leaving, coming, unpacked);
        IndexOwned();
        if ok {
          OwnersChanged(items, owners, had, loose, files.items, owner, DirsIf(pkgs, coming), leaving, coming);
          SizesChanged(had, pkgs, leaving, coming);
        } else {
          SameOwners(items, owners, owner);
        }
      }
    }

    /** Any run of requests keeps the index exact, and who owns which path is what the requests say,
        one after the other; requests that do not apply are passed over. */
    method Run(requests: seq<Request>)
      requires Valid()
      modifies this, files
      ensures Valid() && Seen() == AllHandled(old(Seen()), requests)
    {
      hide Holding, SpecOk, Owners, Sizes, Handled;
      var i := 0;
      ghost var start := Seen();
      assert requests[..0] == [] && requests[..|requests|] == requests;
      while i < |requests|
        invariant 0 <= i <= |requests| && Valid() && Seen() == AllHandled(start, requests[..i])
      {
        assert requests[..i + 1] == requests[..i] + [requests[i]];
        HandledNext(start, requests[..i], requests[i]);
        match requests[i] {
          case Record(who, path) => HandleRecord(who, path);
          case Change(leaving, coming, unpacked) => HandleChange(leaving, coming, unpacked);
        }
        i := i + 1;
      }
    }

    lemma HoldingDirs(p: nat, waiting: set<File>)
      requires Holding(waiting) && p in pkgs
      ensures DirsOk(pkgs[p])
    {
    }
  }

  /** Exactly the records of the given directories have left the index. */
  ghost predicate Purged(before: map<FilePath, File>, now: map<FilePath, File>, dirs: seq<Dir>)
  {
    && (forall path :: path in now <==> path in before && !Lists(dirs, before[path]))
    && (forall path :: path in now ==> now[path] == before[path])
  }

  ghost predicate Reduced(before: map<FilePath, File>, now: map<FilePath, File>, gone: set<File>)
  {
    && (forall path :: path in now <==> path in before && before[path] !in gone)
    && (forall path :: path in now ==> now[path] == before[path])
  }

  /** Position (k, l) comes before (i, j). */
  predicate Earlier(k: int, l: int, i: int, j: int) { k < i || (k == i && l < j) }

  /** Up to position (i, j), every record has been dealt with; after it, none has. */
  ghost predicate Gone(dirs: seq<Dir>, gone: set<File>, audited: set<File>, i: nat, j: nat)
  {
    forall k, l :: At(dirs, k, l) ==>
      if Earlier(k, l, i, j) then dirs[k].files[l] in audited || dirs[k].files[l] in gone else dirs[k].files[l] !in gone
  }

  lemma NoneGone(dirs: seq<Dir>, audited: set<File>, items: map<FilePath, File>)
    ensures Gone(dirs, {}, audited, 0, 0) && Reduced(items, items, {})
  {
  }

  lemma ReducedStep(before: map<FilePath, File>, now: map<FilePath, File>, owner: map<File, Owner>, audited: set<File>,
                    gone: set<File>, f: File)
    requires Reduced(before, now, gone) && Exact(now, owner, audited, gone) && f in owner && f !in audited && f !in gone
    ensures Reduced(before, now - {f.path}, gone + {f})
  {
    assert Indexed(now, f);
  }

  lemma GoneStep(dirs: seq<Dir>, gone: set<File>, audited: set<File>, i: nat, j: nat)
    requires DirsOk(dirs) && At(dirs, i, j) && Gone(dirs, gone, audited, i, j)
    ensures dirs[i].files[j] !in gone
    ensures Gone(dirs, if dirs[i].files[j] in audited then gone else gone + {dirs[i].files[j]}, audited, i, j + 1)
  {
    assert !Earlier(i, j, i, j);
  }

  lemma GoneRow(dirs: seq<Dir>, gone: set<File>, audited: set<File>, i: nat)
    requires i < |dirs| && Gone(dirs, gone, audited, i, |dirs[i].files|)
    ensures Gone(dirs, gone, audited, i + 1, 0)
  {
    forall k, l | At(dirs, k, l)
      ensures Earlier(k, l, i + 1, 0) == Earlier(k, l, i, |dirs[i].files|)
    {
    }
  }

  lemma RowsGone(dirs: seq<Dir>, gone: set<File>, audited: set<File>)
    requires Gone(dirs, gone, audited, |dirs|, 0)
    ensures forall f :: Lists(dirs, f) ==> f in audited || f in gone
  {
    forall f | Lists(dirs, f)
      ensures f in audited || f in gone
    {
      var k, l :| At(dirs, k, l) && dirs[k].files[l] == f;
      assert Earlier(k, l, |dirs|, 0);
    }
  }

  lemma PurgedAll(before: map<FilePath, File>, now: map<FilePath, File>, pkgs: map<nat, seq<Dir>>, overlay: seq<File>,
                  owner: map<File, Owner>, audited: set<File>, gone: set<File>, p: nat)
    requires Owned(pkgs, overlay, owner) && Exact(before, owner, audited, {}) && p in pkgs
    requires Reduced(before, now, gone) && Gone(pkgs[p], gone, audited, |pkgs[p]|, 0)
    requires forall f :: f in gone ==> f in owner && owner[f] == Pkg(p)
    ensures Purged(before, now, pkgs[p])
  {
    RowsGone(pkgs[p], gone, audited);
    hide Lists;
    forall path | path in before
      ensures before[path] in gone <==> Lists(pkgs[p], before[path])
    {
    }
  }

  lemma ListedOwner(pkgs: map<nat, seq<Dir>>, overlay: seq<File>, owner: map<File, Owner>, p: nat, i: nat, j: nat)
    requires Owned(pkgs, overlay, owner) && p in pkgs && At(pkgs[p], i, j)
    ensures pkgs[p][i].files[j] in owner && owner[pkgs[p][i].files[j]] == Pkg(p)
  {
    assert Lists(pkgs[p], pkgs[p][i].files[j]);
  }

  lemma RemoveExact(items: map<FilePath, File>, pkgs: map<nat, seq<Dir>>, overlay: seq<File>, owner: map<File, Owner>,
                    audited: set<File>, waiting: set<File>, p: nat)
    requires Owned(pkgs, overlay, owner) && Exact(items, owner, audited, waiting) && p in pkgs
    requires forall f :: f in waiting ==> f in owner && owner[f] == Pkg(p)
    requires forall f :: Lists(pkgs[p], f) ==> f in audited || f in waiting
    ensures var owner' := map f | f in owner && owner[f] != Pkg(p) :: owner[f];
            Owned(pkgs - {p}, overlay, owner') && Exact(items, owner', audited, {})
  {
    hide Lists;
    var owner' := map f | f in owner && owner[f] != Pkg(p) :: owner[f];
    forall f | f in owner' && f !in audited
      ensures Indexed(items, f)
    {
      assert f !in waiting;
    }
    forall path | path in items
      ensures items[path] in owner'
    {
      assert !Lists(pkgs[p], items[path]);
    }
  }

  // ---- Records of a new package ------------------------------------------------------------------------

  /** What an archive brings: directories with their layer and file paths. */
  datatype DirSpec = DirSpec(prio: nat, paths: seq<FilePath>)

  /** Recording a file of the overlay or of a package read from disk, or a change of
      packages: removal, fresh install, upgrade, each possibly failing. */
  datatype Request =
    | Record(who: Owner, path: FilePath)
    | Change(leaving: Option<nat>, coming: Option<(nat, seq<DirSpec>)>, unpacked: bool)

  predicate SpecOk(spec: seq<DirSpec>) { forall i :: 0 <= i < |spec| ==> spec[i].prio < PRIO_MAX }

  function Total(spec: seq<DirSpec>): nat { if spec == [] then 0 else |spec[0].paths| + Total(spec[1..]) }

  function MakeFiles(paths: seq<FilePath>, base: nat): (r: seq<File>)
    ensures |r| == |paths|
  {
    seq(|paths|, j requires 0 <= j < |paths| => File(paths[j], base + j))
  }

  function MakeDirs(spec: seq<DirSpec>, base: nat): (r: seq<Dir>)
    ensures |r| == |spec|
  {
    if spec == [] then []
    else [Dir(spec[0].prio, MakeFiles(spec[0].paths, base))] + MakeDirs(spec[1..], base + |spec[0].paths|)
  }

  function FilesOf(dirs: seq<Dir>): set<File> { set d, f | d in dirs && f in d.files :: f }

  lemma FilesListed(dirs: seq<Dir>, f: File)
    ensures f in FilesOf(dirs) <==> Lists(dirs, f)
  {
    if Lists(dirs, f) {
      var i, j :| At(dirs, i, j) && dirs[i].files[j] == f;
      assert dirs[i] in dirs && f in dirs[i].files;
    }
    if f in FilesOf(dirs) {
      var d :| d in dirs && f in d.files;
      var i :| 0 <= i < |dirs| && dirs[i] == d;
      var j :| 0 <= j < |d.files| && d.files[j] == f;
      assert At(dirs, i, j);
    }
  }

  /** The new records have serials of their own. */
  lemma {:induction false} MadeDirs(spec: seq<DirSpec>, base: nat)
    requires SpecOk(spec)
    ensures var dirs := MakeDirs(spec, base);
            && DirsOk(dirs) && Recorded(dirs, spec)
            && (forall i, j :: At(dirs, i, j) ==> base <= dirs[i].files[j].serial < base + Total(spec))
  {
    var dirs := MakeDirs(spec, base);
    if spec != [] {
      var rest, next := MakeDirs(spec[1..], base + |spec[0].paths|), base + |spec[0].paths|;
      MadeDirs(spec[1..], next);
      assert forall i :: 1 <= i < |dirs| ==> dirs[i] == rest[i - 1];
      forall i | 0 <= i < |spec|
        ensures RecordedDir(dirs[i], spec[i])
      {
        if i > 0 {
          assert RecordedDir(rest[i - 1], spec[1..][i - 1]);
        }
      }
      forall i, j | At(dirs, i, j)
        ensures base <= dirs[i].files[j].serial < base + Total(spec)
        ensures i == 0 ==> dirs[i].files[j].serial == base + j && j < |spec[0].paths|
        ensures i > 0 ==> At(rest, i - 1, j) && dirs[i].files[j].serial >= next
      {
        if i > 0 {
          assert At(rest, i - 1, j);
        }
      }
      forall i, j, k, l | At(dirs, i, j) && At(dirs, k, l) && dirs[i].files[j] == dirs[k].files[l]
        ensures i == k && j == l
      {
        if i > 0 && k > 0 {
          assert At(rest, i - 1, j) && At(rest, k - 1, l);
        }
      }
    }
  }

  lemma StageExact(items: map<FilePath, File>, pkgs: map<nat, seq<Dir>>, overlay: seq<File>, owner: map<File, Owner>,
                   audited: set<File>, next: nat, p: nat, dirs: seq<Dir>, next': nat)
    requires Owned(pkgs, overlay, owner) && Exact(items, owner, audited, {}) && p !in pkgs
    requires forall f :: f in owner ==> f.serial < next
    requires forall f :: f in audited ==> f.serial < next
    requires forall i, j :: At(dirs, i, j) ==> next <= dirs[i].files[j].serial < next'
    ensures var waiting := FilesOf(dirs);
            var owner' := owner + map f | f in waiting :: Pkg(p);
            && Owned(pkgs[p := dirs], overlay, owner') && Exact(items, owner', audited, waiting)
            && (forall f :: f in waiting <==> Lists(dirs, f))
            && (forall f :: f in waiting ==> next <= f.serial < next' && f !in audited)
  {
    hide Lists, FilesOf;
    var waiting := FilesOf(dirs);
    forall f
      ensures f in waiting <==> Lists(dirs, f)
      ensures f in waiting ==> next <= f.serial < next'
    {
      FilesListed(dirs, f);
      SerialOf(dirs, f, next, next');
    }
  }

  lemma SerialOf(dirs: seq<Dir>, f: File, lo: nat, hi: nat)
    requires forall i, j :: At(dirs, i, j) ==> lo <= dirs[i].files[j].serial < hi
    ensures Lists(dirs, f) ==> lo <= f.serial < hi
  {
  }

  // ---- What the requests mean ------------------------------------------------------------------------

  /** Who owns which path, and how many directories each package has. */
  datatype View = View(owners: map<FilePath, Owner>, sizes: map<nat, nat>)

  ghost function Owners(items: map<FilePath, File>, owner: map<File, Owner>): map<FilePath, Owner>
    requires forall path :: path in items ==> items[path] in owner
  {
    map path | path in items :: owner[items[path]]
  }

  function Sizes(pkgs: map<nat, seq<Dir>>): map<nat, nat> { map p | p in pkgs :: |pkgs[p]| }

  /** A request can be handled: a record needs an owner with a directory, a change a package to leave
      and a new one to come. */
  predicate Applies(v: View, r: Request)
  {
    match r
    case Record(who, path) => who.Overlay? || (who.id in v.sizes && v.sizes[who.id] > 0)
    case Change(leaving, coming, unpacked) =>
      && (leaving.None? || leaving.value in v.sizes)
      && (coming.None? || (coming.value.0 !in v.sizes && SpecOk(coming.value.1)))
  }

  /** A recorded path is the owner's if nobody has it. After a change the paths of the new package are
      its own, those of the old one are gone, and all others stay; an archive that cannot be unpacked
      changes nothing. */
  ghost function Handled(v: View, r: Request): View
  {
    if !Applies(v, r) then v
    else match r
      case Record(who, path) => if path in v.owners then v else v.(owners := v.owners[path := who])
      case Change(leaving, coming, unpacked) =>
        if coming.Some? && !unpacked then v
        else
          View(Moved(v.owners, leaving, coming),
               v.sizes - (if leaving.Some? then {leaving.value} else {})
                 + if coming.Some? then map[coming.value.0 := |coming.value.1|] else map[])
  }

  ghost function Moved(owners: map<FilePath, Owner>, leaving: Option<nat>, coming: Option<(nat, seq<DirSpec>)>): map<FilePath, Owner>
  {
    map path | path in owners.Keys + Brought(coming) && (path in Brought(coming) || !Left(owners[path], leaving)) ::
      if path in Brought(coming) then Pkg(coming.value.0) else owners[path]
  }

  predicate Left(who: Owner, leaving: Option<nat>) { leaving.Some? && who == Pkg(leaving.value) }

  function Brought(coming: Option<(nat, seq<DirSpec>)>): (r: set<FilePath>)
    ensures r != {} ==> coming.Some?
  {
    if coming.None? then {} else set d, path | d in coming.value.1 && path in d.paths :: path
  }

  ghost function AllHandled(v: View, requests: seq<Request>): View
  {
    if requests == [] then v
    else
      var n := |requests| - 1;
      Handled(AllHandled(v, requests[..n]), requests[n])
  }

  lemma HandledNext(v: View, front: seq<Request>, r: Request)
    ensures AllHandled(v, front + [r]) == Handled(AllHandled(v, front), r)
  {
    assert (front + [r])[..|front|] == front;
  }

  lemma Passed(items: map<FilePath, File>, owner: map<File, Owner>, pkgs: map<nat, seq<Dir>>, r: Request)
    requires forall path :: path in items ==> items[path] in owner
    ensures var v := View(Owners(items, owner), Sizes(pkgs));
            && (Applies(v, r) <==>
                  match r
                  case Record(who, path) => who.Overlay? || (who.id in pkgs && pkgs[who.id] != [])
                  case Change(leaving, coming, unpacked) =>
                    (leaving.None? || leaving.value in pkgs) && (coming.None? || (coming.value.0 !in pkgs && SpecOk(coming.value.1))))
            && (!Applies(v, r) ==> Handled(v, r) == v)
  {
    hide SpecOk, Owners;
  }

  lemma SameOwners(items: map<FilePath, File>, owner: map<File, Owner>, owner': map<File, Owner>)
    requires forall path :: path in items ==> items[path] in owner && items[path] in owner'
    requires forall f :: f in owner' && f in owner ==> owner'[f] == owner[f]
    ensures Owners(items, owner') == Owners(items, owner)
  {
  }

  lemma OwnersRecorded(items: map<FilePath, File>, owner: map<File, Owner>, path: FilePath, f: File, who: Owner)
    requires (forall p :: p in items ==> items[p] in owner) && (path !in items ==> f !in owner)
    ensures path !in items ==> Owners(items[path := f], owner[f := who]) == Owners(items, owner)[path := who]
    ensures path in Owners(items, owner) <==> path in items
  {
  }

  lemma BroughtHas(coming: Option<(nat, seq<DirSpec>)>, path: FilePath)
    ensures path in Brought(coming) <==> coming.Some? && Has(coming.value.1, path)
  {
    if coming.Some? {
      var spec := coming.value.1;
      if path in Brought(coming) {
        var d :| d in spec && path in d.paths;
        var i :| 0 <= i < |spec| && spec[i] == d;
      }
      if Has(spec, path) {
        var i :| 0 <= i < |spec| && path in spec[i].paths;
        assert spec[i] in spec;
      }
    }
  }

  lemma OwnerChanged(items: map<FilePath, File>, owner: map<File, Owner>, pkgs: map<nat, seq<Dir>>, overlay: seq<File>,
                     items': map<FilePath, File>, owner': map<File, Owner>, newDirs: seq<Dir>,
                     leaving: Option<nat>, coming: Option<(nat, seq<DirSpec>)>, path: FilePath)
    requires Owned(pkgs, overlay, owner) && (leaving.Some? ==> leaving.value in pkgs)
    requires forall p :: p in items ==> items[p] in owner
    requires forall p :: p in items' ==> items'[p] in owner'
    requires forall f :: f in owner' && f in owner ==> owner'[f] == owner[f]
    requires HandedOver(items, items', newDirs, DirsOf(pkgs, leaving))
    requires if coming.Some? then Recorded(newDirs, coming.value.1) else newDirs == []
    requires coming.Some? ==>
               forall p :: p in items' && owner'[items'[p]] == Pkg(coming.value.0) <==> Has(coming.value.1, p)
    ensures path in Owners(items', owner') <==> path in Moved(Owners(items, owner), leaving, coming)
    ensures path in Owners(items', owner') ==> Owners(items', owner')[path] == Moved(Owners(items, owner), leaving, coming)[path]
  {
    hide Recorded, Has, Brought, Brings, Lists, Lasts;
    BroughtHas(coming, path);
    if coming.Some? {
      RecordedBrings(newDirs, coming.value.1, path);
    } else {
      NoneBrought(path);
    }
    if path in items {
      ListedLeft(pkgs, overlay, owner, leaving, items[path]);
    }
  }

  lemma NoneBrought(path: FilePath)
    ensures !Brings([], path)
  {
  }

  lemma ListedLeft(pkgs: map<nat, seq<Dir>>, overlay: seq<File>, owner: map<File, Owner>, leaving: Option<nat>, f: File)
    requires Owned(pkgs, overlay, owner) && f in owner && (leaving.Some? ==> leaving.value in pkgs)
    ensures Lists(DirsOf(pkgs, leaving), f) <==> Left(owner[f], leaving)
  {
  }

  lemma OwnersChanged(items: map<FilePath, File>, owner: map<File, Owner>, pkgs: map<nat, seq<Dir>>, overlay: seq<File>,
                      items': map<FilePath, File>, owner': map<File, Owner>, newDirs: seq<Dir>,
                      leaving: Option<nat>, coming: Option<(nat, seq<DirSpec>)>)
    requires Owned(pkgs, overlay, owner) && (leaving.Some? ==> leaving.value in pkgs)
    requires forall path :: path in items ==> items[path] in owner
    requires forall path :: path in items' ==> items'[path] in owner'
    requires forall f :: f in owner' && f in owner ==> owner'[f] == owner[f]
    requires HandedOver(items, items', newDirs, DirsOf(pkgs, leaving))
    requires if coming.Some? then Recorded(newDirs, coming.value.1) else newDirs == []
    requires coming.Some? ==>
               forall path :: path in items' && owner'[items'[path]] == Pkg(coming.value.0) <==> Has(coming.value.1, path)
    ensures Owners(items', owner') == Moved(Owners(items, owner), leaving, coming)
  {
    hide Recorded, Has, Owned, HandedOver, Owners, Moved;
    forall path
      ensures path in Owners(items', owner') <==> path in Moved(Owners(items, owner), leaving, coming)
      ensures path in Owners(items', owner') ==> Owners(items', owner')[path] == Moved(Owners(items, owner), leaving, coming)[path]
    {
      OwnerChanged(items, owner, pkgs, overlay, items', owner', newDirs, leaving, coming, path);
    }
  }

  lemma SizesChanged(pkgs: map<nat, seq<Dir>>, pkgs': map<nat, seq<Dir>>, leaving: Option<nat>, coming: Option<(nat, seq<DirSpec>)>)
    requires coming.Some? ==> coming.value.0 !in pkgs && coming.value.0 in pkgs' && |pkgs'[coming.value.0]| == |coming.value.1|
    requires leaving.Some? ==> leaving.value in pkgs
    requires pkgs' == (if coming.Some? then pkgs[coming.value.0 := pkgs'[coming.value.0]] else pkgs)
                      - (if leaving.Some? then {leaving.value} else {})
    ensures Sizes(pkgs') == Sizes(pkgs) - (if leaving.Some? then {leaving.value} else {})
              + if coming.Some? then map[coming.value.0 := |coming.value.1|] else map[]
    ensures leaving.Some? ==> leaving.value in Sizes(pkgs)
    ensures coming.Some? ==> coming.value.0 !in Sizes(pkgs)
  {
  }

  // ---- Entering the index ---------------------------------------------------------------------------------

  /** Still waiting: later layers, and this layer from position (i, j) on. */
  predicate Waits(dirs: seq<Dir>, prio: nat, i: nat, j: nat, k: nat, l: nat)
    requires k < |dirs|
  {
    dirs[k].prio > prio || (dirs[k].prio == prio && !Earlier(k, l, i, j))
  }

  ghost predicate Pending(dirs: seq<Dir>, waiting: set<File>, prio: nat, i: nat, j: nat)
  {
    forall k, l :: At(dirs, k, l) ==> (dirs[k].files[l] in waiting <==> Waits(dirs, prio, i, j, k, l))
  }

  lemma PendingStep(dirs: seq<Dir>, waiting: set<File>, prio: nat, i: nat, j: nat)
    requires Pending(dirs, waiting, prio, i, j) && At(dirs, i, j) && dirs[i].prio == prio && DirsOk(dirs)
    ensures dirs[i].files[j] in waiting && Pending(dirs, waiting - {dirs[i].files[j]}, prio, i, j + 1)
  {
    assert Waits(dirs, prio, i, j, i, j);
  }

  lemma PendingSkip(dirs: seq<Dir>, waiting: set<File>, prio: nat, i: nat)
    requires i < |dirs| && Pending(dirs, waiting, prio, i, 0) && dirs[i].prio != prio
    ensures Pending(dirs, waiting, prio, i + 1, 0)
  {
  }

  lemma PendingRow(dirs: seq<Dir>, waiting: set<File>, prio: nat, i: nat)
    requires i < |dirs| && Pending(dirs, waiting, prio, i, |dirs[i].files|)
    ensures Pending(dirs, waiting, prio, i + 1, 0)
  {
    forall k, l | At(dirs, k, l)
      ensures Earlier(k, l, i + 1, 0) == Earlier(k, l, i, |dirs[i].files|)
    {
    }
  }

  lemma PendingPass(dirs: seq<Dir>, waiting: set<File>, prio: nat, nextPrio: nat)
    requires DirsOk(dirs) && Pending(dirs, waiting, prio, |dirs|, 0) && prio < nextPrio <= PRIO_MAX
    requires forall k :: 0 <= k < |dirs| && prio < dirs[k].prio < PRIO_MAX ==> nextPrio <= dirs[k].prio
    ensures Pending(dirs, waiting, nextPrio, 0, 0)
  {
    forall k, l | At(dirs, k, l)
      ensures dirs[k].files[l] in waiting <==> Waits(dirs, nextPrio, 0, 0, k, l)
    {
      assert Earlier(k, l, |dirs|, 0) && !Earlier(k, l, 0, 0);
      assert dirs[k].files[l] in waiting <==> Waits(dirs, prio, |dirs|, 0, k, l);
    }
  }

  /** The paths of the records that have entered belong to the package now; all others are
      as before. */
  ghost predicate Claimed(dirs: seq<Dir>, before: map<FilePath, File>, now: map<FilePath, File>, waiting: set<File>)
  {
    && (forall path :: path in now ==> Lists(dirs, now[path]) || (path in before && before[path] == now[path]))
    && (forall path :: path in before ==> path in now)
    && (forall k, l :: At(dirs, k, l) && dirs[k].files[l] !in waiting ==>
          dirs[k].files[l].path in now && Beaten(dirs, k, l, now[dirs[k].files[l].path]))
  }

  /** Record (k, l) enters the index before (i, j): it is of a lower layer, or of the same one and
      before it in the list. */
  predicate Sooner(dirs: seq<Dir>, k: int, l: int, i: int, j: int)
    requires 0 <= k < |dirs| && 0 <= i < |dirs|
  {
    dirs[k].prio < dirs[i].prio || (dirs[k].prio == dirs[i].prio && Earlier(k, l, i, j))
  }

  /** The record is (k, l) or one that enters later. */
  ghost predicate Beaten(dirs: seq<Dir>, k: int, l: int, f: File)
    requires 0 <= k < |dirs|
  {
    exists i, j :: At(dirs, i, j) && dirs[i].files[j] == f && ((i, j) == (k, l) || Sooner(dirs, k, l, i, j))
  }

  lemma BeatenListed(dirs: seq<Dir>, k: int, l: int, f: File)
    requires 0 <= k < |dirs| && Beaten(dirs, k, l, f)
    ensures Lists(dirs, f)
  {
  }

  lemma ClaimedStep(dirs: seq<Dir>, before: map<FilePath, File>, now: map<FilePath, File>, waiting: set<File>, prio: nat, i: nat, j: nat)
    requires Claimed(dirs, before, now, waiting) && At(dirs, i, j) && Pending(dirs, waiting, prio, i, j) && dirs[i].prio == prio
    requires DirsOk(dirs)
    ensures var f := dirs[i].files[j];
            Claimed(dirs, before, now[f.path := f], waiting - {f})
  {
    var f := dirs[i].files[j];
    assert Lists(dirs, f);
    forall k, l | At(dirs, k, l) && dirs[k].files[l] !in waiting - {f} && dirs[k].files[l].path == f.path
      ensures Beaten(dirs, k, l, f)
    {
      if (k, l) != (i, j) {
        assert dirs[k].files[l] !in waiting;
        assert !Waits(dirs, prio, i, j, k, l);
        assert Sooner(dirs, k, l, i, j);
      }
    }
    hide Lists, Beaten, Pending;
  }

  lemma AllPending(dirs: seq<Dir>, waiting: set<File>, items: map<FilePath, File>)
    requires forall f :: f in waiting <==> Lists(dirs, f)
    ensures Pending(dirs, waiting, PRIO_DISK, 0, 0) && Claimed(dirs, items, items, waiting)
  {
    forall k, l | At(dirs, k, l)
      ensures dirs[k].files[l] in waiting && Waits(dirs, PRIO_DISK, 0, 0, k, l)
    {
      assert Lists(dirs, dirs[k].files[l]);
    }
  }

  lemma NonePending(pkgs: map<nat, seq<Dir>>, overlay: seq<File>, owner: map<File, Owner>, waiting: set<File>, p: nat)
    requires Owned(pkgs, overlay, owner) && p in pkgs && DirsOk(pkgs[p])
    requires Pending(pkgs[p], waiting, PRIO_MAX, 0, 0)
    requires forall f :: f in waiting ==> f in owner && owner[f] == Pkg(p)
    ensures waiting == {}
  {
    forall f | f in owner && owner[f] == Pkg(p)
      ensures f !in waiting
    {
      var i, j :| At(pkgs[p], i, j) && pkgs[p][i].files[j] == f;
      assert !Waits(pkgs[p], PRIO_MAX, 0, 0, i, j);
    }
  }

  /** Every path the package brings belongs to it now; every other path is as before. */
  ghost predicate TakenOver(dirs: seq<Dir>, before: map<FilePath, File>, now: map<FilePath, File>)
  {
    && (forall path :: path in now <==> path in before || Brings(dirs, path))
    && (forall path :: path in now ==>
          if Brings(dirs, path) then Lasts(dirs, now[path]) else path in before && now[path] == before[path])
  }

  /** Of the records of the directories with its path, the one that enters last. */
  ghost predicate Lasts(dirs: seq<Dir>, f: File)
  {
    Lists(dirs, f) && forall k, l :: At(dirs, k, l) && dirs[k].files[l].path == f.path ==> Beaten(dirs, k, l, f)
  }

  ghost predicate Brings(dirs: seq<Dir>, path: FilePath)
  {
    exists i, j :: At(dirs, i, j) && dirs[i].files[j].path == path
  }

  lemma ClaimedAll(dirs: seq<Dir>, before: map<FilePath, File>, now: map<FilePath, File>)
    requires Claimed(dirs, before, now, {}) && forall path :: path in now ==> now[path].path == path
    ensures TakenOver(dirs, before, now)
  {
    forall path | path in now && Lists(dirs, now[path])
      ensures Brings(dirs, path)
    {
      var i, j :| At(dirs, i, j) && dirs[i].files[j] == now[path];
    }
    forall path | Brings(dirs, path)
      ensures path in now && Lasts(dirs, now[path])
    {
      var i, j :| At(dirs, i, j) && dirs[i].files[j].path == path;
      BeatenListed(dirs, i, j, now[path]);
      forall k, l | At(dirs, k, l) && dirs[k].files[l].path == path
        ensures Beaten(dirs, k, l, now[path])
      {
        assert dirs[k].files[l] !in {};
      }
    }
  }

  function DirsOf(pkgs: map<nat, seq<Dir>>, p: Option<nat>): seq<Dir>
  {
    if p.Some? && p.value in pkgs then pkgs[p.value] else []
  }

  function DirsIf(pkgs: map<nat, seq<Dir>>, p: Option<(nat, seq<DirSpec>)>): seq<Dir>
  {
    DirsOf(pkgs, if p.Some? then Some(p.value.0) else None)
  }

  /** Paths the new package brings are its own; of the others, those of the old package are
      gone and the rest is untouched. */
  ghost predicate HandedOver(before: map<FilePath, File>, now: map<FilePath, File>, newDirs: seq<Dir>, oldDirs: seq<Dir>)
  {
    && (forall path :: path in now <==> Brings(newDirs, path) || (path in before && !Lists(oldDirs, before[path])))
    && (forall path :: path in now ==>
          if Brings(newDirs, path) then Lasts(newDirs, now[path]) else path in before && now[path] == before[path])
  }

  lemma HandOver(before: map<FilePath, File>, mid: map<FilePath, File>, now: map<FilePath, File>,
                 newDirs: seq<Dir>, oldDirs: seq<Dir>)
    requires TakenOver(newDirs, before, mid) && Purged(mid, now, oldDirs)
    requires forall f :: Lists(newDirs, f) ==> !Lists(oldDirs, f)
    ensures HandedOver(before, now, newDirs, oldDirs)
  {
    forall path | path in mid && Brings(newDirs, path)
      ensures Lists(newDirs, mid[path])
    {
    }
    hide Lists, Brings, Lasts;
  }

  /** The directories have the layers and paths of the archive, in order. */
  predicate Recorded(dirs: seq<Dir>, spec: seq<DirSpec>)
  {
    |dirs| == |spec| && forall i :: 0 <= i < |spec| ==> RecordedDir(dirs[i], spec[i])
  }

  predicate RecordedDir(dir: Dir, spec: DirSpec)
  {
    && dir.prio == spec.prio && |dir.files| == |spec.paths|
    && forall j :: 0 <= j < |spec.paths| ==> dir.files[j].path == spec.paths[j]
  }

  /** The archive has a file of this path. */
  ghost predicate Has(spec: seq<DirSpec>, path: FilePath) { exists i :: 0 <= i < |spec| && path in spec[i].paths }

  lemma RecordedBrings(dirs: seq<Dir>, spec: seq<DirSpec>, path: FilePath)
    requires Recorded(dirs, spec)
    ensures Brings(dirs, path) <==> Has(spec, path)
  {
    if Brings(dirs, path) {
      var i, j :| At(dirs, i, j) && dirs[i].files[j].path == path;
      assert RecordedDir(dirs[i], spec[i]);
      assert spec[i].paths[j] == path;
    }
    if Has(spec, path) {
      var i :| 0 <= i < |spec| && path in spec[i].paths;
      var j :| 0 <= j < |spec[i].paths| && spec[i].paths[j] == path;
      assert RecordedDir(dirs[i], spec[i]);
      assert At(dirs, i, j);
    }
  }

  /** In the index a new package owns exactly the paths of its archive. */
  lemma OwnsBrought(items: map<FilePath, File>, before: map<FilePath, File>, oldDirs: seq<Dir>, pkgs: map<nat, seq<Dir>>,
                    overlay: seq<File>, owner: map<File, Owner>, p: nat, spec: seq<DirSpec>)
    requires p in pkgs && Recorded(pkgs[p], spec) && HandedOver(before, items, pkgs[p], oldDirs)
    requires Owned(pkgs, overlay, owner) && forall path :: path in items ==> items[path].path == path && items[path] in owner
    ensures forall path :: path in items && owner[items[path]] == Pkg(p) <==> Has(spec, path)
  {
    forall path
      ensures path in items && owner[items[path]] == Pkg(p) <==> Has(spec, path)
    {
      RecordedBrings(pkgs[p], spec, path);
      if path in items && owner[items[path]] == Pkg(p) {
        var i, j :| At(pkgs[p], i, j) && pkgs[p][i].files[j] == items[path];
        assert Brings(pkgs[p], path);
      }
      if Brings(pkgs[p], path) {
        assert Lasts(pkgs[p], items[path]);
      }
    }
  }

  lemma NothingBrought(items: map<FilePath, File>)
    ensures TakenOver([], items, items) && forall f :: !Lists([], f)
  {
  }

  lemma NothingPurged(items: map<FilePath, File>)
    ensures Purged(items, items, []) && forall f :: !Lists([], f)
  {
  }

  lemma OwnersApart(pkgs: map<nat, seq<Dir>>, overlay: seq<File>, owner: map<File, Owner>, p: nat, q: nat)
    requires Owned(pkgs, overlay, owner) && p in pkgs && q in pkgs && p != q
    ensures forall f :: Lists(pkgs[p], f) ==> !Lists(pkgs[q], f)
  {
    hide Lists;
    forall f | Lists(pkgs[p], f)
      ensures !Lists(pkgs[q], f)
    {
      assert owner[f] == Pkg(p);
    }
  }

  /** A directory list with one more record at its end. */
  function Extended(dirs: seq<Dir>, f: File): seq<Dir>
    requires dirs != []
  {
    var n := |dirs| - 1;
    dirs[n := dirs[n].(files := dirs[n].files + [f])]
  }

  lemma ExtendedLists(dirs: seq<Dir>, f: File)
    requires dirs != [] && DirsOk(dirs) && !Lists(dirs, f)
    ensures DirsOk(Extended(dirs, f)) && forall g :: Lists(Extended(dirs, f), g) <==> g == f || Lists(dirs, g)
  {
    var n, m := |dirs| - 1, |dirs[|dirs| - 1].files|;
    var more := Extended(dirs, f);
    forall i, j | At(more, i, j)
      ensures (i == n && j == m && more[i].files[j] == f) || (At(dirs, i, j) && more[i].files[j] == dirs[i].files[j])
    {
    }
    forall i, j | At(dirs, i, j)
      ensures At(more, i, j) && more[i].files[j] == dirs[i].files[j] && dirs[i].files[j] != f
    {
    }
    assert At(more, n, m) && more[n].files[m] == f;
  }

  lemma OwnedNew(pkgs: map<nat, seq<Dir>>, overlay: seq<File>, owner: map<File, Owner>, who: Owner, f: File)
    requires Owned(pkgs, overlay, owner) && f !in owner
    requires forall p :: p in pkgs ==> DirsOk(pkgs[p])
    requires who.Pkg? ==> who.id in pkgs && pkgs[who.id] != []
    ensures who.Overlay? ==> Owned(pkgs, overlay + [f], owner[f := who])
    ensures who.Pkg? ==>
              var pkgs' := pkgs[who.id := Extended(pkgs[who.id], f)];
              Owned(pkgs', overlay, owner[f := who]) && DirsOk(pkgs'[who.id])
  {
    if who.Pkg? {
      ExtendedLists(pkgs[who.id], f);
    }
    hide Lists, DirsOk, Extended;
  }

  lemma ExactNew(items: map<FilePath, File>, owner: map<File, Owner>, audited: set<File>, who: Owner, f: File)
    requires Exact(items, owner, audited, {}) && f !in owner && f !in audited
    ensures Exact(items, owner[f := who], audited, {f})
  {
  }

  lemma WaitingApart(items: map<FilePath, File>, owner: map<File, Owner>, audited: set<File>, waiting: set<File>)
    requires Exact(items, owner, audited, waiting)
    ensures forall path :: path in items ==> items[path] !in waiting
  {
  }
}
