/**
 The scratch area in which one package's directories and files are collected: a
 directory list with a sorted front and an unsorted tail, and the files of the
 current directory, sorted only when somebody looks for one.
 */
module IpkgCreator {
  import opened Bytes
  import opened Orders
  import opened AdbCompare
  import opened DirRefs

  const UNSORTED_MAX: nat := 32

  /** A file record: its name in the directory, and a number that tells records apart. */
  datatype Rec = Rec(name: Name, id: nat)

  function FileCmp(a: Rec, b: Rec): int { BlobSort(a.name, b.name) }

  lemma NamesOrdered()
    ensures TotalPreorder(BlobSort) && TotalPreorder(FileCmp)
  {
    forall a: Name, b: Name ensures BlobSort(a, b) < 0 <==> BlobSort(b, a) > 0 {
      BlobSortFlip(a, b);
    }
    forall a: Name, b: Name, c: Name ensures BlobSort(a, b) <= 0 && BlobSort(b, c) <= 0 ==> BlobSort(a, c) <= 0 {
      BlobSortTrans(a, b, c);
    }
  }

  predicate Distinct(names: seq<Name>) { forall i, j :: 0 <= i < j < |names| ==> names[i] != names[j] }

  function NamesOf(files: seq<Rec>): (r: seq<Name>)
    ensures |r| == |files|
  {
    seq(|files|, i requires 0 <= i < |files| => files[i].name)
  }

  /** qsort: some sorted permutation. */
  method SortNames(names: seq<Name>) returns (r: seq<Name>)
    ensures IsSortOf(BlobSort, names, r)
  {
    hide TotalPreorder, BlobSort;
    NamesOrdered();
    r := SortOf(BlobSort, names);
    SortOfSorted(BlobSort, names);
  }

  method SortFiles(files: seq<Rec>) returns (r: seq<Rec>)
    ensures IsSortOf(FileCmp, files, r)
  {
    hide TotalPreorder, FileCmp;
    NamesOrdered();
    r := SortOf(FileCmp, files);
    SortOfSorted(FileCmp, files);
  }

  /** Where bsearch finds the key between two places, or -1. */
  function Found(names: seq<Name>, key: Name, lo: nat, hi: nat): (k: int)
    requires hi <= |names|
    ensures k == -1 || (lo <= k < hi && BlobSort(key, names[k]) == 0)
    decreases hi - lo
  {
    if lo >= hi then -1
    else
      var mid := (lo + hi) / 2;
      var c := BlobSort(key, names[mid]);
      if c == 0 then mid else if c < 0 then Found(names, key, lo, mid) else Found(names, key, mid + 1, hi)
  }

  method BSearch(names: seq<Name>, key: Name) returns (k: int)
    ensures k == Found(names, key, 0, |names|)
    ensures k != -1 ==> 0 <= k < |names| && names[k] == key
    ensures k == -1 && Sorted(BlobSort, names) ==> key !in names
  {
    hide BlobSort, Sorted;
    ghost var goal := Found(names, key, 0, |names|);
    if Sorted(BlobSort, names) && goal == -1 {
      FoundSorted(names, key, 0, |names|);
    }
    var lo: nat, hi: nat := 0, |names|;
    while lo < hi
      invariant hi <= |names| && Found(names, key, lo, hi) == goal
      decreases hi - lo
    {
      var mid := (lo + hi) / 2;
      var c := BlobSort(key, names[mid]);
      if c == 0 {
        BlobSortTies(key, names[mid]);
        return mid;
      } else if c < 0 {
        hi := mid;
      } else {
        lo := mid + 1;
      }
    }
    k := -1;
  }

  /** In a sorted list a key that is not found is not there. */
  lemma {:induction false} FoundSorted(names: seq<Name>, key: Name, lo: nat, hi: nat)
    requires Sorted(BlobSort, names) && hi <= |names| && Found(names, key, lo, hi) == -1
    ensures forall i :: lo <= i < hi ==> names[i] != key
    decreases hi - lo
  {
    hide BlobSort, TotalPreorder, Sorted;
    if lo < hi {
      NamesOrdered();
      var mid := (lo + hi) / 2;
      BlobSortTies(key, names[mid]);
      forall i | lo <= i < hi ensures names[i] != key {
        Apart(key, names, mid, i);
        if BlobSort(key, names[mid]) < 0 {
          FoundSorted(names, key, lo, mid);
        } else {
          FoundSorted(names, key, mid + 1, hi);
        }
      }
    }
  }

  lemma Apart(key: Name, names: seq<Name>, mid: nat, i: nat)
    requires Sorted(BlobSort, names) && TotalPreorder(BlobSort) && mid < |names| && i < |names|
    ensures BlobSort(key, names[mid]) < 0 && mid <= i ==> names[i] != key
    ensures BlobSort(key, names[mid]) > 0 && i <= mid ==> names[i] != key
  {
    hide BlobSort, TotalPreorder;
    Flip(BlobSort, key, names[mid]);
    Reflexive(BlobSort, key);
    if names[i] == key {
      Flip(BlobSort, names[i], names[mid]);
    }
  }

  ghost predicate Ascending(names: seq<Name>, lo: nat, hi: nat)
    requires hi <= |names|
  {
    forall i, j :: lo <= i < j < hi ==> BlobSort(names[i], names[j]) <= 0
  }

  /** A stretch around a middle that is above everything on one side and below everything on
      the other. */
  lemma AroundMiddle(names: seq<Name>, lo: nat, mid: nat, hi: nat)
    requires lo <= mid < hi <= |names| && Ascending(names, lo, mid) && Ascending(names, mid + 1, hi)
    requires forall i :: lo <= i < mid ==> BlobSort(names[i], names[mid]) < 0
    requires forall i :: mid < i < hi ==> BlobSort(names[i], names[mid]) > 0
    ensures Ascending(names, lo, hi)
  {
    hide BlobSort, TotalPreorder;
    NamesOrdered();
    forall i, j | lo <= i < j < hi
      ensures BlobSort(names[i], names[j]) <= 0
    {
      Flip(BlobSort, names[j], names[mid]);
      Trans(BlobSort, names[i], names[mid], names[j]);
    }
  }

  /** If every name is found, the list is sorted: two names part at a place between them. */
  lemma {:induction false} FoundAscending(names: seq<Name>, lo: nat, hi: nat)
    requires Distinct(names) && hi <= |names| && forall i :: lo <= i < hi ==> Found(names, names[i], lo, hi) == i
    ensures Ascending(names, lo, hi)
    decreases hi - lo
  {
    hide BlobSort, Ascending;
    if lo < hi {
      var mid := (lo + hi) / 2;
      forall i | lo <= i < hi && i != mid
        ensures i < mid ==> BlobSort(names[i], names[mid]) < 0 && Found(names, names[i], lo, mid) == i
        ensures i > mid ==> BlobSort(names[i], names[mid]) > 0 && Found(names, names[i], mid + 1, hi) == i
      {
        assert names[i] != names[mid];
        BlobSortTies(names[i], names[mid]);
      }
      FoundAscending(names, lo, mid);
      FoundAscending(names, mid + 1, hi);
      AroundMiddle(names, lo, mid, hi);
    } else {
      NothingAscends(names, lo, hi);
    }
  }

  lemma NothingAscends(names: seq<Name>, lo: nat, hi: nat)
    requires hi <= lo && hi <= |names|
    ensures Ascending(names, lo, hi)
  {
  }

  /** Binary search finds every name of a list without repeats exactly when the list is sorted:
      the condition that the list of an installed package has to meet. */
  lemma SearchIffSorted(names: seq<Name>)
    requires Distinct(names)
    ensures (forall i :: 0 <= i < |names| ==> Found(names, names[i], 0, |names|) == i) <==> Sorted(BlobSort, names)
  {
    hide BlobSort, Found;
    if Sorted(BlobSort, names) {
      forall i | 0 <= i < |names|
        ensures Found(names, names[i], 0, |names|) == i
      {
        var k := Found(names, names[i], 0, |names|);
        if k == -1 {
          FoundSorted(names, names[i], 0, |names|);
        } else {
          BlobSortTies(names[i], names[k]);
        }
      }
    }
    if forall i :: 0 <= i < |names| ==> Found(names, names[i], 0, |names|) == i {
      FoundAscending(names, 0, |names|);
    }
  }

  /** The stored files are sorted and are what was recorded, except for one directory. */
  ghost predicate Kept(stored: map<Name, seq<Rec>>, recorded: map<Name, multiset<Rec>>, except: Option<Name>)
  {
    && (forall d :: d in stored <==> d in recorded)
    && (forall d :: d in stored ==> Sorted(FileCmp, stored[d]))
    && (forall d :: d in stored && except != Some(d) ==> recorded[d] == multiset(stored[d]))
  }

  lemma KeptStore(stored: map<Name, seq<Rec>>, recorded: map<Name, multiset<Rec>>, cur: Name, files: seq<Rec>)
    requires Kept(stored, recorded, Some(cur)) && cur in stored && recorded[cur] == multiset(files) && Sorted(FileCmp, files)
    ensures Kept(stored[cur := files], recorded, None)
  {
    hide Sorted;
  }

  lemma KeptTake(stored: map<Name, seq<Rec>>, recorded: map<Name, multiset<Rec>>, name: Name)
    requires Kept(stored, recorded, None) && name in stored
    ensures Kept(stored, recorded, Some(name)) && name in recorded
    ensures recorded[name] == multiset(stored[name]) && Sorted(FileCmp, stored[name])
  {
    hide Sorted;
  }

  lemma KeptNew(stored: map<Name, seq<Rec>>, recorded: map<Name, multiset<Rec>>, cur: Option<Name>, name: Name)
    requires Kept(stored, recorded, cur) && name !in stored
    ensures Kept(stored[name := []], recorded[name := multiset{}], cur) && name !in recorded
  {
  }

  lemma KeptRecord(stored: map<Name, seq<Rec>>, recorded: map<Name, multiset<Rec>>, cur: Name, more: multiset<Rec>)
    requires Kept(stored, recorded, Some(cur)) && cur in recorded
    ensures Kept(stored, recorded[cur := more], Some(cur))
  {
    hide Sorted;
  }

  lemma KeptAt(stored: map<Name, seq<Rec>>, recorded: map<Name, multiset<Rec>>, cur: Option<Name>, name: Name)
    requires Kept(stored, recorded, cur)
    ensures name in stored <==> name in recorded
    ensures name in stored && cur != Some(name) ==> recorded[name] == multiset(stored[name])
    ensures name in stored ==> Sorted(FileCmp, stored[name])
  {
    hide Sorted;
  }

  /** The front of the directory list is sorted, and no name is there twice. If there is a tail, its
      first name belongs in front of the last one of the front. */
  ghost predicate DirsOk(dirs: seq<Name>, numUnsorted: nat)
  {
    && numUnsorted <= |dirs| && Distinct(dirs) && Sorted(BlobSort, dirs[..|dirs| - numUnsorted])
    && (numUnsorted > 0 ==> var last := |dirs| - numUnsorted; last > 0 && BlobSort(dirs[last], dirs[last - 1]) < 0)
  }

  /** So the whole list is sorted exactly when it has no tail. */
  lemma SortedIffNoTail(dirs: seq<Name>, numUnsorted: nat)
    requires DirsOk(dirs, numUnsorted)
    ensures Sorted(BlobSort, dirs) <==> numUnsorted == 0
  {
    hide BlobSort, TotalPreorder;
    if numUnsorted == 0 {
      assert dirs[..|dirs|] == dirs;
    } else {
      NamesOrdered();
      var last := |dirs| - numUnsorted;
      Flip(BlobSort, dirs[last], dirs[last - 1]);
    }
  }

  lemma DirsAppend(dirs: seq<Name>, numUnsorted: nat, name: Name, res: int)
    requires DirsOk(dirs, numUnsorted) && name !in dirs
    requires if numUnsorted > 0 then res < 0 else if dirs == [] then res >= 0 else BlobSort(name, dirs[|dirs| - 1]) == res
    ensures DirsOk(dirs + [name], if res < 0 then numUnsorted + 1 else numUnsorted)
  {
    hide BlobSort, Sorted;
    var more := dirs + [name];
    if res < 0 {
      assert more[..|more| - (numUnsorted + 1)] == dirs[..|dirs| - numUnsorted];
    } else {
      assert dirs[..|dirs|] == dirs && more[..|more|] == more;
      SortedSnoc(dirs, name);
    }
  }

  class Creator {
    var dirs: seq<Name>
    var numUnsorted: nat
    // Files of the directories that are not current.
    var stored: map<Name, seq<Rec>>
    var cur: Option<Name>
    var files: seq<Rec>
    var filesUnsorted: bool
    var nextId: nat
    // Everything recorded so far, by directory.
    ghost var recorded: map<Name, multiset<Rec>>

    ghost predicate FilesOk()
      reads this
    {
      && (forall d :: d in stored <==> d in dirs) && Kept(stored, recorded, cur)
      && (cur.Some? ==> cur.value in stored && cur.value in recorded && recorded[cur.value] == multiset(files))
      && (cur.None? ==> files == [])
      && (!filesUnsorted ==> Sorted(FileCmp, files))
    }

    ghost predicate Valid()
      reads this
    {
      DirsOk(dirs, numUnsorted) && FilesOk()
    }

    constructor ()
      ensures Valid() && dirs == [] && numUnsorted == 0 && recorded == map[]
    {
      dirs, numUnsorted, stored, cur, files, filesUnsorted, nextId := [], 0, map[], None, [], false, 0;
      recorded := map[];
    }

    /** Starts over from what an installed package has, provided it was left sorted. */
    constructor Resume(dirs: seq<Name>, stored: map<Name, seq<Rec>>)
      requires Distinct(dirs) && Sorted(BlobSort, dirs) && (forall d :: d in stored <==> d in dirs)
      requires forall d :: d in stored ==> Sorted(FileCmp, stored[d])
      ensures Valid() && this.dirs == dirs && cur == None
      ensures recorded == map d | d in stored :: multiset(stored[d])
    {
      this.dirs, numUnsorted, this.stored := dirs, 0, stored;
      cur, files, filesUnsorted, nextId := None, [], false, 0;
      recorded := map d | d in stored :: multiset(stored[d]);
      new;
      assert dirs[..|dirs|] == dirs;
    }

    /** Sorts a long tail in. */
    method SortTail()
      requires DirsOk(dirs, numUnsorted)
      modifies this`dirs, this`numUnsorted
      ensures DirsOk(dirs, numUnsorted) && multiset(dirs) == multiset(old(dirs)) && (forall d :: d in dirs <==> d in old(dirs))
      ensures if old(numUnsorted) > UNSORTED_MAX then numUnsorted == 0 else dirs == old(dirs) && numUnsorted == old(numUnsorted)
    {
      hide BlobSort, Sorted;
      if numUnsorted > UNSORTED_MAX {
        var sorted := SortNames(dirs);
        SameMembers(dirs, sorted);
        StillDistinct(dirs, sorted);
        dirs, numUnsorted := sorted, 0;
        assert dirs[..|dirs|] == dirs;
      }
    }

    /** Looks a directory up in the sorted front, then in the tail; a long tail is sorted
        in first. Agrees with a search through the whole list. */
    method Lookup(name: Name) returns (found: bool)
      requires DirsOk(dirs, numUnsorted)
      modifies this`dirs, this`numUnsorted
      ensures DirsOk(dirs, numUnsorted) && multiset(dirs) == multiset(old(dirs)) && (forall d :: d in dirs <==> d in old(dirs))
      ensures if old(numUnsorted) > UNSORTED_MAX then numUnsorted == 0 else dirs == old(dirs) && numUnsorted == old(numUnsorted)
      ensures found <==> name in old(dirs)
    {
      hide BlobSort, Sorted;
      SortTail();
      var last := |dirs| - numUnsorted;
      var k := BSearch(dirs[..last], name);
      if k >= 0 {
        assert dirs[k] == name;
        return true;
      }
      assert forall j :: 0 <= j < last ==> dirs[..last][j] == dirs[j];
      found := InTail(name, last);
    }

    method InTail(name: Name, last: nat) returns (found: bool)
      requires last <= |dirs| && forall j :: 0 <= j < last ==> dirs[j] != name
      ensures found <==> name in dirs
    {
      hide BlobSort;
      var i := last;
      while i < |dirs|
        invariant last <= i <= |dirs| && forall j :: 0 <= j < i ==> dirs[j] != name
      {
        BlobSortTies(name, dirs[i]);
        if BlobSort(name, dirs[i]) == 0 {
          return true;
        }
        i := i + 1;
      }
      found := false;
    }

    /** Puts the files of the current directory away, in order. */
    method CommitFiles()
      requires Valid()
      modifies this`stored, this`cur, this`files, this`filesUnsorted
      ensures DirsOk(dirs, numUnsorted) && cur == None && files == [] && !filesUnsorted
      ensures FilesOk()
    {
      hide FileCmp, Sorted, Kept, DirsOk;
      if cur.Some? {
        if filesUnsorted {
          files := SortFiles(files);
        }
        KeptStore(stored, recorded, cur.value, files);
        stored := stored[cur.value := files];
      }
      cur, files, filesUnsorted := None, [], false;
      assert Sorted(FileCmp, files) by { NoFiles(); }
    }

    /** Makes a known directory the current one. */
    method Select(name: Name)
      requires Valid() && name in dirs
      modifies this`stored, this`cur, this`files, this`filesUnsorted
      ensures Valid() && cur == Some(name)
    {
      hide FileCmp, Sorted, Kept, DirsOk;
      if cur == Some(name) {
        return;
      }
      CommitFiles();
      KeptTake(stored, recorded, name);
      cur, files := Some(name), stored[name];
    }

    /** Whether the directory has been seen. */
    method Query(name: Name) returns (found: bool)
      requires Valid()
      modifies this`dirs, this`numUnsorted
      ensures Valid() && (forall d :: d in dirs <==> d in old(dirs))
      ensures found <==> name in old(dirs)
    {
      hide FileCmp, BlobSort, Kept, Sorted, DirsOk;
      if cur.Some? {
        BlobSortTies(name, cur.value);
        if BlobSort(name, cur.value) == 0 {
          return true;
        }
      }
      found := Lookup(name);
    }

    /** The directory, entered at the end of the list if it is new, becomes the current one. */
    method Get(name: Name)
      requires Valid()
      modifies this`dirs, this`numUnsorted, this`stored, this`cur, this`files, this`filesUnsorted, this`recorded
      ensures Valid() && cur == Some(name)
      ensures forall d :: d in dirs <==> d in old(dirs) || d == name
      ensures old(numUnsorted) <= UNSORTED_MAX ==> dirs == if name in old(dirs) then old(dirs) else old(dirs) + [name]
      ensures numUnsorted <= old(numUnsorted) + 1
      ensures recorded == if name in old(recorded) then old(recorded) else old(recorded)[name := multiset{}]
    {
      hide FileCmp, BlobSort, Kept, Sorted, DirsOk;
      var res := 1;
      KeptAt(stored, recorded, cur, name);
      if cur.Some? {
        res := BlobSort(name, cur.value);
        BlobSortTies(name, cur.value);
        if res == 0 {
          return;
        }
      }
      var found := Lookup(name);
      if !found {
        Enter(name, res);
      }
      Select(name);
    }

    /** Enters a new directory at the end of the list, given how it compares with the current one. */
    method Enter(name: Name, compared: int)
      requires Valid() && name !in dirs && compared == if cur.Some? then BlobSort(name, cur.value) else 1
      modifies this`dirs, this`numUnsorted, this`stored, this`recorded
      ensures Valid() && dirs == old(dirs) + [name] && recorded == old(recorded)[name := multiset{}]
      ensures numUnsorted <= old(numUnsorted) + 1
    {
      hide FileCmp, BlobSort, Kept, Sorted, DirsOk;
      var res := compared;
      if numUnsorted != 0 {
        res := -1;
      } else if dirs != [] && cur != Some(dirs[|dirs| - 1]) {
        res := BlobSort(name, dirs[|dirs| - 1]);
      }
      Append(name, res);
    }

    /** Takes up a new directory, in order or not. */
    method Append(name: Name, res: int)
      requires Valid() && name !in dirs
      requires if numUnsorted > 0 then res < 0 else if dirs == [] then res >= 0 else BlobSort(name, dirs[|dirs| - 1]) == res
      modifies this`dirs, this`numUnsorted, this`stored, this`recorded
      ensures Valid() && dirs == old(dirs) + [name] && recorded == old(recorded)[name := multiset{}]
      ensures numUnsorted == if res < 0 then old(numUnsorted) + 1 else old(numUnsorted)
    {
      hide FileCmp, BlobSort, Kept, Sorted, DirsOk;
      KeptNew(stored, recorded, cur, name);
      DirsAppend(dirs, numUnsorted, name, res);
      if res < 0 {
        numUnsorted := numUnsorted + 1;
      }
      dirs := dirs + [name];
      stored := stored[name := []];
      recorded := recorded[name := multiset{}];
    }

    /** apk_db_ipkg_commit: the directories as a package keeps them, in the order of the list, with
        their files; the creator is empty again. That order is sorted exactly when the list has no
        unsorted tail, and then, and only then, binary search finds every directory in it. */
    method Commit() returns (list: seq<Name>, kept: map<Name, seq<Rec>>)
      requires Valid()
      modifies this
      ensures Valid() && dirs == [] && recorded == map[] && cur == None
      ensures list == old(dirs) && Distinct(list)
      ensures Kept(kept, old(recorded), None) && forall d :: d in kept <==> d in list
      ensures Sorted(BlobSort, list) <==> old(numUnsorted) == 0
      ensures (forall i :: 0 <= i < |list| ==> Found(list, list[i], 0, |list|) == i) <==> old(numUnsorted) == 0
    {
      hide FileCmp, BlobSort, Kept, Sorted, Found;
      SortedIffNoTail(dirs, numUnsorted);
      SearchIffSorted(dirs);
      CommitFiles();
      list, kept := dirs, stored;
      dirs, numUnsorted, stored, recorded := [], 0, map[], map[];
      NoDirs();
    }

    /** Records a file in the current directory. */
    method FileNew(name: Name) returns (f: Rec)
      requires Valid() && cur.Some?
      modifies this`files, this`filesUnsorted, this`nextId, this`recorded
      ensures Valid() && f.name == name
      ensures recorded == old(recorded)[cur.value := old(recorded)[cur.value] + multiset{f}]
    {
      hide FileCmp, BlobSort, Kept, Sorted, DirsOk;
      f := Rec(name, nextId);
      KeptRecord(stored, recorded, cur.value, recorded[cur.value] + multiset{f});
      nextId := nextId + 1;
      if !filesUnsorted && files != [] {
        filesUnsorted := FileCmp(f, files[|files| - 1]) < 0;
      }
      if !filesUnsorted {
        FilesSnoc(files, f);
      }
      assert multiset(files + [f]) == multiset(files) + multiset{f};
      files := files + [f];
      recorded := recorded[cur.value := recorded[cur.value] + multiset{f}];
    }

    /** Finds a file exactly when it has been recorded, whichever directory is current and
        whatever has been sorted so far. */
    method FindFile(path: Name) returns (f: Option<Rec>)
      requires Valid()
      modifies this`dirs, this`numUnsorted, this`files, this`filesUnsorted
      ensures Valid() && forall d :: d in dirs <==> d in old(dirs)
      ensures var (dir, name) := SplitPath(path);
              match f
              case Some(rec) => dir in recorded && rec in recorded[dir] && rec.name == name
              case None => dir in recorded ==> forall rec :: rec in recorded[dir] ==> rec.name != name
    {
      hide FileCmp, BlobSort, SplitPath, Kept, Sorted, DirsOk;
      var (dir, name) := SplitPath(path);
      var found := Query(dir);
      KeptAt(stored, recorded, cur, dir);
      if !found {
        return None;
      }
      var list := ListOf(dir);
      f := SearchFiles(list, name);
    }

    /** The records of a directory in order; the current ones are sorted if need be. */
    method ListOf(dir: Name) returns (list: seq<Rec>)
      requires Valid() && dir in stored
      modifies this`files, this`filesUnsorted
      ensures Valid() && Sorted(FileCmp, list) && dir in recorded && recorded[dir] == multiset(list)
    {
      hide FileCmp, BlobSort, Kept, Sorted, DirsOk;
      KeptAt(stored, recorded, cur, dir);
      if cur != Some(dir) {
        return stored[dir];
      }
      if filesUnsorted {
        files := SortFiles(files);
        filesUnsorted := false;
      }
      list := files;
    }
  }

  lemma NoDirs()
    ensures DirsOk([], 0) && Kept(map[], map[], None) && Sorted(FileCmp, [])
  {
  }

  /** Such a list: two directories taken up in reverse order. The first one is not found in the list
      that the package keeps. */
  method UnsortedMiss() returns (list: seq<Name>)
    ensures list == [[0x62], [0x61]] && !Sorted(BlobSort, list) && Found(list, [0x62], 0, 2) == -1
  {
    hide BlobSort, Sorted, Found, Kept;
    var c := new Creator();
    c.Get([0x62]);
    c.Get([0x61]);
    ghost var kept;
    list, kept := c.Commit();
    BackwardsMiss();
  }

  lemma BackwardsMiss()
    ensures !Sorted(BlobSort, [[0x62], [0x61]]) && Found([[0x62], [0x61]], [0x62], 0, 2) == -1
  {
    var names: seq<Name> := [[0x62], [0x61]];
    assert BlobSort(names[0], names[1]) == 1;
    assert Found(names, [0x62], 0, 2) == Found(names, [0x62], 2, 2);
  }

  /** Binary search for a file name in a sorted list of records. */
  method SearchFiles(list: seq<Rec>, name: Name) returns (f: Option<Rec>)
    requires Sorted(FileCmp, list)
    ensures f.Some? ==> f.value in multiset(list) && f.value.name == name
    ensures f.None? ==> forall rec :: rec in multiset(list) ==> rec.name != name
  {
    hide FileCmp, BlobSort, Sorted;
    NamesSorted(list);
    var k := BSearch(NamesOf(list), name);
    if k >= 0 {
      assert list[k] in multiset(list);
      return Some(list[k]);
    }
    NotNamed(list, name);
    f := None;
  }

  lemma NoFiles()
    ensures Sorted(FileCmp, [])
  {
  }

  /** Directory and file name of a path: split at the last slash. */
  function SplitPath(path: Name): (Name, Name)
  {
    var i := LastSlash(path);
    if i < 0 then ([], path) else (path[..i], path[i + 1..])
  }

  /** Split and joined again, a path is itself. */
  lemma SplitPathJoins(path: Name)
    ensures var (dir, name) := SplitPath(path);
            path == if LastSlash(path) < 0 then name else dir + [SLASH] + name
    ensures SLASH !in SplitPath(path).1
  {
  }

  lemma SortedSnoc(names: seq<Name>, x: Name)
    requires Sorted(BlobSort, names) && (names != [] ==> BlobSort(x, names[|names| - 1]) >= 0)
    ensures Sorted(BlobSort, names + [x])
  {
    hide BlobSort, TotalPreorder;
    NamesOrdered();
    var more := names + [x];
    forall i | 0 <= i < |names|
      ensures BlobSort(names[i], x) <= 0
    {
      Flip(BlobSort, x, names[|names| - 1]);
      if i < |names| - 1 {
        Trans(BlobSort, names[i], names[|names| - 1], x);
      }
    }
  }

  lemma FilesSnoc(files: seq<Rec>, f: Rec)
    requires Sorted(FileCmp, files) && (files != [] ==> FileCmp(f, files[|files| - 1]) >= 0)
    ensures Sorted(FileCmp, files + [f])
  {
    hide FileCmp, TotalPreorder;
    NamesOrdered();
    forall i | 0 <= i < |files|
      ensures FileCmp(files[i], f) <= 0
    {
      Flip(FileCmp, f, files[|files| - 1]);
      if i < |files| - 1 {
        Trans(FileCmp, files[i], files[|files| - 1], f);
      }
    }
  }

  lemma NamesSorted(files: seq<Rec>)
    requires Sorted(FileCmp, files)
    ensures Sorted(BlobSort, NamesOf(files))
  {
    hide BlobSort;
    forall i, j | 0 <= i < j < |files|
      ensures BlobSort(NamesOf(files)[i], NamesOf(files)[j]) <= 0
    {
      assert FileCmp(files[i], files[j]) <= 0;
    }
  }

  lemma NotNamed(files: seq<Rec>, name: Name)
    requires name !in NamesOf(files)
    ensures forall rec :: rec in multiset(files) ==> rec.name != name
  {
    forall rec | rec in multiset(files)
      ensures rec.name != name
    {
      var i :| 0 <= i < |files| && files[i] == rec;
      assert NamesOf(files)[i] in NamesOf(files);
    }
  }

  lemma StillDistinct(a: seq<Name>, b: seq<Name>)
    requires multiset(a) == multiset(b) && Distinct(a)
    ensures Distinct(b)
  {
    forall i, j | 0 <= i < j < |b|
      ensures b[i] != b[j]
    {
      if b[i] == b[j] {
        TwiceIn(b, i, j);
        OnceIn(a, b[i]);
      }
    }
  }

  lemma TwiceIn(s: seq<Name>, i: nat, j: nat)
    requires i < j < |s| && s[i] == s[j]
    ensures multiset(s)[s[i]] >= 2
  {
    assert s == s[..i] + [s[i]] + s[i + 1..j] + [s[j]] + s[j + 1..];
  }

  lemma OnceIn(s: seq<Name>, x: Name)
    requires Distinct(s)
    ensures multiset(s)[x] <= 1
  {
    if s != [] {
      var front := s[..|s| - 1];
      assert s == front + [s[|s| - 1]];
      OnceIn(front, x);
      if s[|s| - 1] == x {
        assert x !in front;
        assert x !in multiset(front);
      }
    }
  }
}
