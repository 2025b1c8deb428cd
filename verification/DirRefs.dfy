/**
 The reference-counted directory tree of the installed database: a directory is
 live while somebody holds it or has a live directory below it.
 */
module DirRefs {
  import opened Bytes

  const SLASH: byte := 0x2f
  const REFS_MAX: nat := 0xffff

  type Name = seq<byte>

  /** Length of what is before the last slash, or -1. */
  function LastSlash(name: Name): (r: int)
    ensures -1 <= r < |name|
    ensures r >= 0 ==> name[r] == SLASH
    ensures forall i :: r < i < |name| ==> name[i] != SLASH
  {
    if name == [] then -1
    else if name[|name| - 1] == SLASH then |name| - 1
    else LastSlash(name[..|name| - 1])
  }

  /** The directory above; the root is above everything without a slash. */
  function Parent(name: Name): (r: Name)
    requires name != []
    ensures |r| < |name|
  {
    var i := LastSlash(name);
    if i < 0 then [] else name[..i]
  }

  /** What is above a name: the root, if it has no slash, else what is before its last slash. */
  lemma ParentIs(dir: Name, n: Name)
    requires n != [] && SLASH !in n
    ensures Parent(n) == [] && Parent(dir + [0x2f] + n) == dir
  {
    var name := dir + [0x2f] + n;
    var i := LastSlash(name);
    assert name[|dir|] == SLASH;
    assert forall k :: |dir| < k < |name| ==> name[k] == n[k - |dir| - 1];
    assert i == |dir|;
  }

  /** No slash at the end, nor at the end of any directory above. */
  predicate Canonical(name: Name)
    decreases |name|
  {
    name == [] || (name[|name| - 1] != SLASH && Canonical(Parent(name)))
  }

  /** Such names have no slash at the end, and no two in a row. */
  lemma {:induction false} CanonicalIff(name: Name)
    ensures Canonical(name) <==> forall i :: 0 <= i < |name| && name[i] == 0x2f ==> i + 1 < |name| && name[i + 1] != 0x2f
    decreases |name|
  {
    if name != [] {
      var up, k := Parent(name), LastSlash(name);
      CanonicalIff(up);
      if name[|name| - 1] != SLASH && k >= 0 {
        forall i | 0 <= i < |name| && name[i] == SLASH
          ensures i == k || (i < k && up[i] == SLASH)
        {
        }
        if forall i :: 0 <= i < |name| && name[i] == 0x2f ==> i + 1 < |name| && name[i + 1] != 0x2f {
          forall i | 0 <= i < |up| && up[i] == 0x2f
            ensures i + 1 < |up| && up[i + 1] != 0x2f
          {
            assert name[i] == 0x2f;
          }
        }
        if forall i :: 0 <= i < |up| && up[i] == 0x2f ==> i + 1 < |up| && up[i + 1] != 0x2f {
          forall i | 0 <= i < |name| && name[i] == 0x2f
            ensures i + 1 < |name| && name[i + 1] != 0x2f
          {
            if i < k {
              assert up[i] == 0x2f;
            }
          }
        }
      }
    }
  }

  /** Live directories right below a directory. */
  function Kids(live: set<Name>, n: Name): set<Name> { set c | c in live && c != [] && Parent(c) == n }

  function Count(m: map<Name, nat>, n: Name): nat { if n in m then m[n] else 0 }

  function Live(refs: map<Name, nat>): set<Name> { set n | n in refs && refs[n] > 0 }

  /** Every count is the handles plus the live directories below, not counting directories
      that are still being linked in; and live directories are below live directories. */
  ghost predicate Counted(refs: map<Name, nat>, handles: multiset<Name>, unlinked: set<Name>)
  {
    && Tallied(refs, handles, Live(refs) - unlinked)
    && Rooted(Live(refs) - unlinked, Live(refs))
    && (forall n :: n in refs ==> Canonical(n))
  }

  ghost predicate Tallied(refs: map<Name, nat>, handles: multiset<Name>, linked: set<Name>)
  {
    forall n :: Count(refs, n) == handles[n] + |Kids(linked, n)|
  }

  ghost predicate Rooted(linked: set<Name>, live: set<Name>)
  {
    forall n :: n in linked && n != [] ==> Parent(n) in live
  }

  lemma KidsMore(live: set<Name>, c: Name, n: Name)
    requires c !in live
    ensures |Kids(live + {c}, n)| == |Kids(live, n)| + if c != [] && Parent(c) == n then 1 else 0
  {
    if c != [] && Parent(c) == n {
      assert Kids(live + {c}, n) == Kids(live, n) + {c};
    } else {
      assert Kids(live + {c}, n) == Kids(live, n);
    }
  }

  predicate Shorter(name: Name, names: set<Name>) { forall u :: u in names ==> |name| < |u| }

  class DirTree {
    var refs: map<Name, nat>
    var stats: nat
    // The handles given out and not yet given back.
    ghost var handles: multiset<Name>

    ghost predicate Holding(unlinked: set<Name>)
      reads this
    {
      Counted(refs, handles, unlinked) && stats == |Live(refs)| && unlinked <= Live(refs)
    }

    ghost predicate Valid()
      reads this
    {
      Holding({})
    }

    constructor ()
      ensures Valid() && handles == multiset{} && refs == map[]
    {
      refs, stats, handles := map[], 0, multiset{};
      EmptyTree();
    }

    method Ref(name: Name)
      requires Valid() && name in handles
      modifies this
      ensures Valid() && handles == old(handles) + multiset{name} && Live(refs) == old(Live(refs))
    {
      hide Counted;
      HeldLive(refs, handles, {}, name);
      CountedRef(refs, handles, {}, name);
      refs := refs[name := refs[name] + 1];
      handles := handles + multiset{name};
    }

    /** A handle on the directory, which is brought to life together with all above it. */
    method Get(name: Name, ghost unlinked: set<Name>)
      requires Holding(unlinked) && Canonical(name) && Shorter(name, unlinked)
      modifies this
      ensures Holding(unlinked) && handles == old(handles) + multiset{name}
      ensures Live(refs) == old(Live(refs)) + Above(name)
      decreases |name|, 1
    {
      hide Counted, Canonical, Live, Above;
      if name in refs && refs[name] > 0 {
        CountedRef(refs, handles, unlinked, name);
        LiveAbove(refs, handles, unlinked, name);
        assert Live(refs) + Above(name) == Live(refs);
        refs := refs[name := refs[name] + 1];
        handles := handles + multiset{name};
      } else {
        CountedNew(refs, handles, unlinked, name);
        AboveHead(name);
        stats := stats + 1;
        refs := refs[name := 1];
        handles := handles + multiset{name};
        if name != [] {
          Link(name, unlinked);
        }
      }
    }

    /** Hangs a new directory below its parent. */
    method Link(name: Name, ghost unlinked: set<Name>)
      requires Holding(unlinked + {name}) && name !in unlinked && name != [] && Canonical(name) && Shorter(name, unlinked)
      modifies this
      ensures Holding(unlinked) && handles == old(handles)
      ensures Live(refs) == old(Live(refs)) + Above(Parent(name))
      decreases |name|, 0
    {
      hide Counted, Canonical, Live, Above;
      var parent := Parent(name);
      CanonicalParent(name);
      ghost var held := handles;
      Get(parent, unlinked + {name});
      AboveHead(parent);
      CountedLink(refs, handles, unlinked, name);
      assert held + multiset{parent} - multiset{parent} == held;
      handles := handles - multiset{parent};
    }

    /** Gives a handle back; a directory nobody needs any more dies and lets go of the one
        above. */
    method Unref(name: Name)
      requires Valid() && name in handles
      modifies this
      ensures Valid() && handles == old(handles) - multiset{name}
      ensures Live(refs) <= old(Live(refs))
      decreases |name|
    {
      hide Counted, Live;
      HeldLive(refs, handles, {}, name);
      CountedDrop(refs, handles, name);
      ghost var held, live := handles - multiset{name}, Live(refs);
      assert |live - {name}| == if name in live then |live| - 1 else |live|;
      refs := refs[name := refs[name] - 1];
      handles := handles - multiset{name};
      if refs[name] > 0 {
        return;
      }
      stats := stats - 1;
      if name != [] {
        var parent := Parent(name);
        handles := handles + multiset{parent};
        Unref(parent);
        assert held + multiset{parent} - multiset{parent} == held;
      }
    }

    /** Any sequence in which only held directories are referenced again or given back keeps
        the counts right; one that gives everything back leaves nothing alive. */
    method Run(ops: seq<Op>)
      requires Valid() && Legal(ops, handles)
      modifies this
      ensures Valid() && handles == Left(ops, old(handles))
      ensures handles == multiset{} ==> Live(refs) == {} && stats == 0
    {
      hide Counted, Canonical, Live;
      ghost var done := Left(ops, handles);
      var i := 0;
      assert ops[..] == ops;
      while i < |ops|
        invariant 0 <= i <= |ops| && Valid() && Legal(ops[i..], handles) && Left(ops[i..], handles) == done
      {
        assert ops[i..][0] == ops[i] && ops[i..][1..] == ops[i + 1..];
        match ops[i] {
          case GetOp(n) => Get(n, {});
          case RefOp(n) => Ref(n);
          case UnrefOp(n) => Unref(n);
        }
        i := i + 1;
      }
      if handles == multiset{} {
        NothingHeld(refs);
      }
    }
  }

  datatype Op = GetOp(name: Name) | RefOp(name: Name) | UnrefOp(name: Name)

  /** The handles left after the requests. */
  ghost function Left(ops: seq<Op>, handles: multiset<Name>): multiset<Name>
  {
    if ops == [] then handles
    else Left(ops[1..], if ops[0].UnrefOp? then handles - multiset{ops[0].name} else handles + multiset{ops[0].name})
  }

  /** Names are canonical, and only held directories are referenced again or given back. */
  ghost predicate Legal(ops: seq<Op>, handles: multiset<Name>)
    decreases ops
  {
    ops == [] ||
    match ops[0]
    case GetOp(n) => Canonical(n) && Legal(ops[1..], handles + multiset{n})
    case RefOp(n) => n in handles && Legal(ops[1..], handles + multiset{n})
    case UnrefOp(n) => n in handles && Legal(ops[1..], handles - multiset{n})
  }

  /** The directory and all above it. */
  function Above(name: Name): set<Name>
    decreases |name|
  {
    if name == [] then {[]} else {name} + Above(Parent(name))
  }

  lemma AboveHead(name: Name)
    ensures name in Above(name) && (name != [] ==> Above(name) == {name} + Above(Parent(name)))
    ensures name == [] ==> Above(name) == {name}
  {
  }

  lemma CanonicalParent(name: Name)
    requires Canonical(name) && name != []
    ensures Canonical(Parent(name))
  {
  }

  lemma EmptyTree()
    ensures Counted(map[], multiset{}, {}) && Live(map[]) == {}
  {
    forall n ensures Kids({}, n) == {} { }
    assert Live(map[]) - {} == {};
  }

  lemma HeldLive(refs: map<Name, nat>, handles: multiset<Name>, unlinked: set<Name>, n: Name)
    requires Counted(refs, handles, unlinked) && n in handles
    ensures n in refs && refs[n] > 0
  {
    assert Count(refs, n) > 0;
  }

  lemma CountedRef(refs: map<Name, nat>, handles: multiset<Name>, unlinked: set<Name>, n: Name)
    requires Counted(refs, handles, unlinked) && n in refs && refs[n] > 0
    ensures var refs' := refs[n := refs[n] + 1];
            Live(refs') == Live(refs) && Counted(refs', handles + multiset{n}, unlinked)
  {
    assert Live(refs[n := refs[n] + 1]) == Live(refs);
    hide Live, Kids, Parent, Canonical;
  }

  lemma CountedNew(refs: map<Name, nat>, handles: multiset<Name>, unlinked: set<Name>, n: Name)
    requires Counted(refs, handles, unlinked) && !(n in refs && refs[n] > 0) && Canonical(n) && unlinked <= Live(refs)
    ensures var refs' := refs[n := 1];
            && Live(refs') == Live(refs) + {n} && n !in Live(refs)
            && Counted(refs', handles + multiset{n}, if n == [] then unlinked else unlinked + {n})
  {
    hide Live, Kids, Parent, Canonical;
    LiveBirth(refs, n);
    var linked := Live(refs) - unlinked;
    var unlinked' := if n == [] then unlinked else unlinked + {n};
    assert Live(refs[n := 1]) - unlinked' == if n == [] then linked + {n} else linked;
    TalliedNew(refs, handles, linked, n);
  }

  lemma LiveBirth(refs: map<Name, nat>, n: Name)
    requires !(n in refs && refs[n] > 0)
    ensures Live(refs[n := 1]) == Live(refs) + {n} && n !in Live(refs)
  {
  }

  lemma TalliedNew(refs: map<Name, nat>, handles: multiset<Name>, linked: set<Name>, n: Name)
    requires Tallied(refs, handles, linked) && !(n in refs && refs[n] > 0) && n !in linked
    ensures Tallied(refs[n := 1], handles + multiset{n}, if n == [] then linked + {n} else linked)
  {
    hide Kids;
    var linked' := if n == [] then linked + {n} else linked;
    forall m
      ensures Count(refs[n := 1], m) == (handles + multiset{n})[m] + |Kids(linked', m)|
    {
      KidsMore(linked, n, m);
      assert Count(refs, m) == handles[m] + |Kids(linked, m)|;
    }
  }

  lemma CountedLink(refs: map<Name, nat>, handles: multiset<Name>, unlinked: set<Name>, n: Name)
    requires Counted(refs, handles, unlinked + {n}) && n in Live(refs) && n !in unlinked && n != []
    requires Parent(n) in handles && Parent(n) in Live(refs)
    ensures Counted(refs, handles - multiset{Parent(n)}, unlinked)
  {
    var before := Live(refs) - (unlinked + {n});
    var now := before + {n};
    assert Live(refs) - unlinked == now;
    forall m
      ensures Count(refs, m) == (handles - multiset{Parent(n)})[m] + |Kids(now, m)|
    {
      KidsMore(before, n, m);
    }
  }

  lemma CountedDrop(refs: map<Name, nat>, handles: multiset<Name>, n: Name)
    requires Counted(refs, handles, {}) && n in handles && n in refs && refs[n] > 0
    ensures var refs', held := refs[n := refs[n] - 1], handles - multiset{n};
            && (refs[n] > 1 ==> Live(refs') == Live(refs) && Counted(refs', held, {}))
            && (refs[n] == 1 ==>
                  && Live(refs') == Live(refs) - {n} && n in Live(refs)
                  && Counted(refs', Without(handles, n), {}))
  {
    hide Live, Kids, Parent, Canonical;
    if refs[n] > 1 {
      LiveStays(refs, n);
    } else {
      LiveDeath(refs, n);
      CountedDeath(refs, handles, n);
    }
  }

  lemma LiveStays(refs: map<Name, nat>, n: Name)
    requires n in refs && refs[n] > 1
    ensures Live(refs[n := refs[n] - 1]) == Live(refs)
  {
  }

  lemma CountedDeath(refs: map<Name, nat>, handles: multiset<Name>, n: Name)
    requires Counted(refs, handles, {}) && n in handles && n in refs && refs[n] == 1
    ensures Counted(refs[n := 0], Without(handles, n), {})
  {
    hide Live, Tallied, Rooted, Without, Canonical;
    var live := Live(refs) - {n};
    LiveDeath(refs, n);
    NoKids(refs, handles, live + {n}, n);
    TalliedDeath(refs, handles, live, n);
    RootedDeath(live, n);
  }

  lemma LiveDeath(refs: map<Name, nat>, n: Name)
    requires n in refs && refs[n] == 1
    ensures var live := Live(refs) - {n};
            Live(refs) - {} == Live(refs) == live + {n} && Live(refs[n := 0]) - {} == Live(refs[n := 0]) == live
  {
    var live := Live(refs) - {n};
    assert Live(refs) == live + {n};
    assert Live(refs[n := 0]) == live;
  }

  lemma NoKids(refs: map<Name, nat>, handles: multiset<Name>, linked: set<Name>, n: Name)
    requires Tallied(refs, handles, linked) && n in handles && n in refs && refs[n] == 1
    ensures Kids(linked, n) == {}
  {
    hide Kids;
    assert Count(refs, n) == 1;
  }

  lemma TalliedDeath(refs: map<Name, nat>, handles: multiset<Name>, live: set<Name>, n: Name)
    requires Tallied(refs, handles, live + {n}) && n !in live && n in handles && n in refs && refs[n] == 1
    ensures Tallied(refs[n := 0], Without(handles, n), live)
  {
    hide Kids, Without;
    forall m
      ensures Count(refs[n := 0], m) == Without(handles, n)[m] + |Kids(live, m)|
    {
      DeathAt(refs, handles, live, n, m);
    }
  }

  lemma RootedDeath(live: set<Name>, n: Name)
    requires Rooted(live + {n}, live + {n}) && Kids(live + {n}, n) == {}
    ensures Rooted(live, live)
  {
    forall c | c in live && c != []
      ensures Parent(c) in live
    {
      assert c in live + {n} && c !in Kids(live + {n}, n);
    }
  }

  /** The handle of a dying directory goes, the one above is held instead. */
  function Without(handles: multiset<Name>, n: Name): multiset<Name>
  {
    if n == [] then handles - multiset{n} else handles - multiset{n} + multiset{Parent(n)}
  }

  lemma DeathAt(refs: map<Name, nat>, handles: multiset<Name>, live: set<Name>, n: Name, m: Name)
    requires n !in live && n in handles && n in refs && refs[n] == 1
    requires Count(refs, m) == handles[m] + |Kids(live + {n}, m)|
    ensures Count(refs[n := 0], m) == Without(handles, n)[m] + |Kids(live, m)|
  {
    KidsMore(live, n, m);
    hide Kids;
  }

  /** All above a live directory is live. */
  lemma {:induction false} LiveAbove(refs: map<Name, nat>, handles: multiset<Name>, unlinked: set<Name>, n: Name)
    requires Counted(refs, handles, unlinked) && n in refs && refs[n] > 0 && Shorter(n, unlinked)
    ensures Above(n) <= Live(refs)
    decreases |n|
  {
    if n != [] {
      assert n in Live(refs) - unlinked;
      LiveAbove(refs, handles, unlinked, Parent(n));
    }
  }

  /** Without handles nothing is alive: the longest live name would have nothing to keep it. */
  lemma NothingHeld(refs: map<Name, nat>)
    requires Counted(refs, multiset{}, {})
    ensures Live(refs) == {}
  {
    if Live(refs) != {} {
      var n := Longest(Live(refs));
      NothingKeeps(refs, n);
    }
  }

  lemma NothingKeeps(refs: map<Name, nat>, n: Name)
    requires Counted(refs, multiset{}, {}) && forall m :: m in Live(refs) ==> |m| <= |n|
    ensures n !in Live(refs)
  {
    assert Kids(Live(refs) - {}, n) == {};
    assert Count(refs, n) == 0;
  }

  /** The counts fit the sixteen bits they are stored in as long as handles and live
      directories together do. */
  lemma CountsFit(refs: map<Name, nat>, handles: multiset<Name>, n: Name)
    requires Counted(refs, handles, {}) && |handles| + |Live(refs)| <= REFS_MAX
    ensures Count(refs, n) <= REFS_MAX
  {
    assert Kids(Live(refs) - {}, n) <= Live(refs);
    SubsetSize(Kids(Live(refs) - {}, n), Live(refs));
    assert handles[n] <= |handles| by { MultiplicityBound(handles, n); }
  }

  lemma SubsetSize(a: set<Name>, b: set<Name>)
    requires a <= b
    ensures |a| <= |b|
  {
    assert b == a + (b - a);
  }

  lemma MultiplicityBound(m: multiset<Name>, n: Name)
    ensures m[n] <= |m|
  {
    var rest := m[n := 0];
    assert m == rest + (multiset{})[n := m[n]];
  }

  lemma {:induction false} Longest(names: set<Name>) returns (n: Name)
    requires names != {}
    ensures n in names && forall m :: m in names ==> |m| <= |n|
    decreases |names|
  {
    n :| n in names;
    if names != {n} {
      var rest := names - {n};
      var m := Longest(rest);
      n := if |m| > |n| then m else n;
    }
  }
}
