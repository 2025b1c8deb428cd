/**
 The walk that finds out which packages and names a failed selection talks about:
 mutually recursive over dependencies and install-if rules, marking as it goes.
 */
module Discover {
  import opened Packages

  datatype Flag = Present | InstallIf | VirtualOnly

  /** The flags collected by one package or name. */
  datatype Bits = Bits(present: bool, installIf: bool, virtualOnly: bool)

  predicate Has(b: Bits, f: Flag)
  {
    match f
    case Present => b.present
    case InstallIf => b.installIf
    case VirtualOnly => b.virtualOnly
  }

  function With(b: Bits, f: Flag): Bits
  {
    match f
    case Present => b.(present := true)
    case InstallIf => b.(installIf := true)
    case VirtualOnly => b.(virtualOnly := true)
  }

  predicate Within(a: Bits, b: Bits)
  {
    (a.present ==> b.present) && (a.installIf ==> b.installIf) && (a.virtualOnly ==> b.virtualOnly)
  }

  const NONE := Bits(false, false, false)

  datatype Provide = Provide(name: nat, versioned: bool)
  datatype Package = Package(name: nat, depends: seq<Dep>, provisions: seq<Provide>, installIf: seq<Dep>,
                             priority: nat, marked: bool)

  /** Packages and names are numbered; providers and rinstallIf belong to names. */
  datatype Repo = Repo(pkgs: seq<Package>, providers: seq<seq<nat>>, rinstallIf: seq<seq<nat>>)

  predicate DepsIn(repo: Repo, deps: seq<Dep>)
  {
    forall i :: 0 <= i < |deps| ==> deps[i].name < |repo.providers|
  }

  predicate PackageIn(repo: Repo, p: Package)
  {
    && p.name < |repo.providers| && DepsIn(repo, p.depends) && DepsIn(repo, p.installIf)
    && forall i :: 0 <= i < |p.provisions| ==> p.provisions[i].name < |repo.providers|
  }

  predicate ValidRepo(repo: Repo)
  {
    && |repo.rinstallIf| == |repo.providers|
    && (forall p :: 0 <= p < |repo.pkgs| ==> PackageIn(repo, repo.pkgs[p]))
    && (forall n :: 0 <= n < |repo.providers| ==> ListIn(repo.providers[n], |repo.pkgs|))
    && (forall n :: 0 <= n < |repo.rinstallIf| ==> ListIn(repo.rinstallIf[n], |repo.providers|))
  }

  predicate ListIn(list: seq<nat>, bound: nat) { forall i :: 0 <= i < |list| ==> list[i] < bound }

  /** The package provides the name under its own name, or with a version. */
  predicate Concrete(p: Package, name: nat)
  {
    p.name == name || exists i :: 0 <= i < |p.provisions| && p.provisions[i].name == name && p.provisions[i].versioned
  }

  /** The flag a package gets when the name is wanted. */
  function Effective(p: Package, name: nat, want: Flag): Flag
  {
    if want != VirtualOnly && p.priority == 0 && !Concrete(p, name) then VirtualOnly else want
  }

  function Provided(d: Provide, f: Flag): Flag
  {
    if f == InstallIf && !d.versioned then VirtualOnly else f
  }

  /** A name is provided concretely by its own package, or with a version; a package that provides it
      otherwise is wanted only virtually, unless it has a priority. A rule makes the names that its
      package provides without a version virtual, too. */
  lemma FlagGiven(p: Package, name: nat, want: Flag, d: Provide)
    ensures Effective(p, name, want) ==
            if p.name == name || Provide(name, true) in p.provisions || p.priority > 0 then want else VirtualOnly
    ensures Provided(d, Present) == Present && Provided(d, VirtualOnly) == VirtualOnly
    ensures Provided(d, InstallIf) == if d == Provide(d.name, true) then InstallIf else VirtualOnly
  {
    if Provide(name, true) in p.provisions {
      var i :| 0 <= i < |p.provisions| && p.provisions[i] == Provide(name, true);
    }
  }

  // ---- The measure --------------------------------------------------------------------------------

  function Unset(b: Bits): nat
  {
    (if b.present then 0 else 1) + (if b.installIf then 0 else 1) + (if b.virtualOnly then 0 else 1)
  }

  /** Flags not yet set, over all packages. */
  function Room(st: seq<Bits>): nat
  {
    if st == [] then 0 else Unset(st[0]) + Room(st[1..])
  }

  predicate Grown(a: seq<Bits>, b: seq<Bits>)
  {
    |a| == |b| && forall i :: 0 <= i < |a| ==> Within(a[i], b[i])
  }

  lemma {:induction false} RoomShrinks(a: seq<Bits>, b: seq<Bits>)
    requires Grown(a, b)
    ensures Room(b) <= Room(a)
    ensures (exists i :: 0 <= i < |a| && a[i] != b[i]) ==> Room(b) < Room(a)
  {
    if a != [] {
      assert Within(a[0], b[0]);
      assert Grown(a[1..], b[1..]) by {
        forall i | 0 <= i < |a| - 1 ensures Within(a[1..][i], b[1..][i]) { assert Within(a[i + 1], b[i + 1]); }
      }
      RoomShrinks(a[1..], b[1..]);
      if i :| 0 <= i < |a| && a[i] != b[i] {
        if i > 0 {
          assert a[1..][i - 1] != b[1..][i - 1];
        }
      }
    }
  }

  // ---- Closure ------------------------------------------------------------------------------------------

  /** Every marked provider of the name carries the flag it should get. */
  predicate NameSeen(repo: Repo, st: seq<Bits>, name: nat, want: Flag)
    requires ValidRepo(repo) && |st| == |repo.pkgs| && name < |repo.providers|
  {
    forall i :: 0 <= i < |repo.providers[name]| ==> ProviderSeen(repo, st, name, want, i)
  }

  predicate ProviderSeen(repo: Repo, st: seq<Bits>, name: nat, want: Flag, i: nat)
    requires ValidRepo(repo) && |st| == |repo.pkgs| && name < |repo.providers| && i < |repo.providers[name]|
  {
    var q := repo.providers[name][i];
    repo.pkgs[q].marked ==> Has(st[q], Effective(repo.pkgs[q], name, want))
  }

  predicate DepsSeen(repo: Repo, st: seq<Bits>, deps: seq<Dep>)
    requires ValidRepo(repo) && |st| == |repo.pkgs| && DepsIn(repo, deps)
  {
    forall i :: 0 <= i < |deps| && !deps[i].conflict ==> NameSeen(repo, st, deps[i].name, Present)
  }

  /** All reached packages have their dependencies seen, except those still at work. */
  predicate ClosedExcept(repo: Repo, st: seq<Bits>, open: set<nat>)
    requires ValidRepo(repo) && |st| == |repo.pkgs|
  {
    forall p :: 0 <= p < |st| && st[p] != NONE && p !in open ==> DepsSeen(repo, st, repo.pkgs[p].depends)
  }

  lemma SeenGrows(repo: Repo, a: seq<Bits>, b: seq<Bits>, name: nat, want: Flag)
    requires ValidRepo(repo) && |a| == |repo.pkgs| && name < |repo.providers|
    requires Grown(a, b) && NameSeen(repo, a, name, want)
    ensures NameSeen(repo, b, name, want)
  {
    forall i | 0 <= i < |repo.providers[name]|
      ensures ProviderSeen(repo, b, name, want, i)
    {
      assert ProviderSeen(repo, a, name, want, i);
      var q := repo.providers[name][i];
      assert Within(a[q], b[q]);
    }
  }

  lemma DepsSeenGrows(repo: Repo, a: seq<Bits>, b: seq<Bits>, deps: seq<Dep>)
    requires ValidRepo(repo) && |a| == |repo.pkgs| && DepsIn(repo, deps)
    requires Grown(a, b) && DepsSeen(repo, a, deps)
    ensures DepsSeen(repo, b, deps)
  {
    hide NameSeen;
    forall i | 0 <= i < |deps| && !deps[i].conflict
      ensures NameSeen(repo, b, deps[i].name, Present)
    {
      SeenGrows(repo, a, b, deps[i].name, Present);
    }
  }

  // ---- How far the walk can get ------------------------------------------------------------------------------

  /** Every marked provider of the name may get the flag it should get. */
  predicate ProvidersIn(repo: Repo, name: nat, want: Flag, bound: set<(nat, Flag)>)
    requires ValidRepo(repo) && name < |repo.providers|
  {
    forall i :: 0 <= i < |repo.providers[name]| ==> ProviderIn(repo, name, want, i, bound)
  }

  predicate ProviderIn(repo: Repo, name: nat, want: Flag, i: nat, bound: set<(nat, Flag)>)
    requires ValidRepo(repo) && name < |repo.providers| && i < |repo.providers[name]|
  {
    var q := repo.providers[name][i];
    repo.pkgs[q].marked ==> (q, Effective(repo.pkgs[q], name, want)) in bound
  }

  predicate DepsBound(repo: Repo, deps: seq<Dep>, bound: set<(nat, Flag)>)
    requires ValidRepo(repo) && DepsIn(repo, deps)
  {
    forall i :: 0 <= i < |deps| && !deps[i].conflict ==> ProvidersIn(repo, deps[i].name, Present, bound)
  }

  /** All providers of all names of a package with a rule. */
  predicate NamesBound(repo: Repo, p: nat, bound: set<(nat, Flag)>)
    requires ValidRepo(repo) && p < |repo.pkgs|
  {
    && ProvidersIn(repo, repo.pkgs[p].name, InstallIf, bound)
    && forall i :: 0 <= i < |repo.pkgs[p].provisions| ==> ProvidersIn(repo, repo.pkgs[p].provisions[i].name, InstallIf, bound)
  }

  /** The packages an install-if rule on the name can bring in. */
  predicate ReverseBound(repo: Repo, name: nat, bound: set<(nat, Flag)>)
    requires ValidRepo(repo) && name < |repo.providers|
  {
    forall i, j :: 0 <= i < |repo.rinstallIf[name]| && 0 <= j < |repo.providers[repo.rinstallIf[name][i]]| ==>
      var q := repo.providers[repo.rinstallIf[name][i]][j];
      Ruled(repo.pkgs[q]) ==> NamesBound(repo, q, bound)
  }

  predicate PackageBound(repo: Repo, p: nat, f: Flag, bound: set<(nat, Flag)>)
    requires ValidRepo(repo) && p < |repo.pkgs|
  {
    && DepsBound(repo, repo.pkgs[p].depends, bound)
    && (f != VirtualOnly ==>
          && ReverseBound(repo, repo.pkgs[p].name, bound)
          && forall i :: 0 <= i < |repo.pkgs[p].provisions| ==> ReverseBound(repo, repo.pkgs[p].provisions[i].name, bound))
  }

  /** A set of packages with flags that dependencies and install-if rules do not lead out of. */
  predicate ClosedSet(repo: Repo, bound: set<(nat, Flag)>)
    requires ValidRepo(repo)
  {
    forall t :: t in bound && t.0 < |repo.pkgs| ==> PackageBound(repo, t.0, t.1, bound)
  }

  predicate Inside(st: seq<Bits>, bound: set<(nat, Flag)>)
  {
    forall p, f :: 0 <= p < |st| && Has(st[p], f) ==> (p, f) in bound
  }

  // ---- Names follow packages -----------------------------------------------------------------------------------

  /** A flagged package is marked, and its names carry its flags. */
  predicate Named(repo: Repo, names: seq<Bits>, p: nat, b: Bits)
    requires ValidRepo(repo) && |names| == |repo.providers| && p < |repo.pkgs|
  {
    && (b != NONE ==> repo.pkgs[p].marked)
    && Within(b, names[repo.pkgs[p].name])
    && forall i, f :: 0 <= i < |repo.pkgs[p].provisions| && Has(b, f) ==>
        Has(names[repo.pkgs[p].provisions[i].name], Provided(repo.pkgs[p].provisions[i], f))
  }

  /** A package with the flag f gives the name the flag g. */
  predicate Carries(p: Package, n: nat, f: Flag, g: Flag)
  {
    || (p.name == n && g == f)
    || exists i :: 0 <= i < |p.provisions| && p.provisions[i].name == n && Provided(p.provisions[i], f) == g
  }

  /** A name has a flag only on account of a flagged package that gives it. */
  ghost predicate Sourced(repo: Repo, st: seq<Bits>, names: seq<Bits>)
    requires |st| == |repo.pkgs|
  {
    forall n, g :: 0 <= n < |names| && Has(names[n], g) ==> Given(repo, st, n, g)
  }

  ghost predicate Given(repo: Repo, st: seq<Bits>, n: nat, g: Flag)
    requires |st| == |repo.pkgs|
  {
    exists p, f :: 0 <= p < |st| && Has(st[p], f) && Carries(repo.pkgs[p], n, f, g)
  }

  // ---- Install-if rules -------------------------------------------------------------------------------------

  predicate On(b: Bits) { b.present || b.installIf }

  predicate Ruled(p: Package) { p.marked && p.installIf != [] }

  /** A marked package with a rule that asks for some name to be there. */
  predicate Asking(p: Package)
  {
    p.marked && exists i :: 0 <= i < |p.installIf| && !p.installIf[i].conflict
  }

  /** The rule holds: the names it asks for are there, and those it conflicts with are not. */
  predicate Holding(repo: Repo, names: seq<Bits>, q: nat)
    requires ValidRepo(repo) && |names| == |repo.providers| && q < |repo.pkgs|
  {
    forall i :: 0 <= i < |repo.pkgs[q].installIf| ==>
      repo.pkgs[q].installIf[i].conflict != On(names[repo.pkgs[q].installIf[i].name])
  }

  /** Every marked provider of every name of the package has been wanted by a rule. */
  predicate RuleSeen(repo: Repo, st: seq<Bits>, q: nat)
    requires ValidRepo(repo) && |st| == |repo.pkgs| && q < |repo.pkgs|
  {
    && NameSeen(repo, st, repo.pkgs[q].name, InstallIf)
    && forall i :: 0 <= i < |repo.pkgs[q].provisions| ==> NameSeen(repo, st, repo.pkgs[q].provisions[i].name, InstallIf)
  }

  /** Following the index from the name, the walk comes to the package. */
  predicate Listed(repo: Repo, n: nat, q: nat)
    requires ValidRepo(repo)
  {
    n < |repo.rinstallIf| && exists i :: 0 <= i < |repo.rinstallIf[n]| && q in repo.providers[repo.rinstallIf[n][i]]
  }

  /** A package that is there has the name. */
  ghost predicate Stands(repo: Repo, st: seq<Bits>, n: nat)
    requires |st| == |repo.pkgs|
  {
    exists p :: 0 <= p < |st| && On(st[p]) && NameOf(repo, p, n)
  }

  /** A package with a rule that the index lists under a name of some package that is there. */
  ghost predicate Touched(repo: Repo, st: seq<Bits>, q: nat)
    requires ValidRepo(repo) && |st| == |repo.pkgs| && q < |repo.pkgs|
  {
    Ruled(repo.pkgs[q]) && exists n :: Stands(repo, st, n) && Listed(repo, n, q)
  }

  /** The packages whose rules have been looked at, and for those whose rules have been followed the
      flags of the names as they were then. */
  datatype Trail = Trail(looked: set<nat>, followed: map<nat, seq<Bits>>)

  function After(t: Trail, p: Package, q: nat, follows: bool, names: seq<Bits>): Trail
  {
    Trail(if Ruled(p) then t.looked + {q} else t.looked, if follows then t.followed[q := names] else t.followed)
  }

  /** The rule held for the names as they were when it was followed. */
  predicate HeldThen(repo: Repo, names: seq<Bits>, t: Trail, q: nat)
    requires ValidRepo(repo) && |names| == |repo.providers| && q < |repo.pkgs| && q in t.followed
  {
    Grown(t.followed[q], names) && Holding(repo, t.followed[q], q)
  }

  /** Looking at rule q again on account of a name it is listed under is still to be done. */
  ghost predicate Due(repo: Repo, q: nat, todo: set<(nat, nat)>)
    requires ValidRepo(repo)
  {
    exists n :: (n, q) in todo && Listed(repo, n, q)
  }

  /** A rule is looked at only if it is touched; if it is, it has been looked at, and followed if it
      holds, or it is still to be looked at. */
  ghost predicate RuleOk(repo: Repo, st: seq<Bits>, names: seq<Bits>, t: Trail, todo: set<(nat, nat)>, q: nat)
    requires ValidRepo(repo) && |st| == |repo.pkgs| && |names| == |repo.providers| && q < |repo.pkgs|
  {
    && (q in t.looked ==> Touched(repo, st, q)) && (q in t.followed ==> q in t.looked && RuleSeen(repo, st, q) && HeldThen(repo, names, t, q))
    && (Touched(repo, st, q) ==> Due(repo, q, todo) || (q in t.looked && (Holding(repo, names, q) ==> q in t.followed)))
  }

  ghost predicate RulesOk(repo: Repo, st: seq<Bits>, names: seq<Bits>, t: Trail, todo: set<(nat, nat)>)
    requires ValidRepo(repo) && |st| == |repo.pkgs| && |names| == |repo.providers|
  {
    forall q :: 0 <= q < |repo.pkgs| ==> RuleOk(repo, st, names, t, todo, q)
  }

  /** The reverse index of rules is complete: a package with a rule on a name is a provider of
      its own name, which the index lists under the name of the rule. */
  predicate Indexed(repo: Repo)
    requires ValidRepo(repo)
  {
    forall q, i :: 0 <= q < |repo.pkgs| && 0 <= i < |repo.pkgs[q].installIf| ==>
      repo.pkgs[q].name in repo.rinstallIf[repo.pkgs[q].installIf[i].name] && q in repo.providers[repo.pkgs[q].name]
  }

  /** All checks on account of a name, for packages that have been looked at. */
  function Dropped(todo: set<(nat, nat)>, name: nat, seen: set<nat>): set<(nat, nat)>
  {
    set t | t in todo && !(t.0 == name && t.1 in seen)
  }

  function Forgotten(todo: set<(nat, nat)>, name: nat): set<(nat, nat)> { set t | t in todo && t.0 != name }

  predicate NameOf(repo: Repo, p: nat, n: nat)
    requires p < |repo.pkgs|
  {
    n == repo.pkgs[p].name || exists i :: 0 <= i < |repo.pkgs[p].provisions| && repo.pkgs[p].provisions[i].name == n
  }

  /** All checks that a flagged package makes necessary. */
  function Checks(repo: Repo, p: nat): set<(nat, nat)>
    requires p < |repo.pkgs|
  {
    (set q | 0 <= q < |repo.pkgs| :: (repo.pkgs[p].name, q)) +
    (set d, q | d in repo.pkgs[p].provisions && 0 <= q < |repo.pkgs| :: (d.name, q))
  }

  class Walk {
    const repo: Repo
    var pkgState: seq<Bits>
    var nameState: seq<Bits>
    // Which rules the walk has come to, noted where it looks at one.
    ghost var trail: Trail

    ghost predicate Valid()
      reads this
    {
      && ValidRepo(repo) && |pkgState| == |repo.pkgs| && |nameState| == |repo.providers|
      && (forall p :: 0 <= p < |pkgState| ==> Named(repo, nameState, p, pkgState[p]))
      && Sourced(repo, pkgState, nameState)
    }

    constructor (repo: Repo)
      requires ValidRepo(repo)
      ensures Valid() && this.repo == repo
      ensures forall p :: 0 <= p < |pkgState| ==> pkgState[p] == NONE
      ensures forall n :: 0 <= n < |nameState| ==> nameState[n] == NONE
      ensures trail == Trail({}, map[])
    {
      this.repo := repo;
      trail := Trail({}, map[]);
      pkgState := seq(|repo.pkgs|, _ => NONE);
      nameState := seq(|repo.providers|, _ => NONE);
    }

    /** Sets the flag on a package and its names. */
    method Flagged(p: nat, f: Flag)
      requires Valid() && p < |repo.pkgs| && repo.pkgs[p].marked
      modifies this
      ensures Valid() && pkgState == old(pkgState)[p := With(old(pkgState)[p], f)] && trail == old(trail)
      ensures Grown(old(nameState), nameState)
      ensures forall n, g :: 0 <= n < |nameState| && Has(nameState[n], g) && !Has(old(nameState)[n], g) ==>
                Carries(repo.pkgs[p], n, f, g)
    {
      hide Carries, Named, Sourced;
      OwnNames(repo, p, f);
      var pkg := repo.pkgs[p];
      pkgState := pkgState[p := With(pkgState[p], f)];
      nameState := nameState[pkg.name := With(nameState[pkg.name], f)];
      var i := 0;
      while i < |pkg.provisions|
        invariant 0 <= i <= |pkg.provisions| && |nameState| == |repo.providers|
        invariant pkgState == old(pkgState)[p := With(old(pkgState)[p], f)] && trail == old(trail)
        invariant Grown(old(nameState), nameState)
        invariant Has(nameState[pkg.name], f)
        invariant forall n, g :: 0 <= n < |nameState| && Has(nameState[n], g) && !Has(old(nameState)[n], g) ==>
                    Carries(pkg, n, f, g)
        invariant forall k :: 0 <= k < i ==> Has(nameState[pkg.provisions[k].name], Provided(pkg.provisions[k], f))
      {
        var d := pkg.provisions[i];
        nameState := nameState[d.name := With(nameState[d.name], Provided(d, f))];
        i := i + 1;
      }
      FlagNamed(repo, old(pkgState), pkgState, old(nameState), nameState, p, f);
      SourcedWith(repo, old(pkgState), pkgState, old(nameState), nameState, p, f);
    }

    /** What every part of the walk keeps and adds. */
    ghost predicate Ready(open: set<nat>, bound: set<(nat, Flag)>, todo: set<(nat, nat)>)
      reads this
    {
      && Valid() && ClosedExcept(repo, pkgState, open) && ClosedSet(repo, bound) && Inside(pkgState, bound)
      && Indexed(repo) && RulesOk(repo, pkgState, nameState, trail, todo)
    }

    method DiscoverDeps(deps: seq<Dep>, ghost open: set<nat>, ghost bound: set<(nat, Flag)>, ghost todo: set<(nat, nat)>)
      requires Ready(open, bound, todo) && DepsIn(repo, deps) && DepsBound(repo, deps, bound)
      modifies this
      ensures Ready(open, bound, todo) && Grown(old(pkgState), pkgState) && Grown(old(nameState), nameState) && DepsSeen(repo, pkgState, deps)
      decreases Room(pkgState), 2
    {
      hide Named, ClosedExcept, ClosedSet, Inside, NameSeen, ProvidersIn, RulesOk, Indexed;
      var i := 0;
      while i < |deps|
        invariant 0 <= i <= |deps| && Ready(open, bound, todo) && Grown(old(pkgState), pkgState) && Grown(old(nameState), nameState)
        invariant forall k :: 0 <= k < i && !deps[k].conflict ==> NameSeen(repo, pkgState, deps[k].name, Present)
      {
        if !deps[i].conflict {
          ghost var before, beforeNames := pkgState, nameState;
          RoomShrinks(old(pkgState), pkgState);
          DiscoverName(deps[i].name, Present, open, bound, todo);
          forall k | 0 <= k < i && !deps[k].conflict
            ensures NameSeen(repo, pkgState, deps[k].name, Present)
          {
            SeenGrows(repo, before, pkgState, deps[k].name, Present);
          }
          GrownTrans(old(pkgState), before, pkgState);
          GrownTrans(old(nameState), beforeNames, nameState);
        }
        i := i + 1;
      }
    }

    method DiscoverName(name: nat, want: Flag, ghost open: set<nat>, ghost bound: set<(nat, Flag)>, ghost todo: set<(nat, nat)>)
      requires Ready(open, bound, todo) && name < |repo.providers| && ProvidersIn(repo, name, want, bound)
      modifies this
      ensures Ready(open, bound, todo) && Grown(old(pkgState), pkgState) && Grown(old(nameState), nameState) && NameSeen(repo, pkgState, name, want)
      decreases Room(pkgState), 1
    {
      hide Named, ClosedExcept, ClosedSet, Inside, DepsSeen, Grown, Effective, RulesOk, Indexed;
      var ps := repo.providers[name];
      var i := 0;
      GrownSame(pkgState);
      GrownSame(nameState);
      while i < |ps|
        invariant 0 <= i <= |ps| && Ready(open, bound, todo) && Grown(old(pkgState), pkgState) && Grown(old(nameState), nameState)
        invariant forall k :: 0 <= k < i ==> ProviderSeen(repo, pkgState, name, want, k)
      {
        ghost var before, beforeNames := pkgState, nameState;
        RoomShrinks(old(pkgState), pkgState);
        assert ProviderIn(repo, name, want, i, bound);
        if repo.pkgs[ps[i]].marked {
          var state := Effective(repo.pkgs[ps[i]], name, want);
          if !Has(pkgState[ps[i]], state) {
            Reach(ps[i], state, open, bound, todo);
            GrownTrans(old(pkgState), before, pkgState);
            GrownTrans(old(nameState), beforeNames, nameState);
            SomeSeenGrows(repo, before, pkgState, name, want, i);
          }
        }
        i := i + 1;
      }
    }

    /** A package gets a flag it did not have; its dependencies and rules are followed. */
    method Reach(p: nat, f: Flag, ghost open: set<nat>, ghost bound: set<(nat, Flag)>, ghost todo: set<(nat, nat)>)
      requires Ready(open, bound, todo) && p < |repo.pkgs| && repo.pkgs[p].marked && !Has(pkgState[p], f) && (p, f) in bound
      modifies this
      ensures Ready(open, bound, todo) && Grown(old(pkgState), pkgState) && Grown(old(nameState), nameState) && Has(pkgState[p], f)
      decreases Room(pkgState), 0
    {
      hide Named, DepsSeen, NameSeen, RulesOk, Indexed, Checks, Forgotten, Stands, Inside, Carries;
      var pkg := repo.pkgs[p];
      ghost var names := nameState;
      Flagged(p, f);
      ghost var first, firstNames, more := pkgState, nameState, if f == VirtualOnly then todo else todo + Checks(repo, p);
      FlagShrinks(old(pkgState), p, f);
      FlagOpens(repo, old(pkgState), p, f, open);
      RulesFlagged(repo, old(pkgState), pkgState, names, nameState, trail, todo, p, f);
      InsideWith(old(pkgState), p, f, bound);
      assert PackageBound(repo, (p, f).0, (p, f).1, bound);
      DiscoverDeps(pkg.depends, open + {p}, bound, more);
      GrownTrans(old(pkgState), first, pkgState);
      GrownTrans(old(nameState), firstNames, nameState);
      assert Within(first[p], pkgState[p]);
      if f != VirtualOnly {
        RoomShrinks(first, pkgState);
        ghost var second, secondNames := pkgState, nameState;
        OwnStands(repo, first, pkgState, p);
        DiscoverReverse(pkg.name, open, bound, more);
        more := Forgotten(more, pkg.name);
        GrownTrans(first, second, pkgState);
        GrownTrans(firstNames, secondNames, nameState);
        ChecksLeft(repo, p, todo, more);
        var i := 0;
        while i < |pkg.provisions|
          invariant 0 <= i <= |pkg.provisions|
          invariant Ready(open, bound, more) && Grown(first, pkgState) && Grown(firstNames, nameState) && LeftFrom(repo, p, todo, more, i)
        {
          RoomShrinks(first, pkgState);
          ghost var third, thirdNames := pkgState, nameState;
          OwnStands(repo, first, pkgState, p);
          DiscoverReverse(pkg.provisions[i].name, open, bound, more);
          LeftNext(repo, p, todo, more, i);
          more := Forgotten(more, pkg.provisions[i].name);
          GrownTrans(first, third, pkgState);
          GrownTrans(firstNames, thirdNames, nameState);
          i := i + 1;
        }
        LeftNone(repo, p, todo, more);
        RulesMore(repo, pkgState, nameState, trail, more, todo);
        GrownTrans(old(pkgState), first, pkgState);
        GrownTrans(old(nameState), firstNames, nameState);
        assert Within(first[p], pkgState[p]);
      }
    }

    /** The conditions of an install-if rule hold for the names as they are now. */
    predicate Triggered(q: nat)
      requires Valid() && q < |repo.pkgs|
      reads this
    {
      var rule := repo.pkgs[q].installIf;
      forall i :: 0 <= i < |rule| ==>
        rule[i].conflict != (nameState[rule[i].name].present || nameState[rule[i].name].installIf)
    }

    /** Looks at all rules on a name, after which none has to be looked at again on its
        account. */
    method DiscoverReverse(name: nat, ghost open: set<nat>, ghost bound: set<(nat, Flag)>, ghost todo: set<(nat, nat)>)
      requires Ready(open, bound, todo) && name < |repo.providers| && ReverseBound(repo, name, bound)
      requires Stands(repo, pkgState, name)
      modifies this
      ensures Ready(open, bound, Forgotten(todo, name)) && Grown(old(pkgState), pkgState) && Grown(old(nameState), nameState)
      decreases Room(pkgState), 4
    {
      hide Named, ClosedExcept, ClosedSet, Inside, NameSeen, RulesOk, Indexed, Dropped, Forgotten, Stands;
      ghost var seen: set<nat> := {};
      DroppedNone(todo, name);
      var i := 0;
      while i < |repo.rinstallIf[name]|
        invariant 0 <= i <= |repo.rinstallIf[name]| && SeenAll(repo, name, i, seen)
        invariant Ready(open, bound, Dropped(todo, name, seen)) && Grown(old(pkgState), pkgState) && Grown(old(nameState), nameState)
      {
        RoomShrinks(old(pkgState), pkgState);
        StandsGrows(repo, old(pkgState), pkgState, name);
        ghost var before, beforeNames := pkgState, nameState;
        ghost var more := RulesOf(name, i, open, bound, todo, seen);
        GrownTrans(old(pkgState), before, pkgState);
        GrownTrans(old(nameState), beforeNames, nameState);
        seen := more;
        i := i + 1;
      }
      AllDropped(repo, pkgState, nameState, trail, todo, name, seen);
    }

    /** The rules of all providers of one name. */
    method RulesOf(name: nat, i: nat, ghost open: set<nat>, ghost bound: set<(nat, Flag)>, ghost todo: set<(nat, nat)>,
                   ghost before: set<nat>)
        returns (ghost seen: set<nat>)
      requires name < |repo.providers| && Ready(open, bound, Dropped(todo, name, before)) && ReverseBound(repo, name, bound)
      requires i < |repo.rinstallIf[name]| && Stands(repo, pkgState, name)
      modifies this
      ensures Ready(open, bound, Dropped(todo, name, seen)) && Grown(old(pkgState), pkgState) && Grown(old(nameState), nameState)
      ensures before <= seen && ProvidersSeen(repo, repo.rinstallIf[name][i], seen)
      decreases Room(pkgState), 3
    {
      hide Named, ClosedExcept, ClosedSet, Inside, NameSeen, RulesOk, Indexed, Dropped, Stands, Touched;
      var name0 := repo.rinstallIf[name][i];
      seen := before;
      var j := 0;
      while j < |repo.providers[name0]|
        invariant 0 <= j <= |repo.providers[name0]| && before <= seen
        invariant forall k :: 0 <= k < j ==> repo.providers[name0][k] in seen
        invariant Ready(open, bound, Dropped(todo, name, seen)) && Grown(old(pkgState), pkgState) && Grown(old(nameState), nameState)
      {
        var q := repo.providers[name0][j];
        ghost var was, wasNames, follows := pkgState, nameState, false;
        if repo.pkgs[q].marked && repo.pkgs[q].installIf != [] {
          follows := Triggered(q);
          if Triggered(q) {
            assert NamesBound(repo, q, bound);
            RoomShrinks(old(pkgState), pkgState);
            DiscoverNames(q, open, bound, Dropped(todo, name, seen));
            GrownTrans(old(pkgState), was, pkgState);
            GrownTrans(old(nameState), wasNames, nameState);
          }
          NowTouched(repo, old(pkgState), pkgState, name, i, q);
        }
        RuleDone(repo, pkgState, nameState, trail, todo, name, seen, q, follows, wasNames);
        trail := After(trail, repo.pkgs[q], q, follows, wasNames);
        seen := seen + {q};
        j := j + 1;
      }
    }

    /** All names of a package pulled in by its rule. */
    method DiscoverNames(q: nat, ghost open: set<nat>, ghost bound: set<(nat, Flag)>, ghost todo: set<(nat, nat)>)
      requires Ready(open, bound, todo) && q < |repo.pkgs| && NamesBound(repo, q, bound)
      modifies this
      ensures Ready(open, bound, todo) && Grown(old(pkgState), pkgState) && Grown(old(nameState), nameState) && RuleSeen(repo, pkgState, q)
      decreases Room(pkgState), 2
    {
      hide Named, ClosedExcept, ClosedSet, Inside, NameSeen, ProvidersIn, RulesOk, Indexed;
      var pkg := repo.pkgs[q];
      DiscoverName(pkg.name, InstallIf, open, bound, todo);
      var i := 0;
      while i < |pkg.provisions|
        invariant 0 <= i <= |pkg.provisions| && Ready(open, bound, todo) && Grown(old(pkgState), pkgState) && Grown(old(nameState), nameState)
        invariant NameSeen(repo, pkgState, pkg.name, InstallIf)
        invariant forall k :: 0 <= k < i ==> NameSeen(repo, pkgState, pkg.provisions[k].name, InstallIf)
      {
        RoomShrinks(old(pkgState), pkgState);
        ghost var before, beforeNames := pkgState, nameState;
        DiscoverName(pkg.provisions[i].name, InstallIf, open, bound, todo);
        GrownTrans(old(pkgState), before, pkgState);
        GrownTrans(old(nameState), beforeNames, nameState);
        SeenGrows(repo, before, pkgState, pkg.name, InstallIf);
        forall k | 0 <= k < i
          ensures NameSeen(repo, pkgState, pkg.provisions[k].name, InstallIf)
        {
          SeenGrows(repo, before, pkgState, pkg.provisions[k].name, InstallIf);
        }
        i := i + 1;
      }
    }

    /** The whole walk, from nothing: it ends, and it ends closed. Every marked provider
        of a wanted name, and of every name a reached package depends on, carries Present,
        or VirtualOnly if it provides the name only virtually and without priority. A rule is
        looked at exactly if it is listed under a name of a package that is there, and a rule that
        holds for the names as they are in the end has been followed exactly in that case, which
        for a rule that asks for some name is always. Nothing is reached, with a flag, that
        dependencies and install-if rules do not lead to with that flag. */
    method Discover(world: seq<Dep>, ghost bound: set<(nat, Flag)>)
      requires Valid() && DepsIn(repo, world) && Indexed(repo)
      requires forall p :: 0 <= p < |pkgState| ==> pkgState[p] == NONE
      requires forall n :: 0 <= n < |nameState| ==> nameState[n] == NONE
      requires trail == Trail({}, map[])
      requires ClosedSet(repo, bound) && DepsBound(repo, world, bound)
      modifies this
      ensures Valid() && DepsSeen(repo, pkgState, world) && Inside(pkgState, bound)
      ensures forall p :: 0 <= p < |pkgState| && pkgState[p] != NONE ==> DepsSeen(repo, pkgState, repo.pkgs[p].depends)
      ensures forall q :: 0 <= q < |repo.pkgs| ==> (q in trail.looked <==> Touched(repo, pkgState, q))
      ensures forall q :: 0 <= q < |repo.pkgs| && Holding(repo, nameState, q) ==>
                (q in trail.followed <==> Touched(repo, pkgState, q))
      ensures forall q :: 0 <= q < |repo.pkgs| && q in trail.followed ==>
                RuleSeen(repo, pkgState, q) && HeldThen(repo, nameState, trail, q)
      ensures forall q :: 0 <= q < |repo.pkgs| && Asking(repo.pkgs[q]) && Holding(repo, nameState, q) ==>
                Touched(repo, pkgState, q) && RuleSeen(repo, pkgState, q)
    {
      hide Named, DepsSeen, ClosedSet, DepsBound, Indexed, RuleSeen, Sourced, Touched, Holding;
      NoneOn(repo, pkgState, nameState);
      DiscoverDeps(world, {}, bound, {});
      RulesDone(repo, pkgState, nameState, trail);
    }
  }

  lemma NoneOn(repo: Repo, st: seq<Bits>, names: seq<Bits>)
    requires ValidRepo(repo) && |st| == |repo.pkgs| && |names| == |repo.providers|
    requires forall p :: 0 <= p < |st| ==> st[p] == NONE
    ensures RulesOk(repo, st, names, Trail({}, map[]), {})
  {
    hide RuleSeen, Holding, Listed, NameOf;
  }

  lemma RulesDone(repo: Repo, st: seq<Bits>, names: seq<Bits>, t: Trail)
    requires ValidRepo(repo) && |st| == |repo.pkgs| && |names| == |repo.providers| && RulesOk(repo, st, names, t, {})
    requires Indexed(repo) && Sourced(repo, st, names)
    ensures forall q :: 0 <= q < |repo.pkgs| ==> (q in t.looked <==> Touched(repo, st, q))
    ensures forall q :: 0 <= q < |repo.pkgs| && Holding(repo, names, q) ==> (q in t.followed <==> Touched(repo, st, q))
    ensures forall q :: 0 <= q < |repo.pkgs| && q in t.followed ==> RuleSeen(repo, st, q) && HeldThen(repo, names, t, q)
    ensures forall q :: 0 <= q < |repo.pkgs| && Asking(repo.pkgs[q]) && Holding(repo, names, q) ==>
              Touched(repo, st, q) && RuleSeen(repo, st, q)
  {
    hide RuleSeen, Holding, Touched, Asking, Indexed, Sourced;
    forall q | 0 <= q < |repo.pkgs|
      ensures q in t.looked <==> Touched(repo, st, q)
      ensures Holding(repo, names, q) ==> (q in t.followed <==> Touched(repo, st, q))
      ensures q in t.followed ==> RuleSeen(repo, st, q) && HeldThen(repo, names, t, q)
      ensures Asking(repo.pkgs[q]) && Holding(repo, names, q) ==> Touched(repo, st, q)
    {
      assert RuleOk(repo, st, names, t, {}, q);
      if Asking(repo.pkgs[q]) && Holding(repo, names, q) {
        AskingTouched(repo, st, names, q);
      }
    }
  }

  /** A rule that asks for some name, and holds, is listed under a name of a package that is there. */
  lemma AskingTouched(repo: Repo, st: seq<Bits>, names: seq<Bits>, q: nat)
    requires ValidRepo(repo) && |st| == |repo.pkgs| && |names| == |repo.providers| && q < |repo.pkgs|
    requires Indexed(repo) && Sourced(repo, st, names) && Asking(repo.pkgs[q]) && Holding(repo, names, q)
    ensures Touched(repo, st, q)
  {
    hide Carries, NameOf, Listed;
    var i :| 0 <= i < |repo.pkgs[q].installIf| && !repo.pkgs[q].installIf[i].conflict;
    assert PackageIn(repo, repo.pkgs[q]);
    var n := repo.pkgs[q].installIf[i].name;
    var g := if Has(names[n], Present) then Present else InstallIf;
    assert Given(repo, st, n, g);
    var p, f :| 0 <= p < |st| && Has(st[p], f) && Carries(repo.pkgs[p], n, f, g);
    CarriedOn(repo, p, n, f, g);
    RuleListed(repo, q, i);
    assert Stands(repo, st, n);
  }

  /** Only a package that is there puts a name there, and it is one of its own. */
  lemma CarriedOn(repo: Repo, p: nat, n: nat, f: Flag, g: Flag)
    requires p < |repo.pkgs| && Carries(repo.pkgs[p], n, f, g)
    ensures NameOf(repo, p, n) && (g != VirtualOnly ==> f != VirtualOnly)
  {
  }

  lemma RuleListed(repo: Repo, q: nat, i: nat)
    requires ValidRepo(repo) && Indexed(repo) && q < |repo.pkgs| && i < |repo.pkgs[q].installIf|
    ensures Listed(repo, repo.pkgs[q].installIf[i].name, q)
  {
    var n := repo.pkgs[q].installIf[i].name;
    assert PackageIn(repo, repo.pkgs[q]);
    assert repo.pkgs[q].name in repo.rinstallIf[n];
    var k :| 0 <= k < |repo.rinstallIf[n]| && repo.rinstallIf[n][k] == repo.pkgs[q].name;
  }

  lemma OwnStands(repo: Repo, a: seq<Bits>, b: seq<Bits>, p: nat)
    requires ValidRepo(repo) && |b| == |repo.pkgs| && p < |repo.pkgs| && Grown(a, b) && On(a[p])
    ensures Stands(repo, b, repo.pkgs[p].name)
    ensures forall i :: 0 <= i < |repo.pkgs[p].provisions| ==> Stands(repo, b, repo.pkgs[p].provisions[i].name)
  {
    assert Within(a[p], b[p]);
    assert NameOf(repo, p, repo.pkgs[p].name);
    forall i | 0 <= i < |repo.pkgs[p].provisions|
      ensures Stands(repo, b, repo.pkgs[p].provisions[i].name)
    {
      assert NameOf(repo, p, repo.pkgs[p].provisions[i].name);
    }
  }

  lemma StandsGrows(repo: Repo, a: seq<Bits>, b: seq<Bits>, n: nat)
    requires |b| == |repo.pkgs| && Grown(a, b) && Stands(repo, a, n)
    ensures Stands(repo, b, n)
  {
    hide NameOf;
    var p :| 0 <= p < |a| && On(a[p]) && NameOf(repo, p, n);
    assert Within(a[p], b[p]);
  }

  lemma TouchedGrows(repo: Repo, a: seq<Bits>, b: seq<Bits>, q: nat)
    requires ValidRepo(repo) && |b| == |repo.pkgs| && q < |repo.pkgs| && Grown(a, b) && Touched(repo, a, q)
    ensures Touched(repo, b, q)
  {
    hide Listed, Stands;
    var n :| Stands(repo, a, n) && Listed(repo, n, q);
    StandsGrows(repo, a, b, n);
  }

  lemma NowTouched(repo: Repo, a: seq<Bits>, b: seq<Bits>, name: nat, i: nat, q: nat)
    requires ValidRepo(repo) && |b| == |repo.pkgs| && q < |repo.pkgs| && Grown(a, b) && Stands(repo, a, name)
    requires name < |repo.rinstallIf| && i < |repo.rinstallIf[name]| && q in repo.providers[repo.rinstallIf[name][i]]
    requires Ruled(repo.pkgs[q])
    ensures Touched(repo, b, q)
  {
    StandsGrows(repo, a, b, name);
    assert Listed(repo, name, q);
  }

  lemma InsideWith(a: seq<Bits>, p: nat, f: Flag, bound: set<(nat, Flag)>)
    requires p < |a| && Inside(a, bound) && (p, f) in bound
    ensures Inside(a[p := With(a[p], f)], bound)
  {
  }

  lemma RuleSeenGrows(repo: Repo, a: seq<Bits>, b: seq<Bits>, q: nat)
    requires ValidRepo(repo) && |a| == |repo.pkgs| && q < |repo.pkgs| && Grown(a, b) && RuleSeen(repo, a, q)
    ensures RuleSeen(repo, b, q)
  {
    hide NameSeen;
    var pkg := repo.pkgs[q];
    assert PackageIn(repo, pkg);
    SeenGrows(repo, a, b, pkg.name, InstallIf);
    forall i | 0 <= i < |pkg.provisions|
      ensures NameSeen(repo, b, pkg.provisions[i].name, InstallIf)
    {
      SeenGrows(repo, a, b, pkg.provisions[i].name, InstallIf);
    }
  }

  /** A newly flagged package can complete a rule, or touch it, only through one of its own names. */
  lemma RulesFlagged(repo: Repo, a: seq<Bits>, b: seq<Bits>, names: seq<Bits>, names': seq<Bits>, t: Trail,
                     todo: set<(nat, nat)>, p: nat, f: Flag)
    requires ValidRepo(repo) && Indexed(repo) && |a| == |repo.pkgs| && |names| == |names'| == |repo.providers|
    requires p < |repo.pkgs| && RulesOk(repo, a, names, t, todo) && b == a[p := With(a[p], f)] && Grown(names, names')
    requires forall n, g :: 0 <= n < |names'| && Has(names'[n], g) && !Has(names[n], g) ==> Carries(repo.pkgs[p], n, f, g)
    ensures RulesOk(repo, b, names', t, if f == VirtualOnly then todo else todo + Checks(repo, p))
  {
    hide RuleSeen, Checks, NameOf, Holding, Touched, Carries, Due, Indexed;
    var more := if f == VirtualOnly then todo else todo + Checks(repo, p);
    forall q | 0 <= q < |repo.pkgs|
      ensures RuleOk(repo, b, names', t, more, q)
    {
      assert RuleOk(repo, a, names, t, todo, q);
      if q in t.followed {
        RuleSeenGrows(repo, a, b, q);
        GrownTrans(t.followed[q], names, names');
      }
      if Touched(repo, a, q) {
        TouchedGrows(repo, a, b, q);
        if Due(repo, q, todo) {
          DueMore(repo, q, todo, more);
        } else if Holding(repo, names', q) && !Holding(repo, names, q) {
          NewlyHolding(repo, names, names', todo, p, f, q);
        }
      } else if Touched(repo, b, q) {
        NewlyTouched(repo, a, b, todo, p, f, q);
      }
    }
  }

  lemma DueMore(repo: Repo, q: nat, less: set<(nat, nat)>, todo: set<(nat, nat)>)
    requires ValidRepo(repo) && less <= todo && Due(repo, q, less)
    ensures Due(repo, q, todo)
  {
    hide Listed;
  }

  lemma NewlyHolding(repo: Repo, names: seq<Bits>, names': seq<Bits>, todo: set<(nat, nat)>, p: nat, f: Flag, q: nat)
    requires ValidRepo(repo) && Indexed(repo) && |names| == |names'| == |repo.providers| && p < |repo.pkgs| && q < |repo.pkgs|
    requires Grown(names, names') && !Holding(repo, names, q) && Holding(repo, names', q)
    requires forall n, g :: 0 <= n < |names'| && Has(names'[n], g) && !Has(names[n], g) ==> Carries(repo.pkgs[p], n, f, g)
    ensures f != VirtualOnly && Due(repo, q, todo + Checks(repo, p))
  {
    hide Carries, Listed, Checks, NameOf;
    var rule := repo.pkgs[q].installIf;
    var i :| 0 <= i < |rule| && rule[i].conflict == On(names[rule[i].name]);
    assert PackageIn(repo, repo.pkgs[q]);
    var n := rule[i].name;
    assert Within(names[n], names'[n]);
    var g := if Has(names'[n], Present) then Present else InstallIf;
    CarriedOn(repo, p, n, f, g);
    CheckMade(repo, p, n, q);
    RuleListed(repo, q, i);
  }

  lemma NewlyTouched(repo: Repo, a: seq<Bits>, b: seq<Bits>, todo: set<(nat, nat)>, p: nat, f: Flag, q: nat)
    requires ValidRepo(repo) && |a| == |repo.pkgs| && p < |repo.pkgs| && q < |repo.pkgs| && b == a[p := With(a[p], f)]
    requires !Touched(repo, a, q) && Touched(repo, b, q)
    ensures f != VirtualOnly && Due(repo, q, todo + Checks(repo, p))
  {
    hide Listed, Checks, NameOf;
    var n :| Stands(repo, b, n) && Listed(repo, n, q);
    assert !Stands(repo, a, n);
    var r :| 0 <= r < |b| && On(b[r]) && NameOf(repo, r, n);
    assert r == p;
    CheckMade(repo, p, n, q);
  }

  lemma CheckMade(repo: Repo, p: nat, n: nat, q: nat)
    requires p < |repo.pkgs| && q < |repo.pkgs| && NameOf(repo, p, n)
    ensures (n, q) in Checks(repo, p)
  {
    if n != repo.pkgs[p].name {
      var i :| 0 <= i < |repo.pkgs[p].provisions| && repo.pkgs[p].provisions[i].name == n;
      assert repo.pkgs[p].provisions[i] in repo.pkgs[p].provisions;
    }
  }

  /** Looking at more than necessary does no harm. */
  lemma RulesMore(repo: Repo, st: seq<Bits>, names: seq<Bits>, t: Trail, less: set<(nat, nat)>, todo: set<(nat, nat)>)
    requires ValidRepo(repo) && |st| == |repo.pkgs| && |names| == |repo.providers|
    requires RulesOk(repo, st, names, t, less) && less <= todo
    ensures RulesOk(repo, st, names, t, todo)
  {
    hide RuleSeen, Holding, Touched, Due;
    forall q | 0 <= q < |repo.pkgs|
      ensures RuleOk(repo, st, names, t, todo, q)
    {
      assert RuleOk(repo, st, names, t, less, q);
      if Due(repo, q, less) {
        DueMore(repo, q, less, todo);
      }
    }
  }

  /** What is left of the checks of a package once its first names have been dealt with. */
  ghost predicate LeftFrom(repo: Repo, p: nat, todo: set<(nat, nat)>, more: set<(nat, nat)>, i: nat)
    requires p < |repo.pkgs| && i <= |repo.pkgs[p].provisions|
  {
    forall t :: t in more && t !in todo ==>
      exists k :: i <= k < |repo.pkgs[p].provisions| && repo.pkgs[p].provisions[k].name == t.0
  }

  lemma ChecksLeft(repo: Repo, p: nat, todo: set<(nat, nat)>, more: set<(nat, nat)>)
    requires p < |repo.pkgs| && more == Forgotten(todo + Checks(repo, p), repo.pkgs[p].name)
    ensures LeftFrom(repo, p, todo, more, 0)
  {
    forall t | t in more && t !in todo
      ensures exists k :: 0 <= k < |repo.pkgs[p].provisions| && repo.pkgs[p].provisions[k].name == t.0
    {
      var d :| d in repo.pkgs[p].provisions && d.name == t.0;
    }
  }

  lemma LeftNext(repo: Repo, p: nat, todo: set<(nat, nat)>, more: set<(nat, nat)>, i: nat)
    requires p < |repo.pkgs| && i < |repo.pkgs[p].provisions| && LeftFrom(repo, p, todo, more, i)
    ensures LeftFrom(repo, p, todo, Forgotten(more, repo.pkgs[p].provisions[i].name), i + 1)
  {
  }

  lemma LeftNone(repo: Repo, p: nat, todo: set<(nat, nat)>, more: set<(nat, nat)>)
    requires p < |repo.pkgs| && LeftFrom(repo, p, todo, more, |repo.pkgs[p].provisions|)
    ensures more <= todo
  {
  }

  predicate ProvidersSeen(repo: Repo, n: nat, seen: set<nat>)
    requires n < |repo.providers|
  {
    forall j :: 0 <= j < |repo.providers[n]| ==> repo.providers[n][j] in seen
  }

  /** All providers of the first i names with rules on the name have been looked at. */
  predicate SeenAll(repo: Repo, name: nat, i: nat, seen: set<nat>)
    requires ValidRepo(repo) && name < |repo.providers| && i <= |repo.rinstallIf[name]|
  {
    forall k :: 0 <= k < i ==> ProvidersSeen(repo, repo.rinstallIf[name][k], seen)
  }

  lemma DroppedNone(todo: set<(nat, nat)>, name: nat)
    ensures Dropped(todo, name, {}) == todo
  {
  }

  /** A rule that was followed, or did not apply, need not be looked at again for this name. */
  lemma RuleDone(repo: Repo, st: seq<Bits>, names: seq<Bits>, t: Trail, todo: set<(nat, nat)>, name: nat, seen: set<nat>,
                 q: nat, follows: bool, earlier: seq<Bits>)
    requires ValidRepo(repo) && |st| == |repo.pkgs| && |names| == |repo.providers| && q < |repo.pkgs|
    requires RulesOk(repo, st, names, t, Dropped(todo, name, seen))
    requires Ruled(repo.pkgs[q]) ==> Touched(repo, st, q)
    requires if follows then Ruled(repo.pkgs[q]) && RuleSeen(repo, st, q) && Grown(earlier, names) && Holding(repo, earlier, q)
             else Ruled(repo.pkgs[q]) ==> !Holding(repo, names, q)
    ensures RulesOk(repo, st, names, After(t, repo.pkgs[q], q, follows, earlier), Dropped(todo, name, seen + {q}))
  {
    hide RuleSeen, Holding, Due, Dropped, Stands, Listed;
    var t' := After(t, repo.pkgs[q], q, follows, earlier);
    forall r | 0 <= r < |repo.pkgs|
      ensures RuleOk(repo, st, names, t', Dropped(todo, name, seen + {q}), r)
    {
      assert RuleOk(repo, st, names, t, Dropped(todo, name, seen), r);
      if r != q && Due(repo, r, Dropped(todo, name, seen)) {
        DueOther(repo, r, todo, name, seen, q);
      }
    }
  }

  lemma DueOther(repo: Repo, r: nat, todo: set<(nat, nat)>, name: nat, seen: set<nat>, q: nat)
    requires ValidRepo(repo) && r != q && Due(repo, r, Dropped(todo, name, seen))
    ensures Due(repo, r, Dropped(todo, name, seen + {q}))
  {
    hide Listed;
    var n :| (n, r) in Dropped(todo, name, seen) && Listed(repo, n, r);
    assert (n, r) in Dropped(todo, name, seen + {q});
  }

  /** The index leads to no other packages on account of the name. */
  lemma AllDropped(repo: Repo, st: seq<Bits>, names: seq<Bits>, t: Trail, todo: set<(nat, nat)>, name: nat, seen: set<nat>)
    requires ValidRepo(repo) && |st| == |repo.pkgs| && |names| == |repo.providers| && name < |repo.providers|
    requires RulesOk(repo, st, names, t, Dropped(todo, name, seen)) && SeenAll(repo, name, |repo.rinstallIf[name]|, seen)
    ensures RulesOk(repo, st, names, t, Forgotten(todo, name))
  {
    hide RuleSeen, Holding, Due, Touched;
    forall q | 0 <= q < |repo.pkgs|
      ensures RuleOk(repo, st, names, t, Forgotten(todo, name), q)
    {
      assert RuleOk(repo, st, names, t, Dropped(todo, name, seen), q);
      if Due(repo, q, Dropped(todo, name, seen)) {
        DueElsewhere(repo, q, todo, name, seen);
      }
    }
  }

  lemma DueElsewhere(repo: Repo, q: nat, todo: set<(nat, nat)>, name: nat, seen: set<nat>)
    requires ValidRepo(repo) && name < |repo.providers| && Due(repo, q, Dropped(todo, name, seen))
    requires SeenAll(repo, name, |repo.rinstallIf[name]|, seen)
    ensures Due(repo, q, Forgotten(todo, name))
  {
    hide Listed;
    ListedSeen(repo, q, name, seen);
    var n :| (n, q) in Dropped(todo, name, seen) && Listed(repo, n, q);
    assert (n, q) in Forgotten(todo, name);
  }

  lemma ListedSeen(repo: Repo, q: nat, name: nat, seen: set<nat>)
    requires ValidRepo(repo) && name < |repo.providers| && SeenAll(repo, name, |repo.rinstallIf[name]|, seen)
    ensures Listed(repo, name, q) ==> q in seen
  {
    if Listed(repo, name, q) {
      var i :| 0 <= i < |repo.rinstallIf[name]| && q in repo.providers[repo.rinstallIf[name][i]];
      assert ProvidersSeen(repo, repo.rinstallIf[name][i], seen);
    }
  }

  lemma OwnNames(repo: Repo, p: nat, f: Flag)
    requires ValidRepo(repo) && p < |repo.pkgs|
    ensures PackageIn(repo, repo.pkgs[p]) && Carries(repo.pkgs[p], repo.pkgs[p].name, f, f)
    ensures forall i :: 0 <= i < |repo.pkgs[p].provisions| ==>
              Carries(repo.pkgs[p], repo.pkgs[p].provisions[i].name, f, Provided(repo.pkgs[p].provisions[i], f))
  {
  }

  lemma FlagNamed(repo: Repo, st: seq<Bits>, st': seq<Bits>, names: seq<Bits>, names': seq<Bits>, p: nat, f: Flag)
    requires ValidRepo(repo) && |st| == |repo.pkgs| && |names| == |names'| == |repo.providers| && p < |repo.pkgs|
    requires st' == st[p := With(st[p], f)]
    requires repo.pkgs[p].marked && Grown(names, names') && forall q :: 0 <= q < |st| ==> Named(repo, names, q, st[q])
    requires Has(names'[repo.pkgs[p].name], f)
    requires forall k :: 0 <= k < |repo.pkgs[p].provisions| ==>
              Has(names'[repo.pkgs[p].provisions[k].name], Provided(repo.pkgs[p].provisions[k], f))
    ensures forall q :: 0 <= q < |st'| ==> Named(repo, names', q, st'[q])
  {
    hide Named, With;
    forall q | 0 <= q < |st'|
      ensures Named(repo, names', q, st'[q])
    {
      NamedGrows(repo, names, names', q, st[q]);
      if q == p {
        NamedWith(repo, names', p, st[p], f);
      }
    }
  }

  lemma SourcedWith(repo: Repo, st: seq<Bits>, st': seq<Bits>, names: seq<Bits>, names': seq<Bits>, p: nat, f: Flag)
    requires |st| == |repo.pkgs| && p < |st| && st' == st[p := With(st[p], f)]
    requires Sourced(repo, st, names) && |names| == |names'|
    requires forall n, g :: 0 <= n < |names'| && Has(names'[n], g) && !Has(names[n], g) ==> Carries(repo.pkgs[p], n, f, g)
    ensures Sourced(repo, st', names')
  {
    hide Carries;
    forall n, g | 0 <= n < |names'| && Has(names'[n], g)
      ensures Given(repo, st', n, g)
    {
      if Has(names[n], g) {
        assert Given(repo, st, n, g);
        var q, e :| 0 <= q < |st| && Has(st[q], e) && Carries(repo.pkgs[q], n, e, g);
        assert Has(st'[q], e);
      } else {
        assert Has(st'[p], f) && Carries(repo.pkgs[p], n, f, g);
      }
    }
  }

  lemma NamedWith(repo: Repo, names: seq<Bits>, p: nat, b: Bits, f: Flag)
    requires ValidRepo(repo) && |names| == |repo.providers| && p < |repo.pkgs| && repo.pkgs[p].marked
    requires Named(repo, names, p, b) && Has(names[repo.pkgs[p].name], f)
    requires forall k :: 0 <= k < |repo.pkgs[p].provisions| ==>
              Has(names[repo.pkgs[p].provisions[k].name], Provided(repo.pkgs[p].provisions[k], f))
    ensures Named(repo, names, p, With(b, f))
  {
    forall g | Has(With(b, f), g)
      ensures g == f || Has(b, g)
    {
    }
  }

  lemma GrownSame(a: seq<Bits>)
    ensures Grown(a, a)
  {
  }

  lemma GrownTrans(a: seq<Bits>, b: seq<Bits>, c: seq<Bits>)
    requires Grown(a, b) && Grown(b, c)
    ensures Grown(a, c)
  {
    forall i | 0 <= i < |a| ensures Within(a[i], c[i]) {
      assert Within(a[i], b[i]) && Within(b[i], c[i]);
    }
  }

  lemma FlagShrinks(a: seq<Bits>, p: nat, f: Flag)
    requires p < |a| && !Has(a[p], f)
    ensures var b := a[p := With(a[p], f)];
            Grown(a, b) && Room(b) < Room(a) && Has(b[p], f) && b[p] != NONE
  {
    var b := a[p := With(a[p], f)];
    assert a[p] != b[p];
    RoomShrinks(a, b);
  }

  /** A newly flagged package counts as at work. */
  lemma FlagOpens(repo: Repo, a: seq<Bits>, p: nat, f: Flag, open: set<nat>)
    requires ValidRepo(repo) && |a| == |repo.pkgs| && p < |a| && !Has(a[p], f) && ClosedExcept(repo, a, open)
    ensures ClosedExcept(repo, a[p := With(a[p], f)], open + {p})
  {
    hide DepsSeen;
    var b := a[p := With(a[p], f)];
    FlagShrinks(a, p, f);
    forall q | 0 <= q < |b| && b[q] != NONE && q !in open + {p}
      ensures DepsSeen(repo, b, repo.pkgs[q].depends)
    {
      DepsSeenGrows(repo, a, b, repo.pkgs[q].depends);
    }
  }

  lemma SomeSeenGrows(repo: Repo, a: seq<Bits>, b: seq<Bits>, name: nat, want: Flag, n: nat)
    requires ValidRepo(repo) && |a| == |repo.pkgs| && name < |repo.providers| && n <= |repo.providers[name]|
    requires Grown(a, b) && forall k :: 0 <= k < n ==> ProviderSeen(repo, a, name, want, k)
    ensures forall k :: 0 <= k < n ==> ProviderSeen(repo, b, name, want, k)
  {
    forall k | 0 <= k < n
      ensures ProviderSeen(repo, b, name, want, k)
    {
      assert ProviderSeen(repo, a, name, want, k);
      assert Within(a[repo.providers[name][k]], b[repo.providers[name][k]]);
    }
  }

  lemma NamedGrows(repo: Repo, a: seq<Bits>, b: seq<Bits>, p: nat, bits: Bits)
    requires ValidRepo(repo) && |a| == |repo.providers| && p < |repo.pkgs| && Grown(a, b)
    requires Named(repo, a, p, bits)
    ensures Named(repo, b, p, bits)
  {
    var pkg := repo.pkgs[p];
    assert Within(a[pkg.name], b[pkg.name]);
    forall i, f | 0 <= i < |pkg.provisions| && Has(bits, f)
      ensures Has(b[pkg.provisions[i].name], Provided(pkg.provisions[i], f))
    {
      assert Has(a[pkg.provisions[i].name], Provided(pkg.provisions[i], f));
      assert Within(a[pkg.provisions[i].name], b[pkg.provisions[i].name]);
    }
  }

  /** A rule that only names conflicts and is not touched: here nothing is wanted, the rule holds in
      the end, and it has not been followed. */
  method ConflictsOnly() returns (repo: Repo, st: seq<Bits>, names: seq<Bits>)
    ensures ValidRepo(repo) && |st| == |repo.pkgs| == 1 && |names| == |repo.providers|
    ensures Ruled(repo.pkgs[0]) && Holding(repo, names, 0) && !RuleSeen(repo, st, 0)
  {
    repo := Repo([Package(0, [], [], [Dep(1, true)], 0, true)], [[0], []], [[], [0]]);
    var w := new Walk(repo);
    w.Discover([], {});
    st, names := w.pkgState, w.nameState;
    assert !Has(st[0], Present) && !Has(st[0], InstallIf) && !Has(st[0], VirtualOnly);
    assert !Given(repo, st, 1, Present) && !Given(repo, st, 1, InstallIf);
    assert !ProviderSeen(repo, st, 0, InstallIf, 0);
  }

  const CONFLICT := Repo([
      Package(0, [], [], [], 0, true),
      Package(1, [], [Provide(3, false)], [Dep(0, false)], 0, true),
      Package(2, [], [], [Dep(3, true)], 0, true)],
    [[0], [1], [2], [1]], [[1, 3], [], [], [2]])

  const REACHED := {(0, Present), (1, InstallIf), (1, VirtualOnly), (2, InstallIf)}

  lemma ConflictRepo()
    ensures ValidRepo(CONFLICT) && Indexed(CONFLICT)
  {
  }

  lemma ConflictNames()
    requires ValidRepo(CONFLICT)
    ensures NamesBound(CONFLICT, 1, REACHED) && NamesBound(CONFLICT, 2, REACHED)
    ensures DepsBound(CONFLICT, [Dep(0, false)], REACHED)
  {
    assert CONFLICT.pkgs[1].provisions == [Provide(3, false)] && CONFLICT.pkgs[2].provisions == [];
    assert ProviderIn(CONFLICT, 0, Present, 0, REACHED);
    assert ProviderIn(CONFLICT, 1, InstallIf, 0, REACHED) && ProviderIn(CONFLICT, 3, InstallIf, 0, REACHED);
    assert ProviderIn(CONFLICT, 2, InstallIf, 0, REACHED);
  }

  lemma ConflictReverse(n: nat)
    requires ValidRepo(CONFLICT) && n < 4
    ensures ReverseBound(CONFLICT, n, REACHED)
  {
    hide NamesBound, DepsBound;
    ConflictNames();
    assert !Ruled(CONFLICT.pkgs[0]);
  }

  lemma ConflictBound()
    requires ValidRepo(CONFLICT)
    ensures ClosedSet(CONFLICT, REACHED)
  {
    hide ReverseBound;
    ConflictReverse(0);
    ConflictReverse(1);
    ConflictReverse(2);
    ConflictReverse(3);
  }

  lemma FirstRule(st: seq<Bits>, names: seq<Bits>)
    requires ValidRepo(CONFLICT) && |st| == 3 && |names| == 4 && DepsSeen(CONFLICT, st, [Dep(0, false)])
    requires Named(CONFLICT, names, 0, st[0])
    ensures Asking(CONFLICT.pkgs[1]) && Holding(CONFLICT, names, 1)
  {
    var world := [Dep(0, false)];
    assert NameSeen(CONFLICT, st, world[0].name, Present);
    assert ProviderSeen(CONFLICT, st, 0, Present, 0);
    assert !CONFLICT.pkgs[1].installIf[0].conflict;
  }

  lemma NotThere(st: seq<Bits>, names: seq<Bits>)
    requires |st| == 3 && |names| == 4 && Sourced(CONFLICT, st, names) && Inside(st, REACHED)
    ensures !On(names[3])
  {
    assert !Has(st[1], Present);
    assert !Given(CONFLICT, st, 3, Present) && !Given(CONFLICT, st, 3, InstallIf);
    assert !Has(names[3], Present) && !Has(names[3], InstallIf);
  }

  lemma SecondRule(st: seq<Bits>, names: seq<Bits>)
    requires ValidRepo(CONFLICT) && |st| == 3 && |names| == 4 && !On(names[3]) && RuleSeen(CONFLICT, st, 1)
    ensures !Asking(CONFLICT.pkgs[2]) && Holding(CONFLICT, names, 2) && Touched(CONFLICT, st, 2)
  {
    assert ProviderSeen(CONFLICT, st, 1, InstallIf, 0);
    assert NameOf(CONFLICT, 1, 3) by {
      assert CONFLICT.pkgs[1].provisions[0].name == 3;
    }
    assert Stands(CONFLICT, st, 3);
    assert 2 in CONFLICT.providers[CONFLICT.rinstallIf[3][0]];
    assert Listed(CONFLICT, 3, 2);
  }

  lemma LastSeen(st: seq<Bits>)
    requires ValidRepo(CONFLICT) && |st| == 3 && RuleSeen(CONFLICT, st, 2) && Inside(st, REACHED)
    ensures st[2] == Bits(false, true, false)
  {
    assert ProviderSeen(CONFLICT, st, 2, InstallIf, 0);
    assert !Has(st[2], Present) && !Has(st[2], VirtualOnly);
  }

  /** A rule that only names a conflict and is touched: package 0 is wanted and brings in package 1,
      which provides name 3, but only virtually. The rule of package 2, which conflicts with that
      name, holds in the end and has been followed. */
  method ConflictsFollowed() returns (st: seq<Bits>, names: seq<Bits>)
    ensures |st| == 3 && |names| == 4 && !Asking(CONFLICT.pkgs[2]) && Holding(CONFLICT, names, 2)
    ensures st[2] == Bits(false, true, false)
  {
    hide ClosedSet, DepsBound, Indexed, ValidRepo, DepsSeen, Named, Asking, Holding, Touched, RuleSeen, Inside, Sourced;
    ConflictRepo();
    ConflictNames();
    ConflictBound();
    var w := new Walk(CONFLICT);
    w.Discover([Dep(0, false)], REACHED);
    st, names := w.pkgState, w.nameState;
    FirstRule(st, names);
    NotThere(st, names);
    SecondRule(st, names);
    LastSeen(st);
  }
}
