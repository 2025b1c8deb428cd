/**
 The reverse-dependency index: built in one pass when the database is opened, and
 kept up when packages are added later.
 */
module ReverseDeps {
  import opened Packages

  datatype Package = Package(name: nat, depends: seq<Dep>, installIf: seq<Dep>, provisions: seq<nat>)

  /** Scratch bits of a name during the pass. */
  datatype Flags = Flags(dep: bool, iif: bool)

  const CLEAR := Flags(false, false)
  const TOUCH_MAX: nat := 128

  // ---- The definition ----------------------------------------------------------------------------

  function NamesIn(deps: seq<Dep>): set<nat> { set d | d in deps :: d.name }

  function HardNamesIn(deps: seq<Dep>): set<nat> { set d | d in deps && !d.conflict :: d.name }

  /** The names some of the packages depend on. */
  function DepsOf(pkgs: seq<Package>, ps: seq<nat>): set<nat>
  {
    if ps == [] then {}
    else
      var n := |ps| - 1;
      DepsOf(pkgs, ps[..n]) + if ps[n] < |pkgs| then NamesIn(pkgs[ps[n]].depends) else {}
  }

  /** The names some of the packages have install-if rules on. */
  function IifsOf(pkgs: seq<Package>, ps: seq<nat>): set<nat>
  {
    if ps == [] then {}
    else
      var n := |ps| - 1;
      IifsOf(pkgs, ps[..n]) + if ps[n] < |pkgs| then NamesIn(pkgs[ps[n]].installIf) else {}
  }

  predicate NoRepeat(s: seq<nat>) { forall i, j :: 0 <= i < j < |s| ==> s[i] != s[j] }

  /** A list of names, each once, of exactly those of the first k names that have a provider
      which depends on r. */
  ghost predicate DepList(s: seq<nat>, pkgs: seq<Package>, providers: seq<seq<nat>>, r: nat, k: nat)
  {
    NoRepeat(s) && forall n :: n in s <==> 0 <= n < k && n < |providers| && r in DepsOf(pkgs, providers[n])
  }

  ghost predicate IifList(s: seq<nat>, pkgs: seq<Package>, providers: seq<seq<nat>>, r: nat, k: nat)
  {
    NoRepeat(s) && forall n :: n in s <==> 0 <= n < k && n < |providers| && r in IifsOf(pkgs, providers[n])
  }

  function HardOf(pkgs: seq<Package>, ps: seq<nat>): set<nat>
  {
    if ps == [] then {}
    else
      var n := |ps| - 1;
      HardOf(pkgs, ps[..n]) + if ps[n] < |pkgs| then HardNamesIn(pkgs[ps[n]].depends) else {}
  }

  /** Some package needs the name. */
  ghost predicate Needed(pkgs: seq<Package>, r: nat)
  {
    exists p :: 0 <= p < |pkgs| && r in HardNamesIn(pkgs[p].depends)
  }

  function HardUpTo(pkgs: seq<Package>, providers: seq<seq<nat>>, k: nat): set<nat>
    requires k <= |providers|
  {
    if k == 0 then {} else HardUpTo(pkgs, providers, k - 1) + HardOf(pkgs, providers[k - 1])
  }

  lemma {:induction false} DepsOfMember(pkgs: seq<Package>, ps: seq<nat>, r: nat)
    ensures r in DepsOf(pkgs, ps) <==>
            exists i :: 0 <= i < |ps| && ps[i] < |pkgs| && r in NamesIn(pkgs[ps[i]].depends)
  {
    if ps != [] {
      var n := |ps| - 1;
      DepsOfMember(pkgs, ps[..n], r);
      if r in DepsOf(pkgs, ps[..n]) {
        var i :| 0 <= i < n && ps[..n][i] < |pkgs| && r in NamesIn(pkgs[ps[..n][i]].depends);
        assert ps[i] == ps[..n][i];
      }
      if i :| 0 <= i < |ps| && ps[i] < |pkgs| && r in NamesIn(pkgs[ps[i]].depends) {
        if i < n {
          assert ps[..n][i] == ps[i];
        }
      }
    }
  }

  lemma {:induction false} IifsOfMember(pkgs: seq<Package>, ps: seq<nat>, r: nat)
    ensures r in IifsOf(pkgs, ps) <==>
            exists i :: 0 <= i < |ps| && ps[i] < |pkgs| && r in NamesIn(pkgs[ps[i]].installIf)
  {
    if ps != [] {
      var n := |ps| - 1;
      IifsOfMember(pkgs, ps[..n], r);
      if r in IifsOf(pkgs, ps[..n]) {
        var i :| 0 <= i < n && ps[..n][i] < |pkgs| && r in NamesIn(pkgs[ps[..n][i]].installIf);
        assert ps[i] == ps[..n][i];
      }
      if i :| 0 <= i < |ps| && ps[i] < |pkgs| && r in NamesIn(pkgs[ps[i]].installIf) {
        if i < n {
          assert ps[..n][i] == ps[i];
        }
      }
    }
  }

  predicate PackageOk(numNames: nat, p: Package)
  {
    && p.name < numNames
    && (forall i :: 0 <= i < |p.depends| ==> p.depends[i].name < numNames)
    && (forall i :: 0 <= i < |p.installIf| ==> p.installIf[i].name < numNames)
    && (forall i :: 0 <= i < |p.provisions| ==> p.provisions[i] < numNames)
  }

  /** Everything is in range, and every package provides its own name. */
  predicate RepoOk(numNames: nat, pkgs: seq<Package>, providers: seq<seq<nat>>)
  {
    && |providers| == numNames
    && (forall p :: 0 <= p < |pkgs| ==> PackageOk(numNames, pkgs[p]))
    && (forall n, i :: 0 <= n < numNames && 0 <= i < |providers[n]| ==> providers[n][i] < |pkgs|)
    && (forall p :: 0 <= p < |pkgs| ==> p in providers[pkgs[p].name])
  }

  /** The name has been appended to exactly the lists in the set. */
  predicate Appended(before: seq<seq<nat>>, now: seq<seq<nat>>, name: nat, at: set<nat>)
  {
    |before| == |now| && forall r :: 0 <= r < |now| ==> now[r] == if r in at then before[r] + [name] else before[r]
  }

  predicate Raised(before: seq<bool>, now: seq<bool>, at: set<nat>)
  {
    |before| == |now| && forall r :: 0 <= r < |now| ==> now[r] == (before[r] || r in at)
  }

  predicate Bits(flags: seq<Flags>, d: set<nat>, i: set<nat>)
  {
    forall r :: 0 <= r < |flags| ==> flags[r] == Flags(r in d, r in i)
  }

  lemma AppendOne(before: seq<seq<nat>>, now: seq<seq<nat>>, name: nat, at: set<nat>, r: nat)
    requires Appended(before, now, name, at) && r < |now|
    ensures Appended(before, if r in at then now else now[r := now[r] + [name]], name, at + {r})
  {
  }

  lemma RaiseOne(before: seq<bool>, now: seq<bool>, at: set<nat>, r: nat, up: bool)
    requires Raised(before, now, at) && r < |now|
    ensures Raised(before, now[r := now[r] || up], if up then at + {r} else at)
  {
  }

  lemma BitsOne(flags: seq<Flags>, d: set<nat>, i: set<nat>, r: nat)
    requires Bits(flags, d, i) && r < |flags|
    ensures flags[r] == Flags(r in d, r in i)
    ensures Bits(flags[r := flags[r].(dep := true)], d + {r}, i) && Bits(flags[r := flags[r].(iif := true)], d, i + {r})
    ensures r in d ==> Bits(flags, d + {r}, i)
    ensures r in i ==> Bits(flags, d, i + {r})
  {
  }

  class NameDb {
    const numNames: nat
    var pkgs: seq<Package>
    var providers: seq<seq<nat>>
    var rdepends: seq<seq<nat>>
    var rinstallIf: seq<seq<nat>>
    var isDependency: seq<bool>
    var flags: seq<Flags>
    var openComplete: bool

    ghost predicate Tables()
      reads this
    {
      && RepoOk(numNames, pkgs, providers)
      && |providers| == |rdepends| == |rinstallIf| == |isDependency| == |flags| == numNames
    }

    ghost predicate AllClear()
      reads this
    {
      forall n :: 0 <= n < |flags| ==> flags[n] == CLEAR
    }

    /** Before the database is open, the index is empty. */
    ghost predicate Blank()
      reads this
    {
      && Tables() && AllClear() && !openComplete
      && forall n :: 0 <= n < numNames ==> rdepends[n] == [] && rinstallIf[n] == [] && !isDependency[n]
    }

    /** The index equals its definition, over the first k names. */
    ghost predicate Covers(k: nat)
      requires k <= numNames
      reads this
    {
      && Tables() && AllClear()
      && (forall r :: 0 <= r < numNames ==>
            && DepList(rdepends[r], pkgs, providers, r, k)
            && IifList(rinstallIf[r], pkgs, providers, r, k)
            && (isDependency[r] <==> r in HardUpTo(pkgs, providers, k)))
    }

    /** The index equals its definition: R.rdepends has N, once, exactly when a provider of N
        depends on R; likewise for install-if rules; and R is a dependency exactly when some
        package needs it. */
    ghost predicate Valid()
      reads this
    {
      && Tables() && AllClear() && openComplete
      && (forall r :: 0 <= r < numNames ==>
            && DepList(rdepends[r], pkgs, providers, r, numNames)
            && IifList(rinstallIf[r], pkgs, providers, r, numNames)
            && (isDependency[r] <==> Needed(pkgs, r)))
    }

    // ---- One name of the pass --------------------------------------------------------------------

    /** Where the pass over one name stands: d, i and h are the names its providers have been
        found to depend on, to have rules on, and to need. */
    ghost predicate Marked(name: nat, rd: seq<seq<nat>>, ri: seq<seq<nat>>, hard: seq<bool>,
                           d: set<nat>, i: set<nat>, h: set<nat>)
      reads this
    {
      && Tables() && Appended(rd, rdepends, name, d) && Appended(ri, rinstallIf, name, i)
      && Raised(hard, isDependency, h) && Bits(flags, d, i)
    }

    /** As long as the list of touched names has not overflowed, it has them all. */
    ghost predicate Listed(touched: seq<nat>, num: nat, names: set<nat>)
    {
      && |touched| <= TOUCH_MAX && (forall k :: 0 <= k < |touched| ==> touched[k] < numNames)
      && (num <= TOUCH_MAX ==> |touched| == num && forall r :: r in names ==> r in touched)
    }

    /** The pass meets a name for the first time in this role, or again. */
    method Touch(r: nat, touched: seq<nat>, num: nat, ghost names: set<nat>) returns (touched': seq<nat>, num': nat)
      requires r < |flags| == numNames && Listed(touched, num, names)
      requires flags[r] == CLEAR <==> r !in names
      ensures Listed(touched', num', names + {r})
    {
      touched', num' := touched, num;
      if flags[r] == CLEAR {
        if num < TOUCH_MAX {
          touched' := touched + [r];
        }
        num' := num + 1;
      }
    }

    method MarkDep(name: nat, dep: Dep, touched: seq<nat>, num: nat,
                   ghost rd: seq<seq<nat>>, ghost ri: seq<seq<nat>>, ghost hard: seq<bool>,
                   ghost d: set<nat>, ghost i: set<nat>, ghost h: set<nat>)
        returns (touched': seq<nat>, num': nat)
      requires Marked(name, rd, ri, hard, d, i, h) && Listed(touched, num, d + i) && dep.name < numNames
      modifies this`rdepends, this`isDependency, this`flags
      ensures Marked(name, rd, ri, hard, d + {dep.name}, i, if dep.conflict then h else h + {dep.name})
      ensures Listed(touched', num', d + {dep.name} + i)
    {
      hide Listed, RepoOk, Appended, Raised, Bits;
      var r := dep.name;
      AppendOne(rd, rdepends, name, d, r);
      RaiseOne(hard, isDependency, h, r, !dep.conflict);
      BitsOne(flags, d, i, r);
      isDependency := isDependency[r := isDependency[r] || !dep.conflict];
      touched', num' := touched, num;
      assert d + {r} + i == if r in d then d + i else d + i + {r};
      if !flags[r].dep {
        touched', num' := Touch(r, touched, num, d + i);
        flags := flags[r := flags[r].(dep := true)];
        rdepends := rdepends[r := rdepends[r] + [name]];
      }
    }

    method MarkIif(name: nat, r: nat, touched: seq<nat>, num: nat,
                   ghost rd: seq<seq<nat>>, ghost ri: seq<seq<nat>>, ghost hard: seq<bool>,
                   ghost d: set<nat>, ghost i: set<nat>, ghost h: set<nat>)
        returns (touched': seq<nat>, num': nat)
      requires Marked(name, rd, ri, hard, d, i, h) && Listed(touched, num, d + i) && r < numNames
      modifies this`rinstallIf, this`flags
      ensures Marked(name, rd, ri, hard, d, i + {r}, h)
      ensures Listed(touched', num', d + (i + {r}))
    {
      hide Listed, RepoOk, Appended, Raised, Bits;
      AppendOne(ri, rinstallIf, name, i, r);
      BitsOne(flags, d, i, r);
      touched', num' := touched, num;
      assert d + (i + {r}) == if r in i then d + i else d + i + {r};
      if !flags[r].iif {
        touched', num' := Touch(r, touched, num, d + i);
        flags := flags[r := flags[r].(iif := true)];
        rinstallIf := rinstallIf[r := rinstallIf[r] + [name]];
      }
    }

    /** Both lists of one provider. */
    method MarkPackage(name: nat, p: nat, touched0: seq<nat>, num0: nat,
                       ghost rd: seq<seq<nat>>, ghost ri: seq<seq<nat>>, ghost hard: seq<bool>,
                       ghost d0: set<nat>, ghost i0: set<nat>, ghost h0: set<nat>)
        returns (touched: seq<nat>, num: nat)
      requires Marked(name, rd, ri, hard, d0, i0, h0) && Listed(touched0, num0, d0 + i0) && p < |pkgs|
      modifies this`rdepends, this`rinstallIf, this`isDependency, this`flags
      ensures Marked(name, rd, ri, hard, d0 + NamesIn(pkgs[p].depends), i0 + NamesIn(pkgs[p].installIf),
                     h0 + HardNamesIn(pkgs[p].depends))
      ensures Listed(touched, num, d0 + NamesIn(pkgs[p].depends) + (i0 + NamesIn(pkgs[p].installIf)))
    {
      hide Listed, Appended, Raised, Bits, NamesIn, HardNamesIn;
      touched, num := touched0, num0;
      assert PackageOk(numNames, pkgs[p]);
      var deps, rules := pkgs[p].depends, pkgs[p].installIf;
      ghost var d, i, h := d0, i0, h0;
      NamesNone();
      var k := 0;
      while k < |deps|
        invariant 0 <= k <= |deps|
        invariant d == d0 + NamesIn(deps[..k]) && h == h0 + HardNamesIn(deps[..k])
        invariant Marked(name, rd, ri, hard, d, i, h) && Listed(touched, num, d + i)
      {
        NamesSnoc(deps, k);
        touched, num := MarkDep(name, deps[k], touched, num, rd, ri, hard, d, i, h);
        d, h := d + {deps[k].name}, if deps[k].conflict then h else h + {deps[k].name};
        k := k + 1;
      }
      assert deps[..k] == deps;
      k := 0;
      while k < |rules|
        invariant 0 <= k <= |rules|
        invariant i == i0 + NamesIn(rules[..k])
        invariant Marked(name, rd, ri, hard, d, i, h) && Listed(touched, num, d + i)
      {
        NamesSnoc(rules, k);
        touched, num := MarkIif(name, rules[k].name, touched, num, rd, ri, hard, d, i, h);
        i := i + {rules[k].name};
        k := k + 1;
      }
      assert rules[..k] == rules;
    }

    // ---- Clearing the scratch bits ----------------------------------------------------------------

    /** At most the names in the set still have bits. */
    ghost predicate Only(names: set<nat>)
      reads this
    {
      forall r :: 0 <= r < |flags| && flags[r] != CLEAR ==> r in names
    }

    method ClearTouched(touched: seq<nat>, ghost names: set<nat>)
      requires |flags| == numNames && Only(names) && forall r :: r in names ==> r in touched
      requires forall k :: 0 <= k < |touched| ==> touched[k] < numNames
      modifies this`flags
      ensures |flags| == numNames && AllClear()
    {
      var k := 0;
      while k < |touched|
        invariant 0 <= k <= |touched| && |flags| == numNames
        invariant forall r :: 0 <= r < |flags| && flags[r] != CLEAR ==> r in touched[k..]
      {
        flags := flags[touched[k] := CLEAR];
        assert touched[k..] == [touched[k]] + touched[k + 1..];
        k := k + 1;
      }
    }

    ghost predicate Wiped(names: set<nat>)
      reads this
    {
      forall r :: 0 <= r < |flags| && r in names ==> flags[r] == CLEAR
    }

    method ClearDeps(deps: seq<Dep>, ghost wiped: set<nat>, ghost names: set<nat>)
      requires |flags| == numNames && Wiped(wiped) && Only(names)
      requires forall k :: 0 <= k < |deps| ==> deps[k].name < numNames
      modifies this`flags
      ensures |flags| == numNames && Wiped(wiped + NamesIn(deps)) && Only(names)
    {
      var k := 0;
      while k < |deps|
        invariant 0 <= k <= |deps| && |flags| == numNames && Wiped(wiped + NamesIn(deps[..k])) && Only(names)
      {
        NamesSnoc(deps, k);
        flags := flags[deps[k].name := CLEAR];
        k := k + 1;
      }
      assert deps[..k] == deps;
    }

    /** The list of touched names has overflowed: go over all providers again. */
    method ClearProviders(ps: seq<nat>)
      requires Tables() && Only(DepsOf(pkgs, ps) + IifsOf(pkgs, ps)) && forall i :: 0 <= i < |ps| ==> ps[i] < |pkgs|
      modifies this`flags
      ensures Tables() && AllClear()
    {
      hide NamesIn;
      ghost var names := DepsOf(pkgs, ps) + IifsOf(pkgs, ps);
      var i := 0;
      while i < |ps|
        invariant 0 <= i <= |ps| && Tables() && Only(names)
        invariant Wiped(DepsOf(pkgs, ps[..i]) + IifsOf(pkgs, ps[..i]))
      {
        var pkg := pkgs[ps[i]];
        assert PackageOk(numNames, pkg);
        assert ps[..i + 1][..i] == ps[..i] && ps[..i + 1][i] == ps[i];
        ghost var wiped := DepsOf(pkgs, ps[..i]) + IifsOf(pkgs, ps[..i]);
        ClearDeps(pkg.depends, wiped, names);
        ClearDeps(pkg.installIf, wiped + NamesIn(pkg.depends), names);
        i := i + 1;
      }
      assert ps[..i] == ps;
    }

    /** One name: collects what its providers depend on, records the name there, and leaves no
        scratch bits, however many names were touched. */
    method NameRdepends(name: nat)
      requires name < numNames && Covers(name)
      modifies this`rdepends, this`rinstallIf, this`isDependency, this`flags
      ensures Covers(name + 1)
    {
      hide RepoOk, Listed, Appended, Raised, Bits, DepList, IifList;
      var ps := providers[name];
      var touched: seq<nat>, num: nat := [], 0;
      ghost var rd, ri, hard := rdepends, rinstallIf, isDependency;
      Started(rd, ri, hard, flags, name);
      assert Listed([], 0, {} + {}) by { ListedNone(); }
      ProvidersIn(numNames, pkgs, providers, name);
      var i := 0;
      while i < |ps|
        invariant 0 <= i <= |ps|
        invariant Marked(name, rd, ri, hard, DepsOf(pkgs, ps[..i]), IifsOf(pkgs, ps[..i]), HardOf(pkgs, ps[..i]))
        invariant Listed(touched, num, DepsOf(pkgs, ps[..i]) + IifsOf(pkgs, ps[..i]))
      {
        assert ps[..i + 1][..i] == ps[..i] && ps[..i + 1][i] == ps[i];
        touched, num := MarkPackage(name, ps[i], touched, num, rd, ri, hard,
                                    DepsOf(pkgs, ps[..i]), IifsOf(pkgs, ps[..i]), HardOf(pkgs, ps[..i]));
        i := i + 1;
      }
      assert ps[..i] == ps;
      ghost var d, f := DepsOf(pkgs, ps), IifsOf(pkgs, ps);
      OnlyBits(d, f);
      if num > TOUCH_MAX {
        ClearProviders(ps);
      } else {
        ListedAll(touched, num, d + f);
        ClearTouched(touched, d + f);
      }
      CoversNext(pkgs, providers, name, rd, ri, hard, rdepends, rinstallIf, isDependency);
    }

    lemma ListedNone()
      ensures Listed([], 0, {} + {})
    {
    }

    lemma ListedAll(touched: seq<nat>, num: nat, names: set<nat>)
      requires Listed(touched, num, names) && num <= TOUCH_MAX
      ensures forall r :: r in names ==> r in touched
      ensures forall k :: 0 <= k < |touched| ==> touched[k] < numNames
    {
    }

    lemma OnlyBits(d: set<nat>, i: set<nat>)
      requires Bits(flags, d, i)
      ensures Only(d + i)
    {
    }

    /** Opening the database: one pass over all names. */
    method Open()
      requires Blank()
      modifies this`rdepends, this`rinstallIf, this`isDependency, this`flags, this`openComplete
      ensures Valid()
    {
      hide RepoOk, DepList, IifList, Needed, HardUpTo;
      BlankCovers(pkgs, providers);
      var n := 0;
      while n < numNames
        invariant 0 <= n <= numNames && Covers(n)
      {
        NameRdepends(n);
        n := n + 1;
      }
      openComplete := true;
      forall r | 0 <= r < numNames
        ensures r in HardUpTo(pkgs, providers, numNames) <==> Needed(pkgs, r)
      {
        HardEverywhere(numNames, pkgs, providers, r);
      }
    }

    constructor (numNames: nat)
      ensures Blank() && this.numNames == numNames && pkgs == []
    {
      this.numNames := numNames;
      pkgs, openComplete := [], false;
      providers, rdepends := seq(numNames, _ => []), seq(numNames, _ => []);
      rinstallIf, isDependency := seq(numNames, _ => []), seq(numNames, _ => false);
      flags := seq(numNames, _ => CLEAR);
    }

    // ---- Adding a package -------------------------------------------------------------------------

    /** Enters a package under its own name and all names it provides. */
    method AddProvider(pkg: Package)
      requires RepoOk(numNames, pkgs, providers) && PackageOk(numNames, pkg)
      modifies this`pkgs, this`providers
      ensures RepoOk(numNames, pkgs, providers) && |providers| == numNames && pkgs == old(pkgs) + [pkg]
      ensures forall n :: 0 <= n < numNames ==>
                Entered(old(pkgs), old(providers)[n], providers[n], pkg, n in NamesOf(pkg))
    {
      hide DepsOf, IifsOf, Entered;
      var id := |pkgs|;
      ghost var before := providers;
      pkgs := pkgs + [pkg];
      forall n | 0 <= n < numNames ensures Entered(old(pkgs), before[n], before[n], pkg, false) {
        EnteredNone(old(pkgs), before[n], pkg);
      }
      providers := providers[pkg.name := providers[pkg.name] + [id]];
      EnteredOne(old(pkgs), before[pkg.name], before[pkg.name], pkg, false);
      var i := 0;
      while i < |pkg.provisions|
        invariant 0 <= i <= |pkg.provisions| && |providers| == numNames && pkgs == old(pkgs) + [pkg]
        invariant forall n :: 0 <= n < numNames ==>
                    Entered(old(pkgs), before[n], providers[n], pkg, n == pkg.name || n in pkg.provisions[..i])
      {
        var n := pkg.provisions[i];
        EnteredOne(old(pkgs), before[n], providers[n], pkg, n == pkg.name || n in pkg.provisions[..i]);
        providers := providers[n := providers[n] + [id]];
        assert pkg.provisions[..i + 1] == pkg.provisions[..i] + [n];
        i := i + 1;
      }
      assert pkg.provisions[..i] == pkg.provisions;
      EnteredRepo(numNames, old(pkgs), before, providers, pkg);
      forall n | 0 <= n < numNames
        ensures Entered(old(pkgs), before[n], providers[n], pkg, n in NamesOf(pkg))
      {
        assert (n in NamesOf(pkg)) == (n == pkg.name || n in pkg.provisions);
      }
    }

    /** Adds all names of a package to one list. */
    method AddNames(list: seq<nat>, pkg: Package) returns (r: seq<nat>)
      requires NoRepeat(list)
      ensures NoRepeat(r) && forall n :: n in r <==> n in list || n in NamesOf(pkg)
    {
      r := AddName(list, pkg.name);
      var i := 0;
      while i < |pkg.provisions|
        invariant 0 <= i <= |pkg.provisions| && NoRepeat(r)
        invariant forall n :: n in r <==> n in list || n == pkg.name || n in pkg.provisions[..i]
      {
        r := AddName(r, pkg.provisions[i]);
        assert pkg.provisions[..i + 1] == pkg.provisions[..i] + [pkg.provisions[i]];
        i := i + 1;
      }
      assert pkg.provisions[..i] == pkg.provisions;
    }

    /** The lists of everything the package depends on or has rules on. */
    method PkgRdepends(pkg: Package)
      requires PackageOk(numNames, pkg) && |rdepends| == |rinstallIf| == |isDependency| == numNames
      requires forall r :: 0 <= r < numNames ==> NoRepeat(rdepends[r]) && NoRepeat(rinstallIf[r])
      modifies this`rdepends, this`rinstallIf, this`isDependency
      ensures |rdepends| == |rinstallIf| == |isDependency| == numNames
      ensures Joined(old(rdepends), rdepends, NamesOf(pkg), NamesIn(pkg.depends))
      ensures Joined(old(rinstallIf), rinstallIf, NamesOf(pkg), NamesIn(pkg.installIf))
      ensures Raised(old(isDependency), isDependency, HardNamesIn(pkg.depends))
    {
      hide NoRepeat, NamesOf, Joined, Raised;
      var deps, rules := pkg.depends, pkg.installIf;
      ghost var names := NamesOf(pkg);
      assert NamesIn(deps[..0]) == {} && HardNamesIn(deps[..0]) == {} && NamesIn(rules[..0]) == {};
      JoinedNone(rdepends, names);
      JoinedNone(rinstallIf, names);
      assert Raised(isDependency, isDependency, {}) by { RaisedNone(isDependency); }
      var k := 0;
      while k < |deps|
        invariant 0 <= k <= |deps| && rinstallIf == old(rinstallIf)
        invariant Joined(old(rdepends), rdepends, names, NamesIn(deps[..k]))
        invariant Raised(old(isDependency), isDependency, HardNamesIn(deps[..k]))
        invariant |rdepends| == |isDependency| == numNames
        invariant forall r :: 0 <= r < numNames ==> NoRepeat(rdepends[r])
      {
        var r := deps[k].name;
        NamesSnoc(deps, k);
        RaiseOne(old(isDependency), isDependency, HardNamesIn(deps[..k]), r, !deps[k].conflict);
        isDependency := isDependency[r := isDependency[r] || !deps[k].conflict];
        var list := AddNames(rdepends[r], pkg);
        JoinOne(old(rdepends), rdepends, names, NamesIn(deps[..k]), r, list);
        rdepends := rdepends[r := list];
        k := k + 1;
      }
      assert deps[..k] == deps;
      ghost var rd, hard := rdepends, isDependency;
      k := 0;
      while k < |rules|
        invariant 0 <= k <= |rules| && |rinstallIf| == numNames && rdepends == rd && isDependency == hard
        invariant Joined(old(rinstallIf), rinstallIf, names, NamesIn(rules[..k]))
        invariant forall r :: 0 <= r < numNames ==> NoRepeat(rinstallIf[r])
      {
        var r := rules[k].name;
        NamesSnoc(rules, k);
        var list := AddNames(rinstallIf[r], pkg);
        JoinOne(old(rinstallIf), rinstallIf, names, NamesIn(rules[..k]), r, list);
        rinstallIf := rinstallIf[r := list];
        k := k + 1;
      }
      assert rules[..k] == rules;
    }

    /** A new package: before the database is open it is only entered, afterwards the index is
        brought up to date, and equals its definition again. */
    method PkgAdd(pkg: Package)
      requires PackageOk(numNames, pkg) && (Blank() || Valid())
      modifies this
      ensures pkgs == old(pkgs) + [pkg]
      ensures old(Blank()) ==> Blank()
      ensures old(Valid()) ==> Valid()
    {
      hide RepoOk, DepList, IifList, Needed, Joined, Raised, Entered, NoRepeat, NamesOf;
      ghost var pkgs0, providers0, rd, ri, hard := pkgs, providers, rdepends, rinstallIf, isDependency;
      AddProvider(pkg);
      if openComplete {
        ListsApart(pkgs0, providers0, rd, ri, numNames);
        PkgRdepends(pkg);
        IndexKept(numNames, pkgs0, providers0, providers, pkg, rd, ri, hard, rdepends, rinstallIf, isDependency);
      }
    }
  }

  function NamesOf(pkg: Package): set<nat> { {pkg.name} + set n | n in pkg.provisions }

  method AddName(list: seq<nat>, name: nat) returns (r: seq<nat>)
    requires NoRepeat(list)
    ensures NoRepeat(r) && forall n :: n in r <==> n in list || n == name
  {
    var i := 0;
    while i < |list|
      invariant 0 <= i <= |list| && name !in list[..i]
    {
      if list[i] == name {
        return list;
      }
      i := i + 1;
    }
    r := list + [name];
  }

  /** A package has entered a provider list, possibly more than once, or it has not. */
  ghost predicate Entered(pkgs: seq<Package>, before: seq<nat>, now: seq<nat>, pkg: Package, added: bool)
  {
    var more := pkgs + [pkg];
    && DepsOf(more, now) == DepsOf(pkgs, before) + (if added then NamesIn(pkg.depends) else {})
    && IifsOf(more, now) == IifsOf(pkgs, before) + (if added then NamesIn(pkg.installIf) else {})
    && (forall i :: 0 <= i < |now| ==> now[i] <= |pkgs|)
    && (forall p :: p in before ==> p in now) && (added ==> |pkgs| in now)
  }

  lemma {:induction false} EnteredNone(pkgs: seq<Package>, ps: seq<nat>, pkg: Package)
    requires forall i :: 0 <= i < |ps| ==> ps[i] < |pkgs|
    ensures Entered(pkgs, ps, ps, pkg, false)
  {
    if ps != [] {
      EnteredNone(pkgs, ps[..|ps| - 1], pkg);
    }
  }

  lemma EnteredOne(pkgs: seq<Package>, before: seq<nat>, now: seq<nat>, pkg: Package, added: bool)
    requires Entered(pkgs, before, now, pkg, added)
    ensures Entered(pkgs, before, now + [|pkgs|], pkg, true)
  {
    hide NamesIn;
    var next := now + [|pkgs|];
    assert next[..|next| - 1] == now && (pkgs + [pkg])[|pkgs|] == pkg;
  }

  lemma EnteredRepo(numNames: nat, pkgs: seq<Package>, before: seq<seq<nat>>, now: seq<seq<nat>>, pkg: Package)
    requires RepoOk(numNames, pkgs, before) && PackageOk(numNames, pkg) && |now| == numNames
    requires forall n :: 0 <= n < numNames ==> Entered(pkgs, before[n], now[n], pkg, n == pkg.name || n in pkg.provisions)
    ensures RepoOk(numNames, pkgs + [pkg], now)
  {
    hide DepsOf, IifsOf, NamesIn;
    var more := pkgs + [pkg];
    forall p | 0 <= p < |more|
      ensures PackageOk(numNames, more[p]) && p in now[more[p].name]
    {
      if p < |pkgs| {
        assert p in before[pkgs[p].name] && PackageOk(numNames, pkgs[p]);
        assert Entered(pkgs, before[pkgs[p].name], now[pkgs[p].name], pkg, pkgs[p].name == pkg.name || pkgs[p].name in pkg.provisions);
      } else {
        assert Entered(pkgs, before[pkg.name], now[pkg.name], pkg, pkg.name == pkg.name || pkg.name in pkg.provisions);
      }
    }
  }

  /** The names have joined the list, or they have not. */
  ghost predicate JoinedAt(before: seq<nat>, now: seq<nat>, names: set<nat>, added: bool)
  {
    && (NoRepeat(before) ==> NoRepeat(now))
    && (forall n: nat :: n in now <==> n in before || (added && n in names))
  }

  /** The names have joined exactly the lists in the set. */
  ghost predicate Joined(before: seq<seq<nat>>, now: seq<seq<nat>>, names: set<nat>, at: set<nat>)
  {
    |before| == |now| && forall r :: 0 <= r < |now| ==> JoinedAt(before[r], now[r], names, r in at)
  }

  lemma JoinedNone(lists: seq<seq<nat>>, names: set<nat>)
    ensures Joined(lists, lists, names, {})
  {
  }

  lemma RaisedNone(s: seq<bool>)
    ensures Raised(s, s, {})
  {
  }

  lemma JoinOne(before: seq<seq<nat>>, now: seq<seq<nat>>, names: set<nat>, at: set<nat>, r: nat, list: seq<nat>)
    requires Joined(before, now, names, at) && r < |now| && NoRepeat(list)
    requires forall n :: n in list <==> n in now[r] || n in names
    ensures Joined(before, now[r := list], names, at + {r})
  {
    hide NoRepeat;
    var next := now[r := list];
    forall q | 0 <= q < |next|
      ensures JoinedAt(before[q], next[q], names, q in at + {r})
    {
      assert JoinedAt(before[q], now[q], names, q in at);
      assert q != r ==> (q in at + {r}) == (q in at);
    }
  }

  lemma ListsApart(pkgs: seq<Package>, providers: seq<seq<nat>>, rd: seq<seq<nat>>, ri: seq<seq<nat>>, n: nat)
    requires |rd| == |ri| == n
    requires forall r :: 0 <= r < n ==> DepList(rd[r], pkgs, providers, r, n) && IifList(ri[r], pkgs, providers, r, n)
    ensures forall r :: 0 <= r < n ==> NoRepeat(rd[r]) && NoRepeat(ri[r])
  {
  }

  lemma IndexKept(numNames: nat, pkgs: seq<Package>, before: seq<seq<nat>>, now: seq<seq<nat>>, pkg: Package,
                  rd: seq<seq<nat>>, ri: seq<seq<nat>>, hard: seq<bool>,
                  rd': seq<seq<nat>>, ri': seq<seq<nat>>, hard': seq<bool>)
    requires |before| == |now| == |rd| == |ri| == |hard| == numNames
    requires forall n :: 0 <= n < numNames ==> Entered(pkgs, before[n], now[n], pkg, n in NamesOf(pkg))
    requires forall r :: 0 <= r < numNames ==>
              && DepList(rd[r], pkgs, before, r, numNames) && IifList(ri[r], pkgs, before, r, numNames)
              && (hard[r] <==> Needed(pkgs, r))
    requires Joined(rd, rd', NamesOf(pkg), NamesIn(pkg.depends)) && Joined(ri, ri', NamesOf(pkg), NamesIn(pkg.installIf))
    requires Raised(hard, hard', HardNamesIn(pkg.depends)) && PackageOk(numNames, pkg)
    ensures var more := pkgs + [pkg];
            forall r :: 0 <= r < numNames ==>
              && DepList(rd'[r], more, now, r, numNames) && IifList(ri'[r], more, now, r, numNames)
              && (hard'[r] <==> Needed(more, r))
  {
    hide NoRepeat, DepsOf, IifsOf, NamesIn, HardNamesIn;
    var more := pkgs + [pkg];
    forall n | n in NamesOf(pkg) ensures n < numNames { }
    forall r | 0 <= r < numNames
      ensures DepList(rd'[r], more, now, r, numNames) && IifList(ri'[r], more, now, r, numNames)
      ensures hard'[r] <==> Needed(more, r)
    {
      NeededMore(pkgs, pkg, r);
      assert JoinedAt(rd[r], rd'[r], NamesOf(pkg), r in NamesIn(pkg.depends));
      assert JoinedAt(ri[r], ri'[r], NamesOf(pkg), r in NamesIn(pkg.installIf));
      assert DepList(rd[r], pkgs, before, r, numNames) && IifList(ri[r], pkgs, before, r, numNames);
    }
  }

  lemma NeededMore(pkgs: seq<Package>, pkg: Package, r: nat)
    ensures Needed(pkgs + [pkg], r) <==> Needed(pkgs, r) || r in HardNamesIn(pkg.depends)
  {
    hide HardNamesIn;
    var more := pkgs + [pkg];
    assert more[|pkgs|] == pkg;
    if Needed(pkgs, r) {
      var p :| 0 <= p < |pkgs| && r in HardNamesIn(pkgs[p].depends);
      assert more[p] == pkgs[p];
    }
  }

  lemma BlankCovers(pkgs: seq<Package>, providers: seq<seq<nat>>)
    ensures forall r :: DepList([], pkgs, providers, r, 0) && IifList([], pkgs, providers, r, 0)
    ensures HardUpTo(pkgs, providers, 0) == {}
  {
  }

  lemma ProvidersIn(numNames: nat, pkgs: seq<Package>, providers: seq<seq<nat>>, n: nat)
    requires RepoOk(numNames, pkgs, providers) && n < numNames
    ensures n < |providers| && forall i :: 0 <= i < |providers[n]| ==> providers[n][i] < |pkgs|
  {
  }

  lemma Started(rd: seq<seq<nat>>, ri: seq<seq<nat>>, hard: seq<bool>, flags: seq<Flags>, name: nat)
    requires forall n :: 0 <= n < |flags| ==> flags[n] == CLEAR
    ensures Appended(rd, rd, name, {}) && Appended(ri, ri, name, {}) && Raised(hard, hard, {}) && Bits(flags, {}, {})
  {
  }

  lemma CoversNext(pkgs: seq<Package>, providers: seq<seq<nat>>, name: nat,
                   rd: seq<seq<nat>>, ri: seq<seq<nat>>, hard: seq<bool>,
                   rd': seq<seq<nat>>, ri': seq<seq<nat>>, hard': seq<bool>)
    requires name < |providers| == |rd| == |ri| == |hard|
    requires Appended(rd, rd', name, DepsOf(pkgs, providers[name])) && Appended(ri, ri', name, IifsOf(pkgs, providers[name]))
    requires Raised(hard, hard', HardOf(pkgs, providers[name]))
    requires forall r :: 0 <= r < |rd| ==> DepList(rd[r], pkgs, providers, r, name) && IifList(ri[r], pkgs, providers, r, name)
    requires forall r :: 0 <= r < |rd| ==> (hard[r] <==> r in HardUpTo(pkgs, providers, name))
    ensures forall r :: 0 <= r < |rd'| ==> DepList(rd'[r], pkgs, providers, r, name + 1) && IifList(ri'[r], pkgs, providers, r, name + 1)
    ensures forall r :: 0 <= r < |rd'| ==> (hard'[r] <==> r in HardUpTo(pkgs, providers, name + 1))
  {
    hide DepsOf, IifsOf, HardOf;
    forall r | 0 <= r < |rd'|
      ensures DepList(rd'[r], pkgs, providers, r, name + 1) && IifList(ri'[r], pkgs, providers, r, name + 1)
      ensures hard'[r] <==> r in HardUpTo(pkgs, providers, name + 1)
    {
      assert DepList(rd[r], pkgs, providers, r, name) && IifList(ri[r], pkgs, providers, r, name);
    }
  }

  lemma {:induction false} HardOfMember(pkgs: seq<Package>, ps: seq<nat>, r: nat)
    ensures r in HardOf(pkgs, ps) <==>
            exists i :: 0 <= i < |ps| && ps[i] < |pkgs| && r in HardNamesIn(pkgs[ps[i]].depends)
  {
    if ps != [] {
      var n := |ps| - 1;
      HardOfMember(pkgs, ps[..n], r);
      if r in HardOf(pkgs, ps[..n]) {
        var i :| 0 <= i < n && ps[..n][i] < |pkgs| && r in HardNamesIn(pkgs[ps[..n][i]].depends);
        assert ps[i] == ps[..n][i];
      }
      if i :| 0 <= i < |ps| && ps[i] < |pkgs| && r in HardNamesIn(pkgs[ps[i]].depends) {
        if i < n {
          assert ps[..n][i] == ps[i];
        }
      }
    }
  }

  lemma {:induction false} HardUpToMember(pkgs: seq<Package>, providers: seq<seq<nat>>, k: nat, r: nat)
    requires k <= |providers|
    ensures r in HardUpTo(pkgs, providers, k) <==> exists n :: 0 <= n < k && r in HardOf(pkgs, providers[n])
  {
    if k > 0 {
      HardUpToMember(pkgs, providers, k - 1, r);
    }
  }

  /** Going over all names meets every package, so what is needed anywhere is found. */
  lemma HardEverywhere(numNames: nat, pkgs: seq<Package>, providers: seq<seq<nat>>, r: nat)
    requires RepoOk(numNames, pkgs, providers)
    ensures r in HardUpTo(pkgs, providers, numNames) <==> Needed(pkgs, r)
  {
    hide HardOf, HardUpTo, HardNamesIn;
    HardUpToMember(pkgs, providers, numNames, r);
    if r in HardUpTo(pkgs, providers, numNames) {
      var n :| 0 <= n < numNames && r in HardOf(pkgs, providers[n]);
      HardOfMember(pkgs, providers[n], r);
    }
    if Needed(pkgs, r) {
      var p :| 0 <= p < |pkgs| && r in HardNamesIn(pkgs[p].depends);
      var n := pkgs[p].name;
      assert p in providers[n] && PackageOk(numNames, pkgs[p]);
      var i :| 0 <= i < |providers[n]| && providers[n][i] == p;
      HardOfMember(pkgs, providers[n], r);
    }
  }

  lemma NamesNone()
    ensures forall deps: seq<Dep> :: NamesIn(deps[..0]) == {} && HardNamesIn(deps[..0]) == {}
  {
  }

  lemma NamesSnoc(deps: seq<Dep>, k: nat)
    requires k < |deps|
    ensures NamesIn(deps[..k + 1]) == NamesIn(deps[..k]) + {deps[k].name}
    ensures HardNamesIn(deps[..k + 1]) == if deps[k].conflict then HardNamesIn(deps[..k]) else HardNamesIn(deps[..k]) + {deps[k].name}
  {
    assert deps[..k + 1] == deps[..k] + [deps[k]];
  }
}
