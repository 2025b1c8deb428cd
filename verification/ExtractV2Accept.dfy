/**
 Which version 2 packages and indexes are accepted: archives with a part of signatures, a control
 part and, of a package, a data part are followed event by event, and the result is told from
 their contents alone.
 */
module ExtractV2Accept {
  import opened Bytes
  import opened ExtractV2

  predicate Dotted(name: string) { name != "" && name[0] == '.' }

  /** The caller knows what to do with everything, and every callback agrees. */
  ghost predicate Agrees(env: Env)
  {
    env.hasMeta && env.hasFile && env.hasIndex && forall log, call :: env.answer(log, call) == 0
  }

  // ---- The parts --------------------------------------------------------------------------------------

  /** Compressed bytes and signature files. */
  ghost predicate Signatures(es: seq<Event>)
  {
    forall i :: 0 <= i < |es| ==> es[i].Data? || (es[i].Entry? && ".SIGN." <= es[i].name && '/' !in es[i].name)
  }

  ghost predicate ControlFile(e: Event)
  {
    e.Entry? && Dotted(e.name) && '/' !in e.name && e.name != ".INSTALL"
  }

  /** Compressed bytes and control files, of which the first is no signature. */
  ghost predicate ControlPart(es: seq<Event>)
  {
    && (forall i :: 0 <= i < |es| ==> es[i].Data? || ControlFile(es[i]))
    && (forall i :: 0 <= i < |es| && es[i].Entry? && !AnyEntry(es[..i]) ==> !(".SIGN." <= es[i].name))
  }

  /** Compressed bytes and any files. */
  ghost predicate DataPart(es: seq<Event>) { forall i :: 0 <= i < |es| ==> es[i].Data? || es[i].Entry? }

  function AnyEntry(es: seq<Event>): bool
  {
    es != [] && (es[|es| - 1].Entry? || AnyEntry(es[..|es| - 1]))
  }

  /** The first signature by a known key. */
  ghost function Choice(env: Env, es: seq<Event>): (r: Option<Event>)
    ensures r.Some? ==> r.value.Entry?
  {
    if es == [] || env.action == VerifyIdentity then None
    else
      var before := Choice(env, es[..|es| - 1]);
      if before.Some? || !Offers(env, es[|es| - 1]) then before else Some(es[|es| - 1])
  }

  /** The checksum of the last .PKGINFO that has one. */
  function LastHash(es: seq<Event>): Option<seq<byte>>
  {
    if es == [] then None
    else
      var e := es[|es| - 1];
      if e.Entry? && e.name == ".PKGINFO" && e.datahash.Some? then e.datahash else LastHash(es[..|es| - 1])
  }

  /** What the caller is told of a control file. */
  function ControlCall(env: Env, e: Event): seq<Call>
    requires e.Entry?
  {
    if e.name == ".PKGINFO" then [MetaCall]
    else if e.name != "" && env.isScript(e.name[1..]) && env.hasScript then [ScriptCall(e.name)]
    else []
  }

  function ControlCalls(env: Env, es: seq<Event>): seq<Call>
  {
    if es == [] then []
    else
      var e := es[|es| - 1];
      ControlCalls(env, es[..|es| - 1]) + if e.Entry? then ControlCall(env, e) else []
  }

  function FileCalls(es: seq<Event>): seq<Call>
  {
    if es == [] then []
    else
      var e := es[|es| - 1];
      FileCalls(es[..|es| - 1]) + if e.Entry? && !Dotted(e.name) then [FileCall(e.name)] else []
  }

  // ---- Following the events ---------------------------------------------------------------------------

  lemma Last(es: seq<Event>) returns (front: seq<Event>, e: Event)
    requires es != []
    ensures front == es[..|es| - 1] && e == es[|es| - 1] && es == front + [e]
  {
    front, e := es[..|es| - 1], es[|es| - 1];
  }

  /** After the signatures: the bytes digested, and the choice of a signature. */
  ghost predicate SignState(env: Env, es: seq<Event>, s: Sign)
  {
    && s == UNSIGNED.(alg := s.alg, key := s.key, sig := s.sig, digest := Compressed(es))
    && Picked(env, es, s)
  }

  ghost predicate Picked(env: Env, es: seq<Event>, s: Sign)
  {
    match Choice(env, es)
    case None => s.key == None && s.alg == 2
    case Some(e) => s.key.Some? && Signs(env, e, s.key.value, s.sig, s.alg)
  }

  lemma {:induction false} SignsFed(env: Env, es: seq<Event>)
    requires Signatures(es)
    ensures var (c, code) := Feed(env, es); code == 0 && c == START.(s := c.s) && SignState(env, es, c.s)
  {
    if es == [] {
      assert Compressed(es) == [];
    } else {
      var front, e := Last(es);
      SignsFed(env, front);
      FeedSnoc(env, front, e);
      SignFed(env, front, e, Feed(env, front).0.s);
    }
  }

  lemma SignFed(env: Env, front: seq<Event>, e: Event, s: Sign)
    requires SignState(env, front, s) && Signatures(front + [e])
    ensures var (c, code) := Step(env, START.(s := s), e);
            code == 0 && c == START.(s := c.s) && SignState(env, front + [e], c.s)
  {
    hide Signature, Offers, Signs, Feed, Step, Compressed;
    var es := front + [e];
    assert es[|front|] == e && es[..|es| - 1] == front;
    BytesSnoc(front, e);
    if e.Entry? {
      SignStep(env, s, e);
      SignatureOnly(env, s, e);
    } else {
      BytesStep(env, START.(s := s), e);
      NoOffer(env, e);
    }
  }

  lemma NoOffer(env: Env, e: Event)
    requires !e.Entry?
    ensures !Offers(env, e)
  {
  }

  lemma BytesSnoc(front: seq<Event>, e: Event)
    ensures Compressed(front + [e]) == Compressed(front) + Fed(e)
    ensures !e.Data? ==> Compressed(front + [e]) == Compressed(front)
  {
    var es := front + [e];
    assert es[..|es| - 1] == front;
    assert Compressed(front) + [] == Compressed(front);
  }

  lemma SignStep(env: Env, s: Sign, e: Event)
    requires e.Entry? && ".SIGN." <= e.name && '/' !in e.name && !s.dataStarted && !s.controlStarted
    ensures Step(env, START.(s := s), e) == (START.(s := Signature(env, s, e)), 0)
  {
    hide Signature;
    assert e.name[..6] == ".SIGN.";
    SignNames(e);
  }

  /** Compressed bytes are digested, and nothing else happens. */
  lemma BytesStep(env: Env, c: Ctx, e: Event)
    requires e.Data? && !c.s.endSeen && !c.s.dataVerified
    ensures var (p, r) := Step(env, c, e);
            && r == 0 && p == c.(s := p.s) && p.s == c.s.(digest := c.s.digest + e.bytes, identity := p.s.identity)
            && (!c.s.controlStarted || c.s.dataStarted ==> p.s.identity == c.s.identity)
  {
  }

  // ---- The control part -----------------------------------------------------------------------------------

  /** After the boundary behind the signatures: a fresh digest, started with the chosen key. */
  ghost predicate Primed(env: Env, signs: seq<Event>, s: Sign)
  {
    && s == UNSIGNED.(alg := s.alg, key := s.key, sig := s.sig, started := s.key.Some?, digestAlg := s.alg)
    && Picked(env, signs, s)
  }

  lemma SignsClosed(env: Env, signs: seq<Event>)
    requires Signatures(signs)
    ensures var (c, code) := Feed(env, signs + [Boundary]); code == 0 && c == START.(s := c.s) && Primed(env, signs, c.s)
  {
    hide Feed, Compressed;
    SignsFed(env, signs);
    FeedSnoc(env, signs, Boundary);
    NoIdentityKey(env, signs);
  }

  lemma NoIdentityKey(env: Env, signs: seq<Event>)
    ensures env.action == VerifyIdentity ==> Choice(env, signs) == None
  {
  }

  /** The state after some of the control part, from the one it started with. */
  ghost function ControlSign(p: Sign, es: seq<Event>, identity: seq<byte>): Sign
  {
    var hash := LastHash(es);
    p.(controlStarted := AnyEntry(es), digest := Compressed(es), identity := identity, hasDataChecksum := hash.Some?,
       alg := if hash.Some? then 3 else p.alg, dataHash := if hash.Some? then hash.value else [])
  }

  ghost function ControlCtx(env: Env, p: Sign, es: seq<Event>, identity: seq<byte>): Ctx
  {
    Ctx(ControlSign(p, es, identity), AnyEntry(es), false, [], ControlCalls(env, es))
  }

  lemma {:induction false} ControlFed(env: Env, h: seq<Event>, signs: seq<Event>, es: seq<Event>) returns (identity: seq<byte>)
    requires Agrees(env) && ControlPart(es) && Feed(env, h) == (START.(s := Feed(env, h).0.s), 0)
    requires Primed(env, signs, Feed(env, h).0.s)
    ensures Feed(env, h + es) == (ControlCtx(env, Feed(env, h).0.s, es, identity), 0)
  {
    hide Feed, Step, Primed, ControlFile;
    var p := Feed(env, h).0.s;
    if es == [] {
      assert h + es == h;
      identity := p.identity;
      PrimedFlags(env, signs, p);
      NothingYet();
    } else {
      var front, e := Last(es);
      assert h + es == (h + front) + [e];
      FrontControl(es);
      var before := ControlFed(env, h, signs, front);
      FeedSnoc(env, h + front, e);
      PrimedFlags(env, signs, p);
      identity := ControlNext(env, p, front, before, e);
    }
  }

  lemma PrimedFlags(env: Env, signs: seq<Event>, p: Sign)
    requires Primed(env, signs, p)
    ensures !p.controlStarted && !p.dataStarted && !p.hasDataChecksum && !p.endSeen && !p.dataVerified
    ensures p.dataHash == [] && p.digest == [] && p.identity == [] && p.verifyError == UNTRUSTED
  {
  }

  lemma FrontControl(es: seq<Event>)
    requires ControlPart(es) && es != []
    ensures ControlPart(es[..|es| - 1])
    ensures var e := es[|es| - 1]; e.Data? || (ControlFile(e) && (!AnyEntry(es[..|es| - 1]) ==> !(".SIGN." <= e.name)))
  {
    hide AnyEntry;
    var front, k := es[..|es| - 1], |es| - 1;
    assert es[..k] == front && (es[k].Data? || ControlFile(es[k]));
    forall i | 0 <= i < |front|
      ensures front[i] == es[i] && front[..i] == es[..i]
    {
    }
  }

  lemma ControlNext(env: Env, p: Sign, front: seq<Event>, before: seq<byte>, e: Event) returns (identity: seq<byte>)
    requires Agrees(env) && !p.dataStarted && !p.endSeen && !p.dataVerified && !p.hasDataChecksum && p.dataHash == []
    requires e.Data? || (ControlFile(e) && (!AnyEntry(front) ==> !(".SIGN." <= e.name)))
    ensures Step(env, ControlCtx(env, p, front, before), e) == (ControlCtx(env, p, front + [e], identity), 0)
  {
    hide Step, Compressed, Dotted;
    var es := front + [e];
    assert es[..|es| - 1] == front && es[|es| - 1] == e;
    BytesSnoc(front, e);
    var c := ControlCtx(env, p, front, before);
    assert c.log + [] == c.log;
    if e.Data? {
      BytesStep(env, c, e);
      identity := Step(env, c, e).0.s.identity;
    } else {
      ControlStep(env, c, e);
      identity := before;
    }
  }

  /** The state after a control file: its checksum is noted, if it has one. */
  function NotedSign(s: Sign, e: Event): Sign
    requires e.Entry?
  {
    if e.name == ".PKGINFO" && e.datahash.Some?
    then s.(controlStarted := true, hasDataChecksum := true, alg := 3, dataHash := e.datahash.value)
    else s.(controlStarted := true)
  }

  lemma ControlStep(env: Env, c: Ctx, e: Event)
    requires Agrees(env) && ControlFile(e) && !c.s.dataStarted && !c.isIndex
    requires !c.s.controlStarted ==> !(".SIGN." <= e.name)
    ensures Step(env, c, e) == (c.(s := NotedSign(c.s, e), isPackage := true, log := c.log + ControlCall(env, e)), 0)
  {
    SortedControl(env, c.s, e);
    hide ProcessFile;
    var d := c.(s := c.s.(controlStarted := true));
    assert ArchiveEntry(env, c, e) == MetaEntry(env, d, e);
    assert d.log + [] == d.log;
  }

  lemma SortedControl(env: Env, s: Sign, e: Event)
    requires ControlFile(e) && !s.dataStarted && (!s.controlStarted ==> !(".SIGN." <= e.name))
    ensures ProcessFile(env, s, e) == (s.(controlStarted := true), 1)
  {
    assert StartsWith(e.name, ".SIGN.") ==> ".SIGN." <= e.name;
  }

  // ---- The check of the control part ------------------------------------------------------------------------

  /** The bytes have the wanted identity, a good signature by the first known key, or are allowed to
      go without. */
  ghost predicate SignedBy(env: Env, signs: seq<Event>, bytes: seq<byte>)
  {
    if env.action == VerifyIdentity then env.wantedAlg == 2 && env.hashOf(2, bytes) == env.wanted
    else match Choice(env, signs)
      case None => env.allowUntrusted
      case Some(e) =>
        exists key, alg :: Signs(env, e, key, e.contents, alg) &&
          (env.verify(key, alg, bytes, e.contents) == 0
           || (env.allowUntrusted && env.verify(key, alg, bytes, e.contents) == UNTRUSTED))
  }

  lemma SignsOnce(env: Env, e: Event, key: nat, sig: seq<byte>, alg: nat, key': nat, sig': seq<byte>, alg': nat)
    requires Signs(env, e, key, sig, alg) && Signs(env, e, key', sig', alg')
    ensures key == key' && sig == sig' == e.contents && alg == alg'
  {
    hide SignatureName, SignatureOf;
    var name :| env.keyByName(name) == Some(key) && SignatureName(e.name, alg, name);
    var name' :| env.keyByName(name') == Some(key') && SignatureName(e.name, alg', name');
    SignatureNamed(e.name, alg, name);
    SignatureNamed(e.name, alg', name');
  }

  lemma ClearedIff(env: Env, signs: seq<Event>, p: Sign, bytes: seq<byte>)
    requires Picked(env, signs, p) && (env.action == VerifyIdentity ==> p.key == None)
    ensures Cleared(env, p, p.alg, bytes) <==> SignedBy(env, signs, bytes)
  {
    hide Signs;
    NoIdentityKey(env, signs);
    var choice := Choice(env, signs);
    if choice.Some? {
      var e := choice.value;
      SignsOnce(env, e, p.key.value, p.sig, p.alg, p.key.value, p.sig, p.alg);
      forall key, alg | Signs(env, e, key, e.contents, alg)
        ensures key == p.key.value && alg == p.alg
      {
        SignsOnce(env, e, p.key.value, p.sig, p.alg, key, e.contents, alg);
      }
    }
  }

  /** An open data section with nothing in it yet. */
  predicate OpenSign(s: Sign, hash: seq<byte>)
  {
    && s.controlStarted && s.dataStarted && s.hasDataChecksum && !s.endSeen && !s.dataVerified
    && s.dataHash == hash && s.digest == [] && s.digestAlg == 3 && s.controlVerified
  }

  /** The verdict on trust that is left behind is the one the result will have. */
  predicate Settles(env: Env, s: Sign) { s.verifyError == 0 || (s.verifyError == UNTRUSTED && env.allowUntrusted) }

  lemma ControlEnd(env: Env, signs: seq<Event>, p: Sign, es: seq<Event>, identity: seq<byte>)
    requires Primed(env, signs, p) && LastHash(es).Some?
    ensures var c := ControlCtx(env, p, es, identity);
            var (q, r) := Step(env, c, Boundary);
            && (r == 0 <==> SignedBy(env, signs, Compressed(es)))
            && (r == 0 ==> q == c.(s := q.s) && OpenSign(q.s, LastHash(es).value) && Settles(env, q.s))
  {
    hide Compressed, Choice, Signs, CheckControl, SignedBy, Proven, Tolerated;
    HashEntry(es);
    NoIdentityKey(env, signs);
    var c := ControlSign(p, es, identity).(endSeen := false, dataStarted := true);
    ClearedIff(env, signs, p, Compressed(es));
    CheckMeans(env, c, false);
    TrustOf(env, p, Compressed(es));
  }

  lemma HashEntry(es: seq<Event>)
    requires LastHash(es).Some?
    ensures AnyEntry(es)
  {
  }

  lemma TrustOf(env: Env, p: Sign, bytes: seq<byte>)
    ensures Cleared(env, p, p.alg, bytes) ==> KeyTrust(env, p) == 0
    ensures Tolerated(env, p.key, p.sig, p.alg, bytes) ==> env.allowUntrusted
  {
  }

  // ---- The data part -------------------------------------------------------------------------------------------

  lemma {:induction false} DataFed(env: Env, h: seq<Event>, hash: seq<byte>, es: seq<Event>)
    requires Agrees(env) && DataPart(es) && Feed(env, h).1 == 0 && OpenSign(Feed(env, h).0.s, hash)
    ensures var c := Feed(env, h).0;
            Feed(env, h + es) == (c.(s := c.s.(digest := Compressed(es)), log := c.log + FileCalls(es)), 0)
  {
    hide Feed, Step;
    var c := Feed(env, h).0;
    if es == [] {
      assert h + es == h && c.log + [] == c.log;
      NothingYet();
    } else {
      var front, e := Last(es);
      assert h + es == (h + front) + [e];
      DataFed(env, h, hash, front);
      FeedSnoc(env, h + front, e);
      BytesSnoc(front, e);
      assert es[|front|] == e;
      var d := c.(s := c.s.(digest := Compressed(front)), log := c.log + FileCalls(front));
      if e.Data? {
        BytesStep(env, d, e);
        assert FileCalls(front) + [] == FileCalls(front);
      } else {
        DataEntry(env, d, e);
        var more := if !Dotted(e.name) then [FileCall(e.name)] else [];
        assert c.log + FileCalls(front) + more == c.log + (FileCalls(front) + more);
      }
    }
  }

  lemma DataEntry(env: Env, c: Ctx, e: Event)
    requires Agrees(env) && e.Entry? && c.s.dataStarted && c.s.hasDataChecksum
    ensures Step(env, c, e) == (c.(log := c.log + if !Dotted(e.name) then [FileCall(e.name)] else []), 0)
  {
    InSection(env, c.s, e);
    hide ProcessFile;
    assert c.log + [] == c.log && c.(s := c.s) == c;
  }

  lemma DataLast(env: Env, c: Ctx)
    requires c.s.controlStarted && Open(c.s) && !c.s.endSeen && !c.s.dataVerified && c.s.digestAlg == 3 && c.s.controlVerified
    ensures var (q, r) := Step(env, c, End);
            && (r == 0 <==> env.hashOf(3, c.s.digest) == c.s.dataHash)
            && (r == 0 ==> q == c.(s := c.s.(endSeen := true, dataVerified := true)))
  {
  }

  // ---- Packages ---------------------------------------------------------------------------------------------------

  /** The signatures in a part of their own, if there are any. */
  function Opening(signs: seq<Event>): seq<Event> { if signs == [] then [] else signs + [Boundary] }

  lemma OpeningFed(env: Env, signs: seq<Event>)
    requires Signatures(signs)
    ensures Feed(env, Opening(signs)) == (START.(s := Feed(env, Opening(signs)).0.s), 0)
    ensures Primed(env, signs, Feed(env, Opening(signs)).0.s)
  {
    hide Feed;
    if signs == [] {
      NothingFed(env);
    } else {
      SignsClosed(env, signs);
    }
  }

  function PackageEvents(signs: seq<Event>, control: seq<Event>, data: seq<Event>): seq<Event>
  {
    Opening(signs) + control + [Boundary] + data + [End]
  }

  /** A package is accepted exactly if its control part is signed, in all its compressed bytes, and the
      compressed bytes of its data part have the checksum noted last; then the caller has been told
      of the meta data and the scripts, and of every file of the data part, once and in order. */
  lemma PackageAccepted(env: Env, signs: seq<Event>, control: seq<Event>, data: seq<Event>)
    requires Agrees(env) && Signatures(signs) && ControlPart(control) && DataPart(data) && LastHash(control).Some?
    ensures var events := PackageEvents(signs, control, data);
            && (Extract(env, events, 0) == 0 <==>
                  && SignedBy(env, signs, Compressed(control))
                  && env.hashOf(3, Compressed(data)) == LastHash(control).value)
            && (Extract(env, events, 0) == 0 ==> Feed(env, events).0.log == ControlCalls(env, control) + FileCalls(data))
  {
    hide Feed, Step, Extract, SignedBy, Compressed, Primed, ControlPart, DataPart, Signatures, OpenSign, LastHash;
    var events := PackageEvents(signs, control, data);
    OpeningFed(env, signs);
    var h := Opening(signs);
    var identity := ControlFed(env, h, signs, control);
    FeedSnoc(env, h + control, Boundary);
    ControlEnd(env, signs, Feed(env, h).0.s, control, identity);
    HashEntry(control);
    var g := h + control + [Boundary];
    if Feed(env, g).1 == 0 {
      PackageEnd(env, g, LastHash(control).value, data);
      assert events == g + data + [End];
      assert Feed(env, g).0.log == ControlCalls(env, control);
    } else {
      assert events[..|g|] == g;
      FeedStops(env, events, |g|);
      NotZero(env, events);
    }
  }

  lemma NotZero(env: Env, events: seq<Event>)
    requires Agrees(env) && Feed(env, events).1 != 0
    ensures Extract(env, events, 0) != 0
  {
    hide Feed, Extract, Complete;
    assert Willing(env) && Plain(env, 0);
    var m := ZeroMeansComplete(env, events, 0);
  }

  lemma PackageEnd(env: Env, g: seq<Event>, hash: seq<byte>, data: seq<Event>)
    requires Agrees(env) && DataPart(data) && Feed(env, g).1 == 0 && OpenSign(Feed(env, g).0.s, hash)
    requires Settles(env, Feed(env, g).0.s) && Feed(env, g).0.isPackage
    ensures var events := g + data + [End];
            && (Extract(env, events, 0) == 0 <==> env.hashOf(3, Compressed(data)) == hash)
            && (Extract(env, events, 0) == 0 ==> Feed(env, events).0.log == Feed(env, g).0.log + FileCalls(data))
  {
    hide Feed, Step, Compressed, Agrees, DataPart;
    var events := g + data + [End];
    DataFed(env, g, hash, data);
    FeedSnoc(env, g + data, End);
    DataLast(env, Feed(env, g + data).0);
    if Feed(env, events).1 != 0 {
      NotZero(env, events);
    }
  }

  // ---- Indexes ------------------------------------------------------------------------------------------------------

  /** Compressed bytes and files without a dot in front. */
  ghost predicate IndexPart(es: seq<Event>)
  {
    forall i :: 0 <= i < |es| ==> es[i].Data? || (es[i].Entry? && !Dotted(es[i].name))
  }

  /** The contents of the last short DESCRIPTION. */
  function LastDesc(es: seq<Event>): seq<byte>
  {
    if es == [] then []
    else
      var e := es[|es| - 1];
      if e.Entry? && e.name == "DESCRIPTION" && e.size <= 160 then e.contents else LastDesc(es[..|es| - 1])
  }

  /** The caller is told of each APKINDEX, with the description in front of it. */
  function IndexCalls(es: seq<Event>): seq<Call>
  {
    if es == [] then []
    else
      var front, e := es[..|es| - 1], es[|es| - 1];
      IndexCalls(front) + if e.Entry? && e.name == "APKINDEX" then [IndexCall(LastDesc(front))] else []
  }

  ghost function IndexCtx(p: Sign, es: seq<Event>, identity: seq<byte>): Ctx
  {
    var any := AnyEntry(es);
    Ctx(p.(controlStarted := any, dataStarted := any, digest := Compressed(es), identity := identity),
        false, any, LastDesc(es), IndexCalls(es))
  }

  /** Files may be looked at without a control section in front of them. */
  predicate MayStart(env: Env, p: Sign) { env.action != VerifyIdentity && (p.key.Some? || env.allowUntrusted) }

  lemma {:induction false} IndexFed(env: Env, h: seq<Event>, signs: seq<Event>, es: seq<Event>) returns (identity: seq<byte>)
    requires Agrees(env) && IndexPart(es) && Feed(env, h) == (START.(s := Feed(env, h).0.s), 0)
    requires Primed(env, signs, Feed(env, h).0.s)
    ensures if AnyEntry(es) && !MayStart(env, Feed(env, h).0.s) then Feed(env, h + es).1 != 0
            else Feed(env, h + es) == (IndexCtx(Feed(env, h).0.s, es, identity), 0)
  {
    hide Feed, Step, Primed;
    var p := Feed(env, h).0.s;
    PrimedFlags(env, signs, p);
    if es == [] {
      assert h + es == h;
      identity := p.identity;
      NothingYet();
    } else {
      var front, e := Last(es);
      assert h + es == (h + front) + [e];
      assert es[|front|] == e && forall i :: 0 <= i < |front| ==> front[i] == es[i];
      identity := IndexFed(env, h, signs, front);
      FeedSnoc(env, h + front, e);
      if Feed(env, h + front).1 == 0 {
        identity := IndexNext(env, p, front, identity, e);
      }
    }
  }

  lemma IndexNext(env: Env, p: Sign, front: seq<Event>, before: seq<byte>, e: Event) returns (identity: seq<byte>)
    requires Agrees(env) && !p.dataStarted && !p.endSeen && !p.dataVerified && !p.hasDataChecksum && !p.controlStarted
    requires AnyEntry(front) ==> MayStart(env, p)
    requires e.Data? || (e.Entry? && !Dotted(e.name))
    ensures var (q, r) := Step(env, IndexCtx(p, front, before), e);
            if e.Entry? && !MayStart(env, p) then r != 0 else (q, r) == (IndexCtx(p, front + [e], identity), 0)
  {
    hide Step, Compressed;
    var es := front + [e];
    assert es[..|es| - 1] == front && es[|es| - 1] == e;
    BytesSnoc(front, e);
    var c := IndexCtx(p, front, before);
    assert c.log + [] == c.log;
    if e.Data? {
      BytesStep(env, c, e);
      identity := Step(env, c, e).0.s.identity;
    } else {
      IndexStep(env, c, e);
      identity := before;
    }
  }

  lemma IndexStep(env: Env, c: Ctx, e: Event)
    requires Agrees(env) && e.Entry? && !Dotted(e.name) && !c.isPackage && !c.s.hasDataChecksum
    ensures var (q, r) := Step(env, c, e);
            if !c.s.dataStarted && !MayStart(env, c.s) then r != 0
            else
              && r == 0
              && q == c.(s := c.s.(dataStarted := true, controlStarted := c.s.controlStarted || !c.s.dataStarted), isIndex := true,
                         desc := if e.name == "DESCRIPTION" && e.size <= 160 then e.contents else c.desc,
                         log := c.log + if e.name == "APKINDEX" then [IndexCall(c.desc)] else [])
  {
    SortedPlain(env, c.s, e);
    hide ProcessFile;
    assert c.log + [] == c.log;
  }

  lemma SortedPlain(env: Env, s: Sign, e: Event)
    requires e.Entry? && !Dotted(e.name) && !s.hasDataChecksum
    ensures var (q, r) := ProcessFile(env, s, e);
            if !s.dataStarted && !MayStart(env, s) then r < 0
            else (q, r) == (s.(dataStarted := true, controlStarted := s.controlStarted || !s.dataStarted), 1)
  {
  }

  lemma IndexLast(env: Env, signs: seq<Event>, p: Sign, es: seq<Event>, identity: seq<byte>)
    requires Primed(env, signs, p) && AnyEntry(es) && MayStart(env, p)
    ensures var c := IndexCtx(p, es, identity);
            var (q, r) := Step(env, c, End);
            && (r == 0 <==> env.action == Verify && SignedBy(env, signs, Compressed(es)))
            && (r == 0 ==> q == c.(s := q.s) && q.s.dataVerified && q.s.endSeen && Settles(env, q.s))
  {
    hide Compressed, Choice, Signs, CheckControl, SignedBy, Proven, Tolerated;
    var c := IndexCtx(p, es, identity).s.(endSeen := true, dataStarted := true);
    ClearedIff(env, signs, p, Compressed(es));
    CheckMeans(env, c, true);
    TrustOf(env, p, Compressed(es));
  }

  /** An index is accepted exactly if it is asked to be verified and nothing else, and is signed in all
      its compressed bytes; then the caller has been told of each APKINDEX with its description. */
  lemma IndexAccepted(env: Env, signs: seq<Event>, es: seq<Event>)
    requires Agrees(env) && Signatures(signs) && IndexPart(es) && AnyEntry(es)
    ensures var events := Opening(signs) + es + [End];
            && (Extract(env, events, 0) == 0 <==> env.action == Verify && SignedBy(env, signs, Compressed(es)))
            && (Extract(env, events, 0) == 0 ==> Feed(env, events).0.log == IndexCalls(es))
  {
    hide Feed, Step, SignedBy, Compressed, Primed, Agrees, IndexPart, Signatures, AnyEntry;
    var h := Opening(signs);
    var events := h + es + [End];
    OpeningFed(env, signs);
    var p := Feed(env, h).0.s;
    var identity := IndexFed(env, h, signs, es);
    FeedSnoc(env, h + es, End);
    if MayStart(env, p) {
      IndexLast(env, signs, p, es, identity);
    } else {
      Unsigned(env, signs, p, Compressed(es));
    }
    if Feed(env, events).1 != 0 {
      NotZero(env, events);
    }
  }

  lemma Unsigned(env: Env, signs: seq<Event>, p: Sign, bytes: seq<byte>)
    requires Primed(env, signs, p) && !MayStart(env, p)
    ensures env.action != VerifyIdentity ==> !SignedBy(env, signs, bytes)
  {
  }

  // ---- Why something is refused -----------------------------------------------------------------------------------------

  /** What is wrong with an entry: in a data section only that the caller takes no files; in front of it
      a file where only control files may be, or without trust; otherwise a package in an index or the
      other way round, something the caller has no use for, or an old install script. */
  function EntryObjection(env: Env, c: Ctx, e: Event): int
    requires e.Entry?
  {
    var early := !c.s.dataStarted && (!Dotted(e.name) || '/' in e.name);
    if Open(c.s) then if env.hasFile then 0 else CANCELED
    else if early && (c.s.hasDataChecksum || env.action == VerifyIdentity) then PKG_FORMAT
    else if early && c.s.key.None? && !env.allowUntrusted then UNTRUSTED
    else if !c.s.controlStarted && ".SIGN." <= e.name && '/' !in e.name then 0
    else if Dotted(e.name) then
      if c.isIndex then NDX_FORMAT else if !env.hasMeta then NOT_SUPPORTED else if e.name == ".INSTALL" then PKG_FORMAT else 0
    else if c.isPackage then PKG_FORMAT else if !env.hasIndex then NOT_SUPPORTED else 0
  }

  /** Without a call an entry does not fail; with one, as the callback for it answers. */
  ghost predicate AsAnswered(env: Env, c: Ctx, p: Ctx, r: int)
  {
    || (r == 0 && p.log == c.log)
    || (Added(c.log, p.log) && r == env.answer(c.log, p.log[|c.log|]))
  }

  /** An entry fails with that, or as the callback for it answers. */
  lemma EntryCode(env: Env, c: Ctx, e: Event)
    requires e.Entry? && Flags(c.s)
    ensures var (p, r) := Step(env, c, e);
            var objection := EntryObjection(env, c, e);
            if objection != 0 then r == objection && p.log == c.log else AsAnswered(env, c, p, r)
  {
    hide Signature, ProcessFile, ControlEntry, Hidden, AsAnswered;
    SortedCode(env, c.s, e);
    SignatureOnly(env, c.s, e);
    PlainFile(e);
    var d := c.(s := ProcessFile(env, c.s, e).0);
    ControlCode(env, d, e);
    SameCalls(env, c, d, ControlEntry(env, d, e).0, ControlEntry(env, d, e).1);
    Answered(env, c, d, FileCall(e.name));
  }

  lemma Answered(env: Env, c: Ctx, d: Ctx, call: Call)
    requires c.log == d.log
    ensures AsAnswered(env, c, Tell(env, d, call).0, Tell(env, d, call).1) && AsAnswered(env, c, d, 0)
  {
    AddedOne(c.log, call);
  }

  lemma SameCalls(env: Env, c: Ctx, d: Ctx, p: Ctx, r: int)
    requires c.log == d.log
    ensures AsAnswered(env, c, p, r) <==> AsAnswered(env, d, p, r)
  {
  }

  lemma ControlCode(env: Env, c: Ctx, e: Event)
    requires e.Entry?
    ensures var (p, r) := ControlEntry(env, c, e);
            var objection :=
              if Dotted(e.name) then
                if c.isIndex then NDX_FORMAT else if !env.hasMeta then NOT_SUPPORTED else if e.name == ".INSTALL" then PKG_FORMAT else 0
              else if c.isPackage then PKG_FORMAT else if !env.hasIndex then NOT_SUPPORTED else 0;
            if objection != 0 then r == objection && p.log == c.log else AsAnswered(env, c, p, r)
  {
    hide Control;
    assert ".PKGINFO"[1] != ".INSTALL"[1];
    AddedOne(c.log, MetaCall);
    AddedOne(c.log, ScriptCall(e.name));
    AddedOne(c.log, IndexCall(c.desc));
  }

  lemma SortedCode(env: Env, s: Sign, e: Event)
    requires e.Entry?
    ensures var early := !s.dataStarted && (!Dotted(e.name) || '/' in e.name);
            var (p, r) := ProcessFile(env, s, e);
            && (early && (s.hasDataChecksum || env.action == VerifyIdentity) ==> r == PKG_FORMAT)
            && (early && !s.hasDataChecksum && env.action != VerifyIdentity ==>
                  && (r == if s.key.None? && !env.allowUntrusted then UNTRUSTED else 1)
                  && p == s.(dataStarted := true, controlStarted := true))
            && (!early && !s.dataStarted && !s.controlStarted && ".SIGN." <= e.name ==> r == 0 && p == Signature(env, s, e))
            && (!early && (s.dataStarted || s.controlStarted || !(".SIGN." <= e.name)) ==>
                  r == 1 && p == s.(controlStarted := s.controlStarted || !s.dataStarted))
  {
    hide Signature;
    assert StartsWith(e.name, ".SIGN.") <==> ".SIGN." <= e.name;
  }

  /** What is wrong with compressed bytes or the end of a part. */
  function PartObjection(env: Env, s: Sign, e: Event): int
    requires !e.Entry?
  {
    if s.endSeen || s.dataVerified || (e.Boundary? && s.dataStarted) then FORMAT_INVALID
    else if e.Data? then 0
    else if !s.controlStarted then if e.End? then FORMAT_INVALID else 0
    else if Open(s) then if env.hashOf(3, s.digest) == s.dataHash then 0 else INTEGRITY
    else if !s.hasDataChecksum && e.Boundary? then 0
    else if env.action == VerifyIdentity then
      if s.digestAlg == env.wantedAlg && env.hashOf(s.digestAlg, s.digest) == env.wanted then 0 else INTEGRITY
    else if s.key.None? && !env.allowUntrusted then UNTRUSTED
    else if env.action == VerifyAndGenerate && !s.hasDataChecksum then PKG_FORMAT
    else if s.key.None? then 0
    else if !s.started then VERIFY_ERROR
    else
      var r := env.verify(s.key.value, s.digestAlg, s.digest, s.sig);
      if r == UNTRUSTED && env.allowUntrusted then 0 else r
  }

  /** It fails with exactly that. */
  lemma PartCode(env: Env, h: seq<Event>, s: Sign, m: Marks, e: Event)
    requires !e.Entry? && SignInv(env, h, s, m)
    ensures Part(env, s, e).1 == PartObjection(env, s, e)
  {
    hide SignInv, CheckedEnd;
    FlagsOf(env, h, s, m);
    NotYetFound(env, h, s, m);
    if s.dataStarted && s.controlVerified && !s.hasDataChecksum {
      assert s.endSeen;
    }
    if !s.controlVerified {
      CheckedCode(env, s.(endSeen := e.End?, dataStarted := true), e.End?);
    }
  }

  lemma CheckedCode(env: Env, s: Sign, end: bool)
    requires s.verifyError == UNTRUSTED
    ensures CheckedEnd(env, s, end).1 ==
            if env.action == VerifyIdentity then
              if s.digestAlg == env.wantedAlg && env.hashOf(s.digestAlg, s.digest) == env.wanted then 0 else INTEGRITY
            else if s.key.None? && !env.allowUntrusted then UNTRUSTED
            else if env.action == VerifyAndGenerate && !s.hasDataChecksum then PKG_FORMAT
            else if s.key.None? then 0
            else if !s.started then VERIFY_ERROR
            else
              var r := env.verify(s.key.value, s.digestAlg, s.digest, s.sig);
              if r == UNTRUSTED && env.allowUntrusted then 0 else r
  {
  }

  lemma NotYetFound(env: Env, h: seq<Event>, s: Sign, m: Marks)
    requires SignInv(env, h, s, m)
    ensures !s.controlVerified ==> s.verifyError == UNTRUSTED
  {
  }

  /** The result, from how the reader ended and what was found: something that is neither package nor
      index, an archive that is not complete, the error of the signature check, or the reader's own. */
  lemma ResultCode(env: Env, events: seq<Event>, tail: int)
    ensures var (c, code) := Feed(env, events);
            var k := if code == 0 then tail else if code > 0 then EOF_ERROR else code;
            var r := Extract(env, events, tail);
            if k in {0, CANCELED, EOF_ERROR} && !c.isPackage && !c.isIndex then r == FORMAT_INVALID
            else if k == 0 && !(c.s.dataVerified && c.s.endSeen) then r == INTEGRITY
            else
              var found := if k in {0, CANCELED} && c.s.verifyError != 0 then c.s.verifyError else k;
              r == if found == UNTRUSTED && env.allowUntrusted then 0 else found
  {
  }
}
