/**
 Version 2 extraction as the C code keeps it: the signing context with its flags, digests and
 chosen signature, and the extraction that drives it, both updated in place by archive entries
 and part boundaries. Each method is held to the function of ExtractV2 for the same call, and
 the handlers to what they mean: if the state stands for the events so far, it stands for the
 next one too, unless that is refused. The events so far, and the places in them that matter,
 are ghost parameters.
 */
module ExtractV2Ctx {
  import opened Bytes
  import opened ExtractV2

  class SignCtx {
    const env: Env
    var controlStarted: bool
    var dataStarted: bool
    var hasDataChecksum: bool
    var controlVerified: bool
    var dataVerified: bool
    var endSeen: bool
    var alg: nat
    var dataHash: seq<byte>
    var key: Option<nat>
    var sig: seq<byte>
    var verifyError: int
    var started: bool
    var digestAlg: nat
    var digest: seq<byte>
    var identity: seq<byte>
    var generated: Option<seq<byte>>

    ghost function State(): Sign
      reads this
    {
      Sign(controlStarted, dataStarted, hasDataChecksum, controlVerified, dataVerified, endSeen,
           alg, dataHash, key, sig, verifyError, started, digestAlg, digest, identity, generated)
    }

    /** apk_sign_ctx_init */
    constructor (env: Env)
      ensures State() == UNSIGNED && this.env == env
    {
      this.env := env;
      controlStarted, dataStarted, hasDataChecksum := false, false, false;
      controlVerified, dataVerified, endSeen := false, false, false;
      alg, dataHash, key, sig, verifyError := SHA1, [], None, [], UNTRUSTED;
      started, digestAlg, digest, identity, generated := false, SHA1, [], [], None;
    }

    /** check_signing_key_trust */
    method CheckKeyTrust() returns (r: int)
      ensures r == KeyTrust(env, State())
    {
      if env.action != VerifyIdentity {
        if key.None? && !env.allowUntrusted {
          return UNTRUSTED;
        }
      }
      return 0;
    }

    /** apk_sign_ctx_process_file. An entry is done with here exactly if it is a signature file in
        front of the control section; of those only one by a known key is taken over, and only one.
        An entry can start the data section only if no checksum is recorded, no identity is wanted,
        and there is a key or permission to do without. */
    method ProcessFile(e: Event, ghost h: seq<Event>, ghost m: Marks) returns (r: int, ghost m': Marks)
      requires e.Entry? && SignInv(env, h, State(), m)
      modifies this
      ensures (State(), r) == ExtractV2.ProcessFile(env, old(State()), e)
      ensures r >= 0 ==> SignInv(env, h + [e], State(), m') && (Open(State()) <==> old(Open(State())))
      ensures r == 0 <==> !old(controlStarted) && IsSignature(e)
      ensures r == 0 && env.action != VerifyIdentity ==> (key.Some? <==> old(key).Some? || Offers(env, e))
      ensures r > 0 ==> controlStarted
      ensures key != old(key) ==> old(key).None? && key.Some? && r == 0 && Signs(env, e, key.value, sig, alg)
      ensures r > 0 && dataStarted && !old(dataStarted) ==>
                !hasDataChecksum && env.action != VerifyIdentity && (key.Some? || env.allowUntrusted)
    {
      hide ExtractV2.ProcessFile, SignInv, IsSignature, Signs, Offers;
      m' := Filed(env, h, State(), m, e);
      r := Sort(e);
    }

    method Sort(e: Event) returns (r: int)
      requires e.Entry?
      modifies this
      ensures (State(), r) == ExtractV2.ProcessFile(env, old(State()), e)
    {
      hide Hidden, StartsWith, SignatureOf;
      r := 1;
      if dataStarted {
      } else if !Hidden(e.name) || '/' in e.name {
        if hasDataChecksum || env.action == VerifyIdentity {
          r := PKG_FORMAT;
        } else {
          dataStarted, controlStarted := true, true;
          var trust := CheckKeyTrust();
          r := if trust != 0 then trust else 1;
        }
      } else if controlStarted {
      } else if !StartsWith(e.name, ".SIGN.") {
        controlStarted := true;
      } else {
        TakeSignature(e);
        r := 0;
      }
    }

    method TakeSignature(e: Event)
      requires e.Entry?
      modifies this
      ensures State() == Signature(env, old(State()), e)
    {
      hide SignatureOf;
      if key.Some? || env.action == VerifyIdentity {
        return;
      }
      var signature := SignatureOf(e.name);
      if signature.None? || e.size > SIGNATURE_MAX {
        return;
      }
      var found := env.keyByName(signature.value.1);
      if found.Some? {
        alg, key, sig := signature.value.0, found, e.contents;
      }
    }

    /** apk_extract_v2_control */
    method Control(hash: seq<byte>)
      modifies this
      ensures State() == ExtractV2.Control(old(State()), hash)
    {
      if !controlStarted || dataStarted {
        return;
      }
      hasDataChecksum, alg, dataHash := true, SHA256, hash;
    }

    method VerifyControl() returns (err: int)
      ensures err == ControlError(env, State())
    {
      if env.action == VerifyIdentity {
        err := if digestAlg != env.wantedAlg || env.hashOf(digestAlg, digest) != env.wanted then INTEGRITY else 0;
      } else if key.None? {
        err := verifyError;
      } else if !started {
        err := VERIFY_ERROR;
      } else {
        err := env.verify(key.value, digestAlg, digest, sig);
      }
    }

    method Settle(end: bool) returns (r: int)
      modifies this
      ensures (State(), r) == Settled(env, old(State()), end)
    {
      hide ControlError;
      r := VerifyControl();
      if r == 0 || (r == UNTRUSTED && env.allowUntrusted && env.action != VerifyIdentity) {
        verifyError := r;
        controlVerified := true;
        dataVerified := !hasDataChecksum && end;
        r := 0;
      } else if env.action != VerifyIdentity {
        verifyError := r;
      }
    }

    /** The checks at the end of a control section, or of everything. While nothing has been found
        out, they pass exactly if the bytes digested are signed by the chosen key, have the wanted
        identity, or are tolerated by permission, and there is a checksum if an identity is to be
        generated; and only then the control section counts as verified. */
    method CheckControl(end: bool) returns (r: int)
      modifies this
      ensures (State(), r) == ExtractV2.CheckControl(env, old(State()), end)
      ensures old(verifyError) == UNTRUSTED ==>
                (r == 0 <==>
                   && old(Cleared(env, State(), digestAlg, digest))
                   && (env.action != VerifyIdentity && old(key).Some? ==> old(started))
                   && (env.action == VerifyAndGenerate ==> old(hasDataChecksum)))
      ensures old(verifyError) == UNTRUSTED && r == 0 ==>
                && controlVerified && dataVerified == (!old(hasDataChecksum) && end)
                && (verifyError == 0 ==> old(Proven(env, key, sig, digestAlg, digest)))
                && (env.action == VerifyAndGenerate ==> generated == Some(IdentityOf(env, old(identity))))
    {
      hide Settled, IdentityOf, Proven, Tolerated;
      if verifyError == UNTRUSTED {
        CheckMeans(env, State(), end);
      }
      if env.action == VerifyAndGenerate {
        generated := Some(IdentityOf(env, identity));
        if !hasDataChecksum {
          return PKG_FORMAT;
        }
      }
      r := Settle(end);
    }

    /** The end of a data section with a checksum. */
    method DataEnd() returns (r: int)
      modifies this
      ensures (State(), r) == ExtractV2.DataEnd(env, old(State()))
    {
      if digestAlg != SHA256 || env.hashOf(digestAlg, digest) != dataHash {
        return INTEGRITY;
      }
      dataVerified := true;
      if !env.allowUntrusted && !controlVerified {
        return UNTRUSTED;
      }
      return 0;
    }

    method CheckedEnd(end: bool) returns (r: int)
      modifies this
      ensures (State(), r) == ExtractV2.CheckedEnd(env, old(State()), end)
    {
      hide ExtractV2.CheckControl, KeyTrust;
      r := CheckKeyTrust();
      if r == 0 {
        var next := alg;
        r := CheckControl(end);
        if r == 0 {
          identity, digest, digestAlg, started := [], [], next, false;
        }
      }
    }

    method SectionEnd(end: bool) returns (r: int)
      modifies this
      ensures (State(), r) == ExtractV2.SectionEnd(env, old(State()), end)
    {
      hide ExtractV2.CheckedEnd, ExtractV2.DataEnd;
      if hasDataChecksum && dataStarted {
        r := DataEnd();
      } else {
        var endOfControl := !dataStarted;
        dataStarted := true;
        if !hasDataChecksum && endOfControl && !end {
          r := 0;
        } else {
          r := CheckedEnd(end);
        }
      }
    }

    /** apk_sign_ctx_mpart_cb. Nothing follows the end or verified data, and no boundary follows in a
        data section. A data section with a checksum opens only behind a control part that is
        cleared in all its bytes, and data is verified only at the end. */
    method Part(e: Event, ghost h: seq<Event>, ghost m: Marks) returns (r: int, ghost m': Marks)
      requires !e.Entry? && SignInv(env, h, State(), m)
      modifies this
      ensures (State(), r) == ExtractV2.Part(env, old(State()), e)
      ensures old(endSeen || dataVerified || (dataStarted && e.Boundary?)) ==> r != 0
      ensures r == 0 ==> SignInv(env, h + [e], State(), m')
      ensures r == 0 && old(Open(State())) ==> Open(State()) && m'.closed == m.closed
      ensures r == 0 && Open(State()) && !old(Open(State())) ==> Opened(env, h, State(), m')
      ensures r == 0 && dataVerified ==> e.End? && Ended(env, h, State(), m')
    {
      hide ExtractV2.Part, SignInv, Opened, Ended;
      m' := PartMeans(env, h, State(), m, e);
      r := Take(e);
    }

    method Take(e: Event) returns (r: int)
      requires !e.Entry?
      modifies this
      ensures (State(), r) == ExtractV2.Part(env, old(State()), e)
    {
      hide ExtractV2.SectionEnd;
      if endSeen || dataVerified {
        return FORMAT_INVALID;
      }
      if e.Boundary? && dataStarted {
        return FORMAT_INVALID;
      }
      if e.End? {
        endSeen := true;
      }
      if e.Data? {
        digest := digest + e.bytes;
        if controlStarted && !dataStarted && env.action == VerifyAndGenerate {
          identity := identity + e.bytes;
        }
        return 0;
      }
      if !controlStarted {
        if e.End? {
          return FORMAT_INVALID;
        }
        identity, digest, digestAlg := [], [], alg;
        started := key.Some? && env.action != VerifyIdentity;
        return 0;
      }
      r := SectionEnd(e.End?);
    }
  }

  /** apk_extract_v2 with its context. */
  class Extractor {
    const env: Env
    const sctx: SignCtx
    var isPackage: bool
    var isIndex: bool
    var desc: seq<byte>
    var log: seq<Call>

    ghost predicate Valid()
      reads this
    {
      sctx.env == env
    }

    ghost function State(): Ctx
      reads this, sctx
    {
      Ctx(sctx.State(), isPackage, isIndex, desc, log)
    }

    constructor (env: Env)
      ensures Valid() && State() == START && this.env == env && fresh(sctx)
    {
      this.env := env;
      sctx := new SignCtx(env);
      isPackage, isIndex, desc, log := false, false, [], [];
    }

    method Tell(c: Call) returns (r: int)
      modifies this`log
      ensures (State(), r) == ExtractV2.Tell(env, old(State()), c)
    {
      r := env.answer(log, c);
      log := log + [c];
    }

    /** An entry outside a data section with a checksum. No file is told of, a package and an index
        do not mix, and a checksum is recorded only in front of the data section. */
    method ControlEntry(e: Event, ghost g: seq<Event>, ghost m: Marks) returns (r: int, ghost m': Marks)
      requires Valid() && e.Entry? && Inv(env, g, State(), m) && g != [] && g[|g| - 1] == e
      requires !Open(sctx.State()) && sctx.controlStarted
      modifies this, sctx
      ensures (State(), r) == ExtractV2.ControlEntry(env, old(State()), e)
      ensures log == old(log) || (Added(old(log), log) && !log[|old(log)|].FileCall?)
      ensures sctx.State() != old(sctx.State()) ==>
                !old(sctx.dataStarted) && sctx.hasDataChecksum && Notes(e, sctx.dataHash)
      ensures r == 0 ==> Inv(env, g, State(), m') && isPackage == Hidden(e.name) && isIndex == !Hidden(e.name)
    {
      hide ExtractV2.MetaEntry, ExtractV2.IndexEntry, Hidden, Inv, Added, Notes;
      m' := ControlMeans(env, g, State(), m, e);
      if Hidden(e.name) {
        r := MetaEntry(e);
      } else {
        r := IndexEntry(e);
      }
    }

    method MetaEntry(e: Event) returns (r: int)
      requires Valid() && e.Entry?
      modifies this, sctx
      ensures (State(), r) == ExtractV2.MetaEntry(env, old(State()), e)
    {
      hide KindOf, Hidden;
      var kind := KindOf(env, e);
      isPackage := true;
      if isIndex {
        return NDX_FORMAT;
      }
      if !env.hasMeta {
        return NOT_SUPPORTED;
      }
      r := 0;
      if kind == PkgInfo {
        r := Tell(MetaCall);
        if e.datahash.Some? {
          sctx.Control(e.datahash.value);
        }
      } else if kind == Install {
        r := PKG_FORMAT;
      } else if kind == Script && env.hasScript {
        r := Tell(ScriptCall(e.name));
      }
    }

    method IndexEntry(e: Event) returns (r: int)
      requires Valid() && e.Entry?
      modifies this
      ensures (State(), r) == ExtractV2.IndexEntry(env, old(State()), e)
    {
      hide KindOf, Hidden;
      var kind := KindOf(env, e);
      isIndex := true;
      if isPackage {
        return PKG_FORMAT;
      }
      if !env.hasIndex {
        return NOT_SUPPORTED;
      }
      r := 0;
      if kind == Description {
        desc := e.contents;
      } else if kind == Index {
        r := Tell(IndexCall(desc));
      }
    }

    /** apk_extract_v2_entry. At most one call is made, whatever its answer, and for a file only
        behind a control section that was closed and cleared. */
    method ArchiveEntry(e: Event, ghost h: seq<Event>, ghost m: Marks) returns (r: int, ghost m': Marks)
      requires Valid() && e.Entry? && Inv(env, h, State(), m)
      modifies this, sctx
      ensures (State(), r) == ExtractV2.ArchiveEntry(env, old(State()), e)
      ensures r == 0 ==> Inv(env, h + [e], State(), m')
      ensures || log == old(log)
              || (&& Added(old(log), log)
                  && (log[|old(log)|].FileCall? ==>
                        log[|old(log)|].name == e.name && Backed(env, h + [e], |h|, old(sctx.State()), m)))
    {
      hide ExtractV2.ProcessFile, ExtractV2.ControlEntry, Hidden, SignInv, Added, Backed, IsSignature, Signs;
      m' := EntryMeans(env, h, State(), m, e);
      ghost var c := State();
      ghost var p;
      r, p := sctx.ProcessFile(e, h, m);
      if r <= 0 {
        return;
      }
      if !sctx.dataStarted || !sctx.hasDataChecksum {
        DeliversStill(h, c, sctx.State(), m, p, e);
        r, p := ControlEntry(e, h + [e], p);
        return;
      }
      if !env.hasFile {
        return CANCELED, m';
      }
      if Hidden(e.name) {
        return 0, m';
      }
      r := Tell(FileCall(e.name));
    }

    /** apk_extract_v2: the events up to the first that fails, then the result. In every run,
        whatever its end, each file told of lies behind a control section that was checked. */
    method Extract(events: seq<Event>, tail: int) returns (r: int)
      requires Valid() && State() == START
      modifies this, sctx
      ensures State() == Feed(env, events).0 && r == ExtractV2.Extract(env, events, tail)
      ensures forall i :: 0 <= i < |log| && log[i].FileCall? ==> Justified(env, events, i)
      ensures Plain(env, tail) && r == 0 ==> tail == 0 && exists m :: Complete(env, events, State(), m)
    {
      hide Step, ExtractV2.Part, ExtractV2.ArchiveEntry, Feed, Justified, Inv, SignInv, Backed, Added, Opened, Ended;
      hide Complete, Plain;
      var code, i := 0, 0;
      assert events[..0] == [];
      NothingFed(env);
      ghost var m := RunKeeps(env, []);
      while i < |events| && code == 0
        invariant 0 <= i <= |events| && (State(), code) == Feed(env, events[..i])
        invariant code == 0 ==> Inv(env, events[..i], State(), m)
      {
        assert events[..i + 1] == events[..i] + [events[i]];
        FeedSnoc(env, events[..i], events[i]);
        StepOf(env, State(), events[i]);
        if events[i].Entry? {
          code, m := ArchiveEntry(events[i], events[..i], m);
        } else {
          SignPart(env, events[..i], State(), m);
          ghost var c, part := State(), m;
          code, part := sctx.Part(events[i], events[..i], m);
          m := PartDelivers(env, events[..i], c, m, events[i]);
        }
        i := i + 1;
      }
      assert i == |events| ==> events[..i] == events;
      if code != 0 {
        FeedStops(env, events, i);
      }
      forall k | 0 <= k < |log| && log[k].FileCall?
        ensures Justified(env, events, k)
      {
        FileJustified(env, events, k);
      }
      if Plain(env, tail) {
        ghost var last := ZeroMeansComplete(env, events, tail);
      }
      r := if code == 0 then tail else if code > 0 then EOF_ERROR else code;
      if r in {0, CANCELED, EOF_ERROR} && !isPackage && !isIndex {
        r := FORMAT_INVALID;
      }
      if r == 0 && (!sctx.dataVerified || !sctx.endSeen) {
        r := INTEGRITY;
      }
      if r in {0, CANCELED} && sctx.verifyError != 0 {
        r := sctx.verifyError;
      }
      if r == UNTRUSTED && env.allowUntrusted {
        r := 0;
      }
    }
  }


  lemma SignPart(env: Env, h: seq<Event>, c: Ctx, m: Marks)
    requires Inv(env, h, c, m)
    ensures SignInv(env, h, c.s, m)
  {
  }

  /** Sorting an entry delivers no file. */
  lemma DeliversStill(h: seq<Event>, c: Ctx, s: Sign, m: Marks, m': Marks, e: Event)
    requires Delivers(h, c, m) && !Open(c.s) && !Open(s)
    ensures Delivers(h + [e], c.(s := s), m')
  {
  }

  lemma StepOf(env: Env, c: Ctx, e: Event)
    ensures e.Entry? ==> Step(env, c, e) == ArchiveEntry(env, c, e)
    ensures !e.Entry? ==> Step(env, c, e) == (c.(s := Part(env, c.s, e).0), Part(env, c.s, e).1)
  {
  }

  /** Call i was made at some event n, for a file behind a checked control section. */
  ghost predicate Justified(env: Env, events: seq<Event>, i: nat)
    requires i < |Feed(env, events).0.log|
  {
    exists n: nat, m :: CalledAt(env, events, i, n) && Backed(env, events, n, Feed(env, events[..n]).0.s, m)
  }

  lemma FileJustified(env: Env, events: seq<Event>, i: nat)
    requires i < |Feed(env, events).0.log| && Feed(env, events).0.log[i].FileCall?
    ensures Justified(env, events, i)
  {
    hide Feed, CalledAt, Backed;
    var n, m := FileBehindControl(env, events, i);
  }
}
