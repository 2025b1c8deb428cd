/**
 Extraction of a version 2 package: an automaton over signature, control and data
 sections, driven by archive entries and by the boundaries between the compressed
 parts, which decides what has been verified when. Here it is a function of the events;
 the class in ExtractV2Ctx updates the same state in place.
 */
module ExtractV2 {
  import opened Bytes

  const FORMAT_INVALID: int := -1
  const PKG_FORMAT: int := -2
  const NDX_FORMAT: int := -3
  const NOT_SUPPORTED: int := -4
  const INTEGRITY: int := -5
  const UNTRUSTED: int := -6
  const EOF_ERROR: int := -7
  const VERIFY_ERROR: int := -8
  const CANCELED: int := -125

  const SHA1: nat := 2
  const SHA256: nat := 3
  const SHA512: nat := 4

  const SIGNATURE_MAX: nat := 65536
  const DESCRIPTION_MAX: nat := 160

  datatype Action = Verify | VerifyAndGenerate | VerifyIdentity

  /** What the archive brings, in order: an entry (with the value of the datahash line if it
      is a .PKGINFO that has one, and its contents), and the compressed bytes with the
      boundaries between parts. */
  datatype Event =
    | Entry(name: string, size: nat, datahash: Option<seq<byte>>, contents: seq<byte>)
    | Data(bytes: seq<byte>)
    | Boundary
    | End

  datatype Call = MetaCall | ScriptCall(name: string) | IndexCall(desc: seq<byte>) | FileCall(name: string)

  /** Settings, foreign checks, and the caller's operations. */
  datatype Env = Env(action: Action, allowUntrusted: bool, wantedAlg: nat, wanted: seq<byte>,
                     keyByName: string -> Option<nat>,
                     hashOf: (nat, seq<byte>) -> seq<byte>,
                     verify: (nat, nat, seq<byte>, seq<byte>) -> int,
                     isScript: string -> bool,
                     hasMeta: bool, hasScript: bool, hasIndex: bool, hasFile: bool,
                     answer: (seq<Call>, Call) -> int)

  /** struct apk_sign_ctx. A running digest is its algorithm and the bytes fed since its last
      reset, and whether it was started for a check with the chosen key. */
  datatype Sign = Sign(controlStarted: bool, dataStarted: bool, hasDataChecksum: bool,
                       controlVerified: bool, dataVerified: bool, endSeen: bool,
                       alg: nat, dataHash: seq<byte>, key: Option<nat>, sig: seq<byte>, verifyError: int,
                       started: bool, digestAlg: nat, digest: seq<byte>, identity: seq<byte>, generated: Option<seq<byte>>)

  /** The extraction: its signing context, what it has found to be in hand, and the calls made. */
  datatype Ctx = Ctx(s: Sign, isPackage: bool, isIndex: bool, desc: seq<byte>, log: seq<Call>)

  const UNSIGNED := Sign(false, false, false, false, false, false, SHA1, [], None, [], UNTRUSTED, false, SHA1, [], [], None)
  const START := Ctx(UNSIGNED, false, false, [], [])

  // ---- File names -----------------------------------------------------------------------------------

  predicate Hidden(name: string) { |name| > 0 && name[0] == '.' }

  predicate StartsWith(s: string, prefix: string) { |prefix| <= |s| && s[..|prefix|] == prefix }

  /** The digest algorithm and key name in the name of a signature file. */
  function SignatureOf(name: string): Option<(nat, string)>
  {
    if !StartsWith(name, ".SIGN.") then None
    else
      var rest := name[6..];
      if StartsWith(rest, "RSA512.") then Some((SHA512, rest[7..]))
      else if StartsWith(rest, "RSA256.") then Some((SHA256, rest[7..]))
      else if StartsWith(rest, "RSA.") then Some((SHA1, rest[4..]))
      else if StartsWith(rest, "DSA.") then Some((SHA1, rest[4..]))
      else None
  }

  // ---- One event ------------------------------------------------------------------------------------

  function KeyTrust(env: Env, c: Sign): int
  {
    if env.action != VerifyIdentity && c.key.None? && !env.allowUntrusted then UNTRUSTED else 0
  }

  /** Takes over a signature by a known key, unless there is one already. */
  function Signature(env: Env, c: Sign, e: Event): Sign
    requires e.Entry?
  {
    if c.key.Some? || env.action == VerifyIdentity then c
    else
      var signature := SignatureOf(e.name);
      if signature.None? || e.size > SIGNATURE_MAX then c
      else
        var found := env.keyByName(signature.value.1);
        if found.Some? then c.(alg := signature.value.0, key := found, sig := e.contents) else c
  }

  /** Sorts an archive entry into its section: 0 for a signature, 1 for anything to be looked
      at further. */
  function ProcessFile(env: Env, c: Sign, e: Event): (Sign, int)
    requires e.Entry?
  {
    if c.dataStarted then (c, 1)
    else if !Hidden(e.name) || '/' in e.name then
      if c.hasDataChecksum || env.action == VerifyIdentity then (c, PKG_FORMAT)
      else
        var c' := c.(dataStarted := true, controlStarted := true);
        (c', if KeyTrust(env, c') != 0 then KeyTrust(env, c') else 1)
    else if c.controlStarted then (c, 1)
    else if !StartsWith(e.name, ".SIGN.") then (c.(controlStarted := true), 1)
    else (Signature(env, c, e), 0)
  }

  /** apk_extract_v2_control: the checksum of the data section, from the control section. */
  function Control(c: Sign, hash: seq<byte>): Sign
  {
    if !c.controlStarted || c.dataStarted then c
    else c.(hasDataChecksum := true, alg := SHA256, dataHash := hash)
  }

  /** Zero if the bytes digested so far have the wanted identity, or a good signature; a digest that
      was not started with the key cannot be checked with it. */
  function ControlError(env: Env, c: Sign): int
  {
    if env.action == VerifyIdentity then
      if c.digestAlg == env.wantedAlg && env.hashOf(c.digestAlg, c.digest) == env.wanted then 0 else INTEGRITY
    else if c.key.None? then c.verifyError
    else if !c.started then VERIFY_ERROR
    else env.verify(c.key.value, c.digestAlg, c.digest, c.sig)
  }

  /** The bytes digested so far are checked against signature or identity. */
  function Settled(env: Env, c: Sign, end: bool): (Sign, int)
  {
    var err := ControlError(env, c);
    if err == 0 || (err == UNTRUSTED && env.allowUntrusted && env.action != VerifyIdentity) then
      (c.(verifyError := err, controlVerified := true, dataVerified := !c.hasDataChecksum && end), 0)
    else (if env.action == VerifyIdentity then c else c.(verifyError := err), err)
  }

  /** The identity of a package, from bytes of its control section. */
  function IdentityOf(env: Env, bytes: seq<byte>): seq<byte> { env.hashOf(SHA1, bytes) }

  /** The checks at the end of a control section, or of everything; an identity that is asked for
      is noted first, and needs a checksum for the data. */
  function CheckControl(env: Env, c: Sign, end: bool): (Sign, int)
  {
    if env.action != VerifyAndGenerate then Settled(env, c, end)
    else
      var g := c.(generated := Some(IdentityOf(env, c.identity)));
      if !c.hasDataChecksum then (g, PKG_FORMAT) else Settled(env, g, end)
  }

  /** The end of a data section with a checksum. */
  function DataEnd(env: Env, c: Sign): (Sign, int)
  {
    if c.digestAlg != SHA256 || env.hashOf(c.digestAlg, c.digest) != c.dataHash then (c, INTEGRITY)
    else (c.(dataVerified := true), if !env.allowUntrusted && !c.controlVerified then UNTRUSTED else 0)
  }

  /** The end of what is checked against signature or identity. */
  function CheckedEnd(env: Env, c: Sign, end: bool): (Sign, int)
  {
    if KeyTrust(env, c) != 0 then (c, KeyTrust(env, c))
    else
      var (v, r) := CheckControl(env, c, end);
      if r != 0 then (v, r) else (v.(digest := [], digestAlg := c.alg, started := false, identity := []), 0)
  }

  /** The end of the control section, or of everything. */
  function SectionEnd(env: Env, c: Sign, end: bool): (Sign, int)
  {
    if c.hasDataChecksum && c.dataStarted then DataEnd(env, c)
    else
      var d := c.(dataStarted := true);
      if !c.hasDataChecksum && !c.dataStarted && !end then (d, 0) else CheckedEnd(env, d, end)
  }

  /** apk_sign_ctx_mpart_cb: compressed bytes, or a boundary between compressed parts. */
  function Part(env: Env, c: Sign, e: Event): (Sign, int)
    requires !e.Entry?
  {
    if c.endSeen || c.dataVerified then (c, FORMAT_INVALID)
    else if e.Boundary? && c.dataStarted then (c, FORMAT_INVALID)
    else if e.Data? then
      (c.(digest := c.digest + e.bytes,
          identity := if c.controlStarted && !c.dataStarted && env.action == VerifyAndGenerate
                      then c.identity + e.bytes else c.identity), 0)
    else
      var s := c.(endSeen := e.End?);
      if !c.controlStarted then
        if e.End? then (s, FORMAT_INVALID)
        else
          var started := c.key.Some? && env.action != VerifyIdentity;
          (s.(digest := [], digestAlg := c.alg, started := started, identity := []), 0)
      else SectionEnd(env, s, e.End?)
  }

  function Tell(env: Env, c: Ctx, call: Call): (Ctx, int)
  {
    (c.(log := c.log + [call]), env.answer(c.log, call))
  }

  /** What an entry outside a data section with a checksum is there for. */
  datatype Kind = PkgInfo | Install | Script | OtherControl | Description | Index | OtherIndex

  function KindOf(env: Env, e: Event): (k: Kind)
    requires e.Entry?
    ensures Hidden(e.name) <==> k in {PkgInfo, Install, Script, OtherControl}
  {
    if Hidden(e.name) then
      if e.name == ".PKGINFO" then PkgInfo
      else if e.name == ".INSTALL" then Install
      else if env.isScript(e.name[1..]) then Script
      else OtherControl
    else if e.name == "DESCRIPTION" && e.size <= DESCRIPTION_MAX then Description
    else if e.name == "APKINDEX" then Index
    else OtherIndex
  }

  /** An entry of the control section. */
  function MetaEntry(env: Env, c: Ctx, e: Event): (Ctx, int)
    requires e.Entry?
  {
    var p := c.(isPackage := true);
    if c.isIndex then (p, NDX_FORMAT)
    else if !env.hasMeta then (p, NOT_SUPPORTED)
    else match KindOf(env, e)
      case PkgInfo =>
        var (t, r) := Tell(env, p, MetaCall);
        (if e.datahash.Some? then t.(s := Control(t.s, e.datahash.value)) else t, r)
      case Install => (p, PKG_FORMAT)
      case Script => if env.hasScript then Tell(env, p, ScriptCall(e.name)) else (p, 0)
      case _ => (p, 0)
  }

  /** An entry of an index. */
  function IndexEntry(env: Env, c: Ctx, e: Event): (Ctx, int)
    requires e.Entry?
  {
    var x := c.(isIndex := true);
    if c.isPackage then (x, PKG_FORMAT)
    else if !env.hasIndex then (x, NOT_SUPPORTED)
    else match KindOf(env, e)
      case Description => (x.(desc := e.contents), 0)
      case Index => Tell(env, x, IndexCall(c.desc))
      case _ => (x, 0)
  }

  function ControlEntry(env: Env, c: Ctx, e: Event): (Ctx, int)
    requires e.Entry?
  {
    if Hidden(e.name) then MetaEntry(env, c, e) else IndexEntry(env, c, e)
  }

  /** apk_extract_v2_entry */
  function ArchiveEntry(env: Env, c: Ctx, e: Event): (Ctx, int)
    requires e.Entry?
  {
    var (p, r) := ProcessFile(env, c.s, e);
    var d := c.(s := p);
    if r <= 0 then (d, r)
    else if !p.dataStarted || !p.hasDataChecksum then ControlEntry(env, d, e)
    else if !env.hasFile then (d, CANCELED)
    else if Hidden(e.name) then (d, 0)
    else Tell(env, d, FileCall(e.name))
  }

  function Step(env: Env, c: Ctx, e: Event): (Ctx, int)
  {
    if e.Entry? then ArchiveEntry(env, c, e)
    else
      var (p, r) := Part(env, c.s, e);
      (c.(s := p), r)
  }

  // ---- A whole archive --------------------------------------------------------------------------------

  /** The events up to the first that fails, and its code. */
  function Feed(env: Env, events: seq<Event>): (Ctx, int)
  {
    if events == [] then (START, 0)
    else
      var (c, code) := Feed(env, events[..|events| - 1]);
      if code != 0 then (c, code) else Step(env, c, events[|events| - 1])
  }

  /** How the archive reader ends: with the code of the event that failed, which is an error in
      any case, or as it does by itself. */
  function ReaderCode(code: int, tail: int): int
  {
    if code == 0 then tail else if code > 0 then EOF_ERROR else code
  }

  /** The result of the extraction, from the reader's code. */
  function Verdict(env: Env, c: Ctx, code: int): int
  {
    var r1 := if code in {0, CANCELED, EOF_ERROR} && !c.isPackage && !c.isIndex then FORMAT_INVALID else code;
    var r2 := if r1 == 0 && (!c.s.dataVerified || !c.s.endSeen) then INTEGRITY else r1;
    var r3 := if r2 in {0, CANCELED} && c.s.verifyError != 0 then c.s.verifyError else r2;
    if r3 == UNTRUSTED && env.allowUntrusted then 0 else r3
  }

  function Extract(env: Env, events: seq<Event>, tail: int): int
  {
    var (c, code) := Feed(env, events);
    Verdict(env, c, ReaderCode(code, tail))
  }

  lemma FeedSnoc(env: Env, h: seq<Event>, e: Event)
    ensures Feed(env, h + [e]) ==
            if Feed(env, h).1 != 0 then Feed(env, h) else Step(env, Feed(env, h).0, e)
  {
    assert (h + [e])[..|h|] == h && (h + [e])[|h|] == e;
  }

  /** A failing event is the last one. */
  lemma {:induction false} FeedStops(env: Env, events: seq<Event>, n: nat)
    requires n <= |events| && Feed(env, events[..n]).1 != 0
    ensures Feed(env, events) == Feed(env, events[..n])
    decreases |events|
  {
    if n == |events| {
      assert events[..n] == events;
    } else {
      var front := events[..|events| - 1];
      assert front[..n] == events[..n];
      FeedStops(env, front, n);
    }
  }

  // ---- Sections -----------------------------------------------------------------------------------------

  function Fed(e: Event): seq<byte> { if e.Data? then e.bytes else [] }

  /** The compressed bytes among some events. */
  function Compressed(h: seq<Event>): seq<byte>
  {
    if h == [] then [] else Compressed(h[..|h| - 1]) + Fed(h[|h| - 1])
  }

  /** The entry is one of the files that a data section is there for. */
  predicate IsFile(e: Event) { e.Entry? && (e.name == "" || e.name[0] != '.') }

  /** The names of the files among some events. */
  function Names(h: seq<Event>): seq<string>
  {
    if h == [] then []
    else
      var e := h[|h| - 1];
      Names(h[..|h| - 1]) + (if IsFile(e) then [e.name] else [])
  }

  /** The files among some calls. */
  function Files(log: seq<Call>): seq<string>
  {
    if log == [] then []
    else
      var call := log[|log| - 1];
      Files(log[..|log| - 1]) + (if call.FileCall? then [call.name] else [])
  }

  lemma FilesSnoc(log: seq<Call>, call: Call)
    ensures call.FileCall? ==> Files(log + [call]) == Files(log) + [call.name]
    ensures !call.FileCall? ==> Files(log + [call]) == Files(log)
  {
    assert (log + [call])[..|log|] == log;
  }

  /** One more event, seen from an earlier one. */
  lemma From(h: seq<Event>, e: Event, a: nat)
    requires a <= |h|
    ensures Compressed((h + [e])[a..]) == Compressed(h[a..]) + Fed(e)
    ensures !e.Data? ==> Compressed((h + [e])[a..]) == Compressed(h[a..])
    ensures IsFile(e) ==> Names((h + [e])[a..]) == Names(h[a..]) + [e.name]
    ensures !IsFile(e) ==> Names((h + [e])[a..]) == Names(h[a..])
  {
    hide IsFile;
    var s := h[a..] + [e];
    assert (h + [e])[a..] == s && s[..|s| - 1] == h[a..];
  }

  lemma {:induction false} Joined(a: seq<Event>, b: seq<Event>)
    ensures Compressed(a + b) == Compressed(a) + Compressed(b)
    decreases |b|
  {
    hide Fed;
    if b == [] {
      assert a + b == a;
    } else {
      var front, last := b[..|b| - 1], b[|b| - 1];
      Joined(a, front);
      var ab := a + b;
      assert ab[..|ab| - 1] == a + front && ab[|ab| - 1] == last;
      assert Compressed(a) + Compressed(front) + Fed(last) == Compressed(a) + (Compressed(front) + Fed(last));
    }
  }

  // ---- What a verified control section means --------------------------------------------------------------

  /** The bytes are signed by the chosen key, or have the wanted identity. */
  predicate Proven(env: Env, key: Option<nat>, sig: seq<byte>, alg: nat, bytes: seq<byte>)
  {
    if env.action == VerifyIdentity then alg == env.wantedAlg && env.hashOf(alg, bytes) == env.wanted
    else key.Some? && env.verify(key.value, alg, bytes, sig) == 0
  }

  /** Untrusted input is allowed, and nothing worse than a lack of trust was found. */
  predicate Tolerated(env: Env, key: Option<nat>, sig: seq<byte>, alg: nat, bytes: seq<byte>)
  {
    && env.action != VerifyIdentity && env.allowUntrusted
    && (key.None? || env.verify(key.value, alg, bytes, sig) == UNTRUSTED)
  }

  predicate Cleared(env: Env, c: Sign, alg: nat, bytes: seq<byte>)
  {
    Proven(env, c.key, c.sig, alg, bytes) || Tolerated(env, c.key, c.sig, alg, bytes)
  }

  /** Where things happened: the event after which the control part starts, the entry with the
      signature taken over, the first entry of the control section, the entry with the checksum,
      and the event that closed the control part; and the algorithm of the signature, or SHA1
      without one. */
  datatype Marks = Marks(start: nat, signed: nat, begun: nat, noted: nat, closed: nat, alg: nat)

  predicate Open(c: Sign) { c.dataStarted && c.hasDataChecksum }

  predicate Flags(c: Sign)
  {
    && (c.dataStarted ==> c.controlStarted) && (c.hasDataChecksum ==> c.controlStarted && c.alg == SHA256)
    && (c.controlVerified ==> c.dataStarted && (c.hasDataChecksum || c.endSeen))
    && (Open(c) ==> c.controlVerified && c.digestAlg == SHA256)
    && (c.dataVerified ==> c.endSeen && c.controlVerified)
  }

  /** The event is a .PKGINFO entry with this checksum. */
  predicate Notes(e: Event, hash: seq<byte>)
  {
    e.Entry? && e.name == ".PKGINFO" && e.datahash == Some(hash)
  }

  /** The file name is that of a signature with this digest algorithm by the key of this name. */
  predicate SignatureName(name: string, alg: nat, key: string)
  {
    || (alg == 4 && name == ".SIGN.RSA512." + key)
    || (alg == 3 && name == ".SIGN.RSA256." + key)
    || (alg == 2 && (name == ".SIGN.RSA." + key || name == ".SIGN.DSA." + key))
  }

  /** The event is a signature with this algorithm by a key that is known by its name. */
  ghost predicate Signs(env: Env, e: Event, key: nat, sig: seq<byte>, alg: nat)
  {
    && e.Entry? && e.size <= 65536 && e.contents == sig
    && exists name :: env.keyByName(name) == Some(key) && SignatureName(e.name, alg, name)
  }

  ghost predicate Offers(env: Env, e: Event)
  {
    && e.Entry? && e.size <= 65536
    && exists name, alg: nat :: env.keyByName(name).Some? && SignatureName(e.name, alg, name)
  }

  lemma Front(name: string, kind: string, key: string)
    ensures name == ".SIGN." + kind + key <==>
              StartsWith(name, ".SIGN.") && StartsWith(name[6..], kind) && name[6..][|kind|..] == key
  {
    if name == ".SIGN." + kind + key {
      assert name[..6] == ".SIGN." && name[6..] == kind + key;
    }
    if StartsWith(name, ".SIGN.") && StartsWith(name[6..], kind) && name[6..][|kind|..] == key {
      assert name == name[..6] + (name[6..][..|kind|] + name[6..][|kind|..]);
    }
  }

  lemma SignatureNamed(name: string, alg: nat, key: string)
    ensures SignatureOf(name) == Some((alg, key)) <==> SignatureName(name, alg, key)
  {
    Front(name, "RSA512.", key);
    Front(name, "RSA256.", key);
    Front(name, "RSA.", key);
    Front(name, "DSA.", key);
    assert ".SIGN.RSA512." == ".SIGN." + "RSA512." && ".SIGN.RSA256." == ".SIGN." + "RSA256.";
    assert ".SIGN.RSA." == ".SIGN." + "RSA." && ".SIGN.DSA." == ".SIGN." + "DSA.";
    if StartsWith(name, ".SIGN.") {
      OneKind(name[6..]);
    }
  }

  lemma OneKind(rest: string)
    ensures StartsWith(rest, "RSA512.") ==> !StartsWith(rest, "RSA256.") && !StartsWith(rest, "RSA.") && !StartsWith(rest, "DSA.")
    ensures StartsWith(rest, "RSA256.") ==> !StartsWith(rest, "RSA.") && !StartsWith(rest, "DSA.")
    ensures StartsWith(rest, "RSA.") ==> !StartsWith(rest, "DSA.")
  {
    if |rest| >= 4 {
      assert StartsWith(rest, "RSA512.") ==> rest[..7][3] == rest[3] == '5' && rest[..7][0] == 'R';
      assert StartsWith(rest, "RSA256.") ==> rest[..7][3] == rest[3] == '2' && rest[..7][0] == 'R';
      assert StartsWith(rest, "RSA.") ==> rest[..4][3] == rest[3] == '.' && rest[..4][0] == 'R';
      assert StartsWith(rest, "DSA.") ==> rest[..4][0] == rest[0] == 'D';
    }
  }

  ghost predicate Places(env: Env, h: seq<Event>, c: Sign, m: Marks)
  {
    && Flags(c) && m.start <= |h| && (m.start == 0 || h[m.start - 1].Boundary?)
    && (!c.dataStarted ==> forall k :: m.start <= k < |h| ==> !h[k].Boundary?)
    && (c.key.Some? ==> m.signed < |h| && Signs(env, h[m.signed], c.key.value, c.sig, m.alg))
    && (c.controlStarted ==> m.start <= m.begun < |h| && (c.key.Some? ==> m.signed < m.begun))
    && (c.hasDataChecksum ==> m.begun <= m.noted < |h| && Notes(h[m.noted], c.dataHash))
    && (Open(c) ==> m.noted < m.closed < |h| && (h[m.closed].Boundary? || h[m.closed].End?))
    && (Open(c) && !c.endSeen ==> h[m.closed].Boundary?)
    && (Open(c) ==> forall k :: m.start <= k < |h| && k != m.closed ==> !h[k].Boundary?)
    && Starts(env, c, m)
  }

  /** The running digest is one for the chosen key, with the algorithm of its signature, exactly if
      the signature came in a part before; a control section is verified with no other. */
  ghost predicate Starts(env: Env, c: Sign, m: Marks)
  {
    && (c.key.None? ==> m.alg == 2) && (env.action == VerifyIdentity ==> c.key.None?)
    && (!c.hasDataChecksum ==> c.alg == m.alg)
    && (c.started ==> c.key.Some?) && (c.key.Some? && (c.started || c.controlVerified) ==> m.signed < m.start)
    && (!c.controlVerified ==> c.digestAlg == if c.started then m.alg else 2)
  }

  /** The running digest has taken in the control part so far or, once that is closed, the data
      part so far. */
  ghost predicate Digests(env: Env, h: seq<Event>, c: Sign, m: Marks)
    requires Places(env, h, c, m)
  {
    && (!c.endSeen ==> c.digest == if Open(c) then Compressed(h[m.closed + 1..]) else Compressed(h[m.start..]))
    && (env.action == VerifyAndGenerate ==>
          && (!c.controlStarted ==> c.identity == [])
          && (c.controlStarted && !c.dataStarted ==> c.identity == Compressed(h[m.begun..])))
  }

  /** What the control check is made over. */
  ghost function ControlBytes(env: Env, h: seq<Event>, c: Sign, m: Marks): seq<byte>
    requires Places(env, h, c, m)
  {
    if Open(c) then Compressed(h[m.start..m.closed]) else Compressed(h[m.start..])
  }

  /** The control check, as far as it has been made. */
  ghost predicate Checked(env: Env, h: seq<Event>, c: Sign, m: Marks)
    requires Places(env, h, c, m)
  {
    if !c.controlVerified then c.verifyError == UNTRUSTED
    else if c.verifyError == 0 then Proven(env, c.key, c.sig, m.alg, ControlBytes(env, h, c, m))
    else c.verifyError == UNTRUSTED && Tolerated(env, c.key, c.sig, m.alg, ControlBytes(env, h, c, m))
  }

  /** The identity made from the control section, and the data found to have its checksum. */
  ghost predicate Results(env: Env, h: seq<Event>, c: Sign, m: Marks)
    requires Places(env, h, c, m)
  {
    Open(c) ==>
      && (env.action == VerifyAndGenerate ==> c.generated == Some(IdentityOf(env, Compressed(h[m.begun..m.closed]))))
      && (c.dataVerified ==>
            h[m.closed].Boundary? && env.hashOf(SHA256, Compressed(h[m.closed + 1..])) == c.dataHash)
  }

  ghost predicate SignInv(env: Env, h: seq<Event>, c: Sign, m: Marks)
  {
    Places(env, h, c, m) && Digests(env, h, c, m) && Checked(env, h, c, m) && Results(env, h, c, m)
  }

  /** The files delivered are those of the data section, each once and in order. */
  ghost predicate Delivers(h: seq<Event>, c: Ctx, m: Marks)
  {
    if Open(c.s) then m.closed < |h| && Files(c.log) == Names(h[m.closed + 1..]) else Files(c.log) == []
  }

  ghost predicate Inv(env: Env, h: seq<Event>, c: Ctx, m: Marks)
  {
    SignInv(env, h, c.s, m) && Delivers(h, c, m) && !(c.isPackage && c.isIndex)
  }

  // ---- Every event keeps it -----------------------------------------------------------------------------

  /** What the sections hold does not depend on an entry that follows. */
  lemma EntrySeen(env: Env, h: seq<Event>, c: Sign, m: Marks, e: Event)
    requires SignInv(env, h, c, m) && e.Entry?
    ensures SignInv(env, h + [e], c, m)
  {
    hide Compressed, Names, Proven, Tolerated, Signs, Notes;
    var g := h + [e];
    From(h, e, m.start);
    if c.controlStarted {
      From(h, e, m.begun);
    }
    if Open(c) {
      From(h, e, m.closed + 1);
      assert g[m.start..m.closed] == h[m.start..m.closed] && g[m.begun..m.closed] == h[m.begun..m.closed];
    }
  }

  /** The first entry of the control section; with `data`, an entry that starts the data section
      at once. */
  lemma Begins(env: Env, g: seq<Event>, c: Sign, m: Marks, e: Event, data: bool)
    requires SignInv(env, g, c, m) && g != [] && g[|g| - 1] == e && e.Entry? && !c.dataStarted && !c.hasDataChecksum
    requires c.key.Some? ==> m.signed < |g| - 1
    ensures SignInv(env, g, c.(controlStarted := true, dataStarted := data),
                if c.controlStarted then m else m.(begun := |g| - 1))
  {
    hide Compressed, Names, Proven, Tolerated, Signs, Notes;
    assert g[|g| - 1..] == [e];
    LastEntry(e);
  }

  lemma SignatureTaken(env: Env, g: seq<Event>, c: Sign, m: Marks, e: Event)
    requires SignInv(env, g, c, m) && g != [] && g[|g| - 1] == e && e.Entry? && !c.controlStarted
    ensures var p := Signature(env, c, e); SignInv(env, g, p, MarkedSigned(g, c, p, m))
  {
    hide Compressed, Names, Proven, Tolerated, Notes, Signs;
    SignatureOnly(env, c, e);
  }

  /** The marks after the last event, if it was a signature. */
  function MarkedSigned(g: seq<Event>, c: Sign, p: Sign, m: Marks): Marks
    requires g != []
  {
    if p.key == c.key then m else m.(signed := |g| - 1, alg := p.alg)
  }

  lemma Sorted(env: Env, g: seq<Event>, c: Sign, m: Marks, e: Event) returns (m': Marks)
    requires SignInv(env, g, c, m) && g != [] && g[|g| - 1] == e && e.Entry? && !Open(c)
    requires c.key.Some? ==> m.signed < |g| - 1
    ensures var (p, r) := ProcessFile(env, c, e);
            r >= 0 ==> SignInv(env, g, p, m') && !Open(p) && (r > 0 ==> p.controlStarted)
  {
    hide SignInv, Signature, StartsWith, Hidden;
    FlagsOf(env, g, c, m);
    m' := m;
    if !c.dataStarted {
      if !c.hasDataChecksum && (!Hidden(e.name) || '/' in e.name) {
        Begins(env, g, c, m, e, true);
        m' := if c.controlStarted then m else m.(begun := |g| - 1);
      } else if c.controlStarted {
      } else if !StartsWith(e.name, ".SIGN.") {
        Begins(env, g, c, m, e, false);
        m' := m.(begun := |g| - 1);
      } else {
        SignatureTaken(env, g, c, m, e);
        SignatureOnly(env, c, e);
        m' := MarkedSigned(g, c, Signature(env, c, e), m);
      }
    }
  }

  predicate IsSignature(e: Event) { e.Entry? && StartsWith(e.name, ".SIGN.") && '/' !in e.name }

  /** What the sorting of an entry means: 0 exactly for a signature in front of the control section,
      of which only one by a known key is taken over, and only one; a data section is started only
      without a checksum, when no identity is wanted, and by permission or with a key. */
  lemma Filed(env: Env, h: seq<Event>, c: Sign, m: Marks, e: Event) returns (m': Marks)
    requires SignInv(env, h, c, m) && e.Entry?
    ensures var (p, r) := ProcessFile(env, c, e);
            && (r >= 0 ==> SignInv(env, h + [e], p, m') && (Open(p) <==> Open(c)) && (Open(c) ==> m' == m && p == c))
            && (r == 0 <==> !c.controlStarted && IsSignature(e)) && (r > 0 ==> p.controlStarted)
            && (r == 0 && env.action != VerifyIdentity ==> (p.key.Some? <==> c.key.Some? || Offers(env, e)))
            && (p.key != c.key ==> c.key.None? && p.key.Some? && r == 0 && Signs(env, e, p.key.value, p.sig, p.alg))
            && (r > 0 && p.dataStarted && !c.dataStarted ==>
                  !p.hasDataChecksum && env.action != VerifyIdentity && (p.key.Some? || env.allowUntrusted))
  {
    hide SignInv, Signature, Signs, StartsWith;
    FlagsOf(env, h, c, m);
    EntrySeen(env, h, c, m, e);
    SignatureOnly(env, c, e);
    m' := m;
    if Open(c) {
      InSection(env, c, e);
    } else {
      KeySeen(env, h, c, m);
      m' := Sorted(env, h + [e], c, m, e);
    }
    SignNames(e);
  }

  lemma SignNames(e: Event)
    requires e.Entry?
    ensures StartsWith(e.name, ".SIGN.") ==> Hidden(e.name)
  {
    if StartsWith(e.name, ".SIGN.") {
      assert e.name[..6][0] == e.name[0];
    }
  }

  lemma SignatureOnly(env: Env, c: Sign, e: Event)
    requires e.Entry?
    ensures var p := Signature(env, c, e);
            && p == c.(alg := p.alg, key := p.key, sig := p.sig) && (p.key == c.key ==> p == c)
            && (p.key != c.key ==> c.key.None? && p.key.Some? && Signs(env, e, p.key.value, p.sig, p.alg))
            && (env.action != VerifyIdentity ==> (p.key.Some? <==> c.key.Some? || Offers(env, e)))
            && (env.action == VerifyIdentity ==> p == c)
  {
    hide SignatureOf, Signs, Offers, Signature;
    var found := SignatureOf(e.name);
    SignatureIs(env, c, e);
    OffersIff(env, e);
    if c.key.None? && env.action != VerifyIdentity && Offers(env, e) {
      SignsAs(env, e, found.value.0, found.value.1);
    }
  }

  lemma SignatureIs(env: Env, c: Sign, e: Event)
    requires e.Entry?
    ensures var found := SignatureOf(e.name);
            Signature(env, c, e) ==
            if c.key.None? && env.action != VerifyIdentity && found.Some? && e.size <= SIGNATURE_MAX
               && env.keyByName(found.value.1).Some?
            then c.(alg := found.value.0, key := env.keyByName(found.value.1), sig := e.contents)
            else c
  {
    hide SignatureOf;
  }

  lemma SignsAs(env: Env, e: Event, alg: nat, name: string)
    requires e.Entry? && SignatureOf(e.name) == Some((alg, name)) && e.size <= SIGNATURE_MAX && env.keyByName(name).Some?
    ensures Signs(env, e, env.keyByName(name).value, e.contents, alg)
  {
    hide SignatureOf, SignatureName;
    SignatureNamed(e.name, alg, name);
  }

  lemma OffersIff(env: Env, e: Event)
    requires e.Entry?
    ensures Offers(env, e) <==>
              var found := SignatureOf(e.name); found.Some? && e.size <= SIGNATURE_MAX && env.keyByName(found.value.1).Some?
  {
    hide SignatureOf, SignatureName;
    var found := SignatureOf(e.name);
    if found.Some? {
      SignatureNamed(e.name, found.value.0, found.value.1);
    }
    forall name, alg: nat | SignatureName(e.name, alg, name)
      ensures found == Some((alg, name))
    {
      SignatureNamed(e.name, alg, name);
    }
  }

  lemma FlagsOf(env: Env, h: seq<Event>, c: Sign, m: Marks)
    requires SignInv(env, h, c, m)
    ensures Flags(c)
  {
  }

  lemma LastEntry(e: Event)
    requires e.Entry?
    ensures Compressed([e]) == []
  {
    assert [e][..0] == [];
  }

  lemma Noted(env: Env, g: seq<Event>, c: Sign, m: Marks, hash: seq<byte>)
    requires SignInv(env, g, c, m) && g != [] && Notes(g[|g| - 1], hash) && !Open(c) && c.controlStarted
    ensures SignInv(env, g, Control(c, hash), if c.dataStarted then m else m.(noted := |g| - 1))
  {
    hide Compressed, Names, Proven, Tolerated, Signs, Notes;
  }

  lemma KeySeen(env: Env, h: seq<Event>, c: Sign, m: Marks)
    requires SignInv(env, h, c, m)
    ensures c.key.Some? ==> m.signed < |h|
  {
  }

  lemma DataKeeps(env: Env, h: seq<Event>, c: Sign, m: Marks, e: Event)
    requires SignInv(env, h, c, m) && e.Data? && !c.endSeen && !c.dataVerified
    ensures SignInv(env, h + [e], Part(env, c, e).0, m)
  {
    hide SignInv;
    if Open(c) {
      DataMore(env, h, c, m, e);
    } else {
      ControlMore(env, h, c, m, e);
    }
  }

  lemma DataMore(env: Env, h: seq<Event>, c: Sign, m: Marks, e: Event)
    requires SignInv(env, h, c, m) && e.Data? && Open(c) && !c.endSeen && !c.dataVerified
    ensures SignInv(env, h + [e], c.(digest := c.digest + e.bytes), m)
  {
    hide Compressed, Names, Proven, Tolerated, Signs, Notes;
    var g := h + [e];
    From(h, e, m.closed + 1);
    assert g[m.start..m.closed] == h[m.start..m.closed] && g[m.begun..m.closed] == h[m.begun..m.closed];
  }

  lemma ControlMore(env: Env, h: seq<Event>, c: Sign, m: Marks, e: Event)
    requires SignInv(env, h, c, m) && e.Data? && !Open(c) && !c.endSeen
    ensures SignInv(env, h + [e], Part(env, c, e).0, m)
  {
    hide Compressed, Names, Proven, Tolerated, Signs, Notes;
    From(h, e, m.start);
    if c.controlStarted {
      From(h, e, m.begun);
    }
  }

  lemma SignaturesEnd(env: Env, h: seq<Event>, c: Sign, m: Marks)
    requires SignInv(env, h, c, m) && !c.controlStarted
    ensures var (p, r) := Part(env, c, Boundary); r == 0 ==> SignInv(env, h + [Boundary], p, m.(start := |h| + 1))
  {
    hide Proven, Tolerated, Signs, Notes;
    assert (h + [Boundary])[|h| + 1..] == [];
  }

  /** The end of a control section without a checksum: the digest goes on. */
  lemma ControlPassed(env: Env, h: seq<Event>, c: Sign, m: Marks)
    requires SignInv(env, h, c, m) && c.controlStarted && !c.dataStarted && !c.hasDataChecksum && !c.endSeen
    ensures SignInv(env, h + [Boundary], c.(dataStarted := true), m)
  {
    hide Compressed, Names, Proven, Tolerated, Signs, Notes;
    From(h, Boundary, m.start);
  }

  lemma DataClosed(env: Env, h: seq<Event>, c: Sign, m: Marks)
    requires SignInv(env, h, c, m) && Open(c) && !c.endSeen && !c.dataVerified
    ensures var (p, r) := DataEnd(env, c.(endSeen := true)); r == 0 ==> SignInv(env, h + [End], p, m)
  {
    hide Compressed, Names, Proven, Tolerated, Signs, Notes;
    var g := h + [End];
    From(h, End, m.start);
    From(h, End, m.begun);
    From(h, End, m.closed + 1);
    assert g[m.start..m.closed] == h[m.start..m.closed] && g[m.begun..m.closed] == h[m.begun..m.closed];
  }

  /** The control check passes exactly if the bytes digested are proven or tolerated, and there is a
      checksum if an identity is to be generated; and what it then leaves behind. */
  lemma CheckMeans(env: Env, c: Sign, end: bool)
    requires c.verifyError == UNTRUSTED
    ensures var (p, r) := CheckControl(env, c, end);
            && (r == 0 <==>
                  && Cleared(env, c, c.digestAlg, c.digest) && (env.action != VerifyIdentity && c.key.Some? ==> c.started)
                  && (env.action == VerifyAndGenerate ==> c.hasDataChecksum))
            && (r == 0 ==>
                  && p.controlVerified && p.dataVerified == (!c.hasDataChecksum && end)
                  && (if p.verifyError == 0 then Proven(env, c.key, c.sig, c.digestAlg, c.digest)
                      else p.verifyError == UNTRUSTED && Tolerated(env, c.key, c.sig, c.digestAlg, c.digest))
                  && (env.action == VerifyAndGenerate ==> c.hasDataChecksum && p.generated == Some(IdentityOf(env, c.identity)))
                  && p == c.(controlVerified := true, dataVerified := p.dataVerified, verifyError := p.verifyError, generated := p.generated))
  {
  }

  /** The end of a control section with a checksum, when its check passes. */
  lemma ControlClosed(env: Env, h: seq<Event>, c: Sign, m: Marks, e: Event)
    requires SignInv(env, h, c, m) && c.controlStarted && !c.dataStarted && c.hasDataChecksum && !c.endSeen
    requires e.Boundary? || e.End?
    ensures var (p, r) := SectionEnd(env, c.(endSeen := e.End?), e.End?);
            r == 0 ==> SignInv(env, h + [e], p, m.(closed := |h|))
  {
    hide Proven, Tolerated, Signs, Notes, CheckControl, Compressed;
    CheckMeans(env, c.(endSeen := e.End?, dataStarted := true), e.End?);
    var g := h + [e];
    assert g[m.start..|h|] == h[m.start..] && g[m.begun..|h|] == h[m.begun..];
    assert g[|h| + 1..] == [];
    NothingYet();
  }

  lemma NothingYet()
    ensures Compressed([]) == [] && Names([]) == []
  {
  }

  /** The end of everything without a checksum, when the check over control and data passes. */
  lemma AllClosed(env: Env, h: seq<Event>, c: Sign, m: Marks)
    requires SignInv(env, h, c, m) && c.controlStarted && !c.hasDataChecksum && !c.endSeen
    ensures var (p, r) := SectionEnd(env, c.(endSeen := true), true);
            r == 0 ==> SignInv(env, h + [End], p, m)
  {
    hide Proven, Tolerated, Signs, Notes, CheckControl, Compressed;
    CheckMeans(env, c.(endSeen := true, dataStarted := true), true);
    From(h, End, m.start);
  }

  lemma PartKeeps(env: Env, h: seq<Event>, c: Sign, m: Marks, e: Event) returns (m': Marks)
    requires SignInv(env, h, c, m) && !e.Entry?
    ensures var (p, r) := Part(env, c, e);
            r == 0 ==>
              && SignInv(env, h + [e], p, m')
              && (Open(c) ==> Open(p) && m'.closed == m.closed) && (!Open(c) && Open(p) ==> m'.closed == |h|)
  {
    hide SignInv, ControlError;
    m' := m;
    if Part(env, c, e).1 == 0 {
      if e.Data? {
        DataKeeps(env, h, c, m, e);
      } else if !c.controlStarted {
        SignaturesEnd(env, h, c, m);
        m' := m.(start := |h| + 1);
      } else if !c.hasDataChecksum && !c.dataStarted && e.Boundary? {
        ControlPassed(env, h, c, m);
      } else if Open(c) {
        DataClosed(env, h, c, m);
      } else if c.hasDataChecksum {
        ControlClosed(env, h, c, m, e);
        m' := m.(closed := |h|);
      } else {
        AllClosed(env, h, c, m);
      }
    }
  }

  /** What a part means: a data section with a checksum is opened behind a control part that is
      cleared in all its bytes, and data is verified at the end, if the bytes since then have the
      checksum or, without one, all bytes are cleared. */
  lemma PartMeans(env: Env, h: seq<Event>, c: Sign, m: Marks, e: Event) returns (m': Marks)
    requires SignInv(env, h, c, m) && !e.Entry?
    ensures var (p, r) := Part(env, c, e);
            r == 0 ==>
              && SignInv(env, h + [e], p, m') && !c.endSeen && !c.dataVerified && !(c.dataStarted && e.Boundary?)
              && (Open(c) ==> Open(p) && m'.closed == m.closed)
              && (Open(p) && !Open(c) ==> Opened(env, h, p, m'))
              && (p.dataVerified ==> e.End? && Ended(env, h, p, m'))
  {
    hide SignInv, SectionEnd;
    m' := PartKeeps(env, h, c, m, e);
    var (p, r) := Part(env, c, e);
    if r == 0 {
      if Open(p) && !Open(c) {
        OpenedNow(env, h, p, m', e);
      }
      if p.dataVerified {
        VerifiedAtEnd(env, h + [e], c, p, m', e);
        EndedNow(env, h, p, m');
      }
    }
  }

  /** The key is that of a signature in a part before the control part, and its algorithm the one
      that the name of the signature says; without a key it is SHA1. */
  ghost predicate Signed(env: Env, h: seq<Event>, c: Sign, m: Marks)
  {
    if c.key.None? then m.alg == 2
    else m.signed < m.start <= |h| && Signs(env, h[m.signed], c.key.value, c.sig, m.alg)
  }

  /** The control part has just been closed, cleared in all its bytes. */
  ghost predicate Opened(env: Env, h: seq<Event>, c: Sign, m: Marks)
  {
    && m.start <= m.noted < m.closed == |h| && Notes(h[m.noted], c.dataHash)
    && Signed(env, h, c, m) && Cleared(env, c, m.alg, Compressed(h[m.start..]))
  }

  /** The end has come: the bytes behind the control part have the checksum, or all are cleared. */
  ghost predicate Ended(env: Env, h: seq<Event>, c: Sign, m: Marks)
  {
    if c.hasDataChecksum
    then m.closed < |h| && h[m.closed].Boundary? && env.hashOf(SHA256, Compressed(h[m.closed + 1..])) == c.dataHash
    else m.start <= |h| && Signed(env, h, c, m) && Cleared(env, c, m.alg, Compressed(h[m.start..]))
  }

  lemma OpenedNow(env: Env, h: seq<Event>, c: Sign, m: Marks, e: Event)
    requires SignInv(env, h + [e], c, m) && Open(c) && m.closed == |h|
    ensures Opened(env, h, c, m)
  {
    hide Compressed, Proven, Tolerated, Signs, Notes;
    assert (h + [e])[m.start..m.closed] == h[m.start..];
  }

  lemma VerifiedAtEnd(env: Env, g: seq<Event>, c: Sign, p: Sign, m: Marks, e: Event)
    requires !e.Entry? && Part(env, c, e) == (p, 0) && SignInv(env, g, p, m) && p.dataVerified
    ensures e.End?
  {
    hide SectionEnd;
    if e.Boundary? {
      EndKept(env, c.(endSeen := false), false);
    }
  }

  lemma EndKept(env: Env, c: Sign, end: bool)
    ensures SectionEnd(env, c, end).0.endSeen == c.endSeen
  {
    hide CheckControl, KeyTrust;
    CheckKeeps(env, c.(dataStarted := true), end);
  }

  lemma CheckKeeps(env: Env, c: Sign, end: bool)
    ensures CheckControl(env, c, end).0.endSeen == c.endSeen
  {
    hide Settled;
    SettleKeeps(env, c, end);
    SettleKeeps(env, c.(generated := Some(IdentityOf(env, c.identity))), end);
  }

  lemma SettleKeeps(env: Env, c: Sign, end: bool)
    ensures Settled(env, c, end).0.endSeen == c.endSeen
  {
    hide ControlError;
  }

  lemma EndedNow(env: Env, h: seq<Event>, c: Sign, m: Marks)
    requires SignInv(env, h + [End], c, m) && c.dataVerified
    ensures Ended(env, h, c, m)
  {
    hide Compressed, Proven, Tolerated, Signs, Notes;
    var g := h + [End];
    assert m.start <= |h|;
    From(h, End, m.start);
    if c.hasDataChecksum {
      assert m.closed < |h|;
      From(h, End, m.closed + 1);
    }
  }

  // ---- With the calls -------------------------------------------------------------------------------------

  lemma InfoEntry(env: Env, e: Event)
    requires e.Entry? && KindOf(env, e) == PkgInfo && e.datahash.Some?
    ensures Notes(e, e.datahash.value)
  {
  }

  lemma ControlSeen(env: Env, g: seq<Event>, c: Ctx, m: Marks, e: Event) returns (m': Marks)
    requires Inv(env, g, c, m) && g != [] && g[|g| - 1] == e && e.Entry? && !Open(c.s) && c.s.controlStarted
    ensures var (p, r) := ControlEntry(env, c, e); r == 0 ==> Inv(env, g, p, m')
  {
    hide SignInv, Hidden, KindOf, Notes, Files, Names;
    var (p, r) := ControlEntry(env, c, e);
    m' := m;
    FilesSnoc(c.log, MetaCall);
    FilesSnoc(c.log, ScriptCall(e.name));
    FilesSnoc(c.log, IndexCall(c.desc));
    if r == 0 && KindOf(env, e) == PkgInfo && e.datahash.Some? {
      InfoEntry(env, e);
      Noted(env, g, c.s, m, e.datahash.value);
      m' := if c.s.dataStarted then m else m.(noted := |g| - 1);
    }
  }

  lemma FileSeen(env: Env, h: seq<Event>, c: Ctx, m: Marks, e: Event)
    requires Inv(env, h, c, m) && e.Entry? && Open(c.s)
    ensures Inv(env, h + [e], if IsFile(e) then c.(log := c.log + [FileCall(e.name)]) else c, m)
  {
    hide SignInv, Files, Names, Hidden, Compressed;
    EntrySeen(env, h, c.s, m, e);
    FilesSnoc(c.log, FileCall(e.name));
    From(h, e, m.closed + 1);
  }

  lemma EntryKeeps(env: Env, h: seq<Event>, c: Ctx, m: Marks, e: Event) returns (m': Marks)
    requires Inv(env, h, c, m) && e.Entry?
    ensures var (p, r) := ArchiveEntry(env, c, e); r == 0 ==> Inv(env, h + [e], p, m')
  {
    hide SignInv, ProcessFile, ControlEntry, Files, Names;
    m' := m;
    if Open(c.s) {
      InSection(env, c.s, e);
      FileSeen(env, h, c, m, e);
    } else {
      EntrySeen(env, h, c.s, m, e);
      KeySeen(env, h, c.s, m);
      m' := Sorted(env, h + [e], c.s, m, e);
      var (p, r) := ProcessFile(env, c.s, e);
      if r > 0 {
        m' := ControlSeen(env, h + [e], c.(s := p), m', e);
      }
    }
  }

  lemma InSection(env: Env, c: Sign, e: Event)
    requires e.Entry? && c.dataStarted
    ensures ProcessFile(env, c, e) == (c, 1)
  {
  }

  /** A part keeps the files delivered: it opens a data section with none, or brings none. */
  lemma PartDelivers(env: Env, h: seq<Event>, c: Ctx, m: Marks, e: Event) returns (m': Marks)
    requires Inv(env, h, c, m) && !e.Entry?
    ensures var (p, r) := Part(env, c.s, e); r == 0 ==> Inv(env, h + [e], c.(s := p), m')
  {
    hide SignInv, Files, Names, Compressed, CheckedEnd, DataEnd;
    m' := PartKeeps(env, h, c.s, m, e);
    if Open(c.s) {
      From(h, e, m.closed + 1);
    }
    assert (h + [e])[|h| + 1..] == [];
    NothingYet();
  }

  // ---- Every run --------------------------------------------------------------------------------------

  lemma {:induction false} RunKeeps(env: Env, events: seq<Event>) returns (m: Marks)
    requires Feed(env, events).1 == 0
    ensures Inv(env, events, Feed(env, events).0, m)
  {
    if events == [] {
      m := Marks(0, 0, 0, 0, 0, 2);
    } else {
      hide Inv, Step, Part, ArchiveEntry;
      var h, e := events[..|events| - 1], events[|events| - 1];
      assert events == h + [e];
      FeedSnoc(env, h, e);
      m := RunKeeps(env, h);
      m := StepKeeps(env, h, Feed(env, h).0, m, e);
    }
  }

  lemma StepKeeps(env: Env, h: seq<Event>, c: Ctx, m: Marks, e: Event) returns (m': Marks)
    requires Inv(env, h, c, m)
    ensures Step(env, c, e).1 == 0 ==> Inv(env, h + [e], Step(env, c, e).0, m')
  {
    hide Inv, Part, ArchiveEntry;
    if e.Entry? {
      m' := EntryKeeps(env, h, c, m, e);
    } else {
      m' := PartDelivers(env, h, c, m, e);
    }
  }

  /** One call has been added to the log. */
  predicate Added(log: seq<Call>, later: seq<Call>)
  {
    |later| == |log| + 1 && later[..|log|] == log
  }

  lemma AddedOne(log: seq<Call>, call: Call)
    ensures Added(log, log + [call]) && (log + [call])[|log|] == call
  {
  }

  lemma ControlCalls(env: Env, c: Ctx, e: Event)
    requires e.Entry?
    ensures var log := ControlEntry(env, c, e).0.log;
            log == c.log || (Added(c.log, log) && !log[|c.log|].FileCall?)
  {
    hide KindOf, Added;
    AddedOne(c.log, MetaCall);
    AddedOne(c.log, ScriptCall(e.name));
    AddedOne(c.log, IndexCall(c.desc));
  }

  lemma PlainFile(e: Event)
    requires e.Entry?
    ensures IsFile(e) <==> !Hidden(e.name)
  {
  }

  lemma OpenSorted(env: Env, c: Sign, e: Event)
    requires e.Entry? && Open(ProcessFile(env, c, e).0)
    ensures Open(c)
  {
    hide Hidden, StartsWith, Signature;
    SignatureOnly(env, c, e);
  }

  /** An event makes at most one call, and only an entry makes one; a file is told of only in an
      open data section. */
  lemma StepCalls(env: Env, c: Ctx, e: Event)
    ensures var log := Step(env, c, e).0.log;
            || log == c.log
            || (&& e.Entry? && Added(c.log, log)
                && (log[|c.log|].FileCall? ==> Open(c.s) && IsFile(e) && log[|c.log|].name == e.name))
  {
    hide ProcessFile, ControlEntry, Part, Hidden, Added;
    if e.Entry? {
      PlainFile(e);
      var p := ProcessFile(env, c.s, e).0;
      ControlCalls(env, c.(s := p), e);
      AddedOne(c.log, FileCall(e.name));
      if Open(p) {
        OpenSorted(env, c.s, e);
      }
    }
  }

  /** Call i of the run is made at event n. */
  ghost predicate CalledAt(env: Env, events: seq<Event>, i: nat, n: nat)
    requires i < |Feed(env, events).0.log|
  {
    var log := Feed(env, events).0.log;
    && n < |events| && Feed(env, events[..n]).1 == 0
    && Feed(env, events[..n]).0.log == log[..i] && Feed(env, events[..n + 1]).0.log == log[..i + 1]
  }

  lemma {:induction false} CallMade(env: Env, events: seq<Event>, i: nat) returns (n: nat)
    requires i < |Feed(env, events).0.log|
    ensures CalledAt(env, events, i, n)
  {
    hide Step;
    var h, e := events[..|events| - 1], events[|events| - 1];
    var (c, code) := Feed(env, h);
    assert events == h + [e];
    FeedSnoc(env, h, e);
    StepCalls(env, c, e);
    if i < |c.log| {
      n := CallMade(env, h, i);
      assert h[..n] == events[..n] && h[..n + 1] == events[..n + 1];
      assert Feed(env, events).0.log[..i] == c.log[..i] && Feed(env, events).0.log[..i + 1] == c.log[..i + 1];
    } else {
      n := |h|;
      assert events[..n] == h && events[..n + 1] == events;
      assert Feed(env, events).0.log[..i] == c.log;
    }
  }

  /** The file is an entry behind a control section that was closed and checked: signed by a key
      found in the archive, of the wanted identity, or tolerated by permission, in all its
      compressed bytes; and the checksum of the data was noted in that section. */
  ghost predicate Backed(env: Env, h: seq<Event>, n: nat, c: Sign, m: Marks)
  {
    && m.start <= m.begun <= m.noted < m.closed < n < |h| && IsFile(h[n])
    && (m.start == 0 || h[m.start - 1].Boundary?)
    && (h[m.closed].Boundary? || h[m.closed].End?)
    && (forall k :: m.start <= k < n && k != m.closed ==> !h[k].Boundary?)
    && Notes(h[m.noted], c.dataHash)
    && Signed(env, h, c, m)
    && (var bytes := Compressed(h[m.start..m.closed]);
        Proven(env, c.key, c.sig, m.alg, bytes) || Tolerated(env, c.key, c.sig, m.alg, bytes))
  }

  lemma ClosedBefore(env: Env, h: seq<Event>, n: nat, c: Sign, m: Marks)
    requires Backed(env, h, n, c, m)
    ensures m.closed < n < |h| && (h[m.closed].Boundary? || h[m.closed].End?)
  {
  }

  /** What an entry of the control section or an index means: no file is told of, a package and an
      index do not mix, and a checksum is recorded only in front of the data section. */
  lemma ControlMeans(env: Env, g: seq<Event>, c: Ctx, m: Marks, e: Event) returns (m': Marks)
    requires Inv(env, g, c, m) && g != [] && g[|g| - 1] == e && e.Entry? && !Open(c.s) && c.s.controlStarted
    ensures var (p, r) := ControlEntry(env, c, e);
            && (p.log == c.log || (Added(c.log, p.log) && !p.log[|c.log|].FileCall?))
            && (p.s != c.s ==> !c.s.dataStarted && p.s.hasDataChecksum && Notes(e, p.s.dataHash))
            && (r == 0 ==> Inv(env, g, p, m') && p.isPackage == Hidden(e.name) && p.isIndex == !Hidden(e.name))
  {
    hide Inv, Hidden, KindOf, Added, Notes;
    m' := ControlSeen(env, g, c, m, e);
    ControlCalls(env, c, e);
    if KindOf(env, e) == PkgInfo && e.datahash.Some? {
      InfoEntry(env, e);
    }
  }

  /** What an archive entry means: it makes at most one call, and for a file only behind a control
      section that was checked. */
  lemma EntryMeans(env: Env, h: seq<Event>, c: Ctx, m: Marks, e: Event) returns (m': Marks)
    requires Inv(env, h, c, m) && e.Entry?
    ensures var (p, r) := ArchiveEntry(env, c, e);
            && (r == 0 ==> Inv(env, h + [e], p, m'))
            && (|| p.log == c.log
                || (&& Added(c.log, p.log)
                    && (p.log[|c.log|].FileCall? ==> p.log[|c.log|].name == e.name && Backed(env, h + [e], |h|, c.s, m))))
  {
    hide ArchiveEntry, SignInv, Added, Backed, Files, Names;
    m' := EntryKeeps(env, h, c, m, e);
    StepCalls(env, c, e);
    if Open(c.s) && IsFile(e) {
      OpenBacked(env, h, c.s, m, h + [e], |h|);
    }
  }

  lemma OpenBacked(env: Env, h: seq<Event>, c: Sign, m: Marks, events: seq<Event>, n: nat)
    requires SignInv(env, h, c, m) && Open(c) && n < |events| && events[..n] == h && IsFile(events[n])
    ensures Backed(env, events, n, c, m)
  {
    hide Compressed, Proven, Tolerated, Signs, Notes, Names, Files;
    forall k | 0 <= k < n
      ensures events[k] == h[k]
    {
      assert events[..n][k] == events[k];
    }
    assert m.start <= m.closed < n && |h| == n;
    assert events[m.start..m.closed] == h[m.start..m.closed];
  }

  /** In every run, whatever its end, a file is told of only behind a control section that was
      checked, with the checksum of the data noted before. As no entry follows the end of the
      archive, what closed that section is a boundary. */
  lemma FileBehindControl(env: Env, events: seq<Event>, i: nat) returns (n: nat, m: Marks)
    requires i < |Feed(env, events).0.log| && Feed(env, events).0.log[i].FileCall?
    ensures CalledAt(env, events, i, n)
    ensures Backed(env, events, n, Feed(env, events[..n]).0.s, m)
    ensures events[n].name == Feed(env, events).0.log[i].name
    ensures (forall k :: 0 <= k < n ==> !events[k].End?) ==> events[m.closed].Boundary?
  {
    hide Step, SignInv, Backed, Feed, Files, Names;
    var log := Feed(env, events).0.log;
    n := CallMade(env, events, i);
    var h, e := events[..n], events[n];
    assert events[..n + 1] == h + [e];
    FeedSnoc(env, h, e);
    var c := Feed(env, h).0;
    StepCalls(env, c, e);
    assert log[..i + 1][i] == log[i];
    m := RunKeeps(env, h);
    OpenBacked(env, h, c.s, m, events, n);
    ClosedBefore(env, events, n, c.s, m);
  }

  /** Everything a complete extraction has established. */
  ghost predicate Complete(env: Env, h: seq<Event>, c: Ctx, m: Marks)
  {
    && c.s.endSeen && c.s.dataVerified && (c.isPackage || c.isIndex)
    && m.start <= |h| && (m.start == 0 || h[m.start - 1].Boundary?)
    && (c.s.hasDataChecksum ==>
          && m.start <= m.noted < m.closed < |h| && Notes(h[m.noted], c.s.dataHash) && h[m.closed].Boundary?
          && env.hashOf(SHA256, Compressed(h[m.closed + 1..])) == c.s.dataHash
          && Files(c.log) == Names(h[m.closed + 1..]))
    && (!c.s.hasDataChecksum ==> Files(c.log) == []) && Signed(env, h, c.s, m)
    && (var bytes := if c.s.hasDataChecksum then Compressed(h[m.start..m.closed]) else Compressed(h[m.start..]);
        || Proven(env, c.s.key, c.s.sig, m.alg, bytes)
        || (env.allowUntrusted && Tolerated(env, c.s.key, c.s.sig, m.alg, bytes)))
  }

  /** When no event fails, the extraction succeeds exactly if the data was verified and was a
      package or an index. Then the end was seen, the control part was checked in all its
      compressed bytes, the bytes behind it have the noted checksum, and every file there was
      delivered once and in order; without a checksum the check was over control and data
      together, and no file was delivered. */
  lemma CompleteIff(env: Env, events: seq<Event>) returns (m: Marks)
    requires Feed(env, events).1 == 0
    ensures var c := Feed(env, events).0;
            && (Extract(env, events, 0) == 0 <==> c.s.dataVerified && (c.isPackage || c.isIndex))
            && (Extract(env, events, 0) == 0 ==> Complete(env, events, c, m))
  {
    hide Feed, Compressed, Names, Files, Notes, Signs;
    m := RunKeeps(env, events);
  }

  /** Who is to blame for an extraction that ends as cancelled or for lack of trust: the caller,
      whose callback answered so to the last call, or who takes no files; a lack of trust that is
      not allowed; or the signature check, whose error is kept. */
  predicate Blamed(env: Env, c: Ctx, code: int)
  {
    || (c.log != [] && env.answer(c.log[..|c.log| - 1], c.log[|c.log| - 1]) == code)
    || (code == CANCELED && !env.hasFile)
    || (code == UNTRUSTED && !env.allowUntrusted)
    || (code == CANCELED && c.s.verifyError == code)
  }

  lemma ToldBlamed(env: Env, c: Ctx, call: Call)
    ensures var (t, r) := Tell(env, c, call); t.log != [] && env.answer(t.log[..|t.log| - 1], t.log[|t.log| - 1]) == r
  {
    assert (c.log + [call])[..|c.log|] == c.log;
  }

  lemma ControlBlamed(env: Env, c: Ctx, e: Event)
    requires e.Entry?
    ensures var (p, r) := ControlEntry(env, c, e); r in {UNTRUSTED, CANCELED} ==> Blamed(env, p, r)
  {
    hide Hidden, KindOf, Control;
    ToldBlamed(env, c.(isPackage := true), MetaCall);
    ToldBlamed(env, c.(isPackage := true), ScriptCall(e.name));
    ToldBlamed(env, c.(isIndex := true), IndexCall(c.desc));
  }

  lemma PartBlamed(env: Env, c: Ctx, e: Event)
    requires !e.Entry?
    ensures var (p, r) := Part(env, c.s, e); r in {UNTRUSTED, CANCELED} ==> Blamed(env, c.(s := p), r)
  {
  }

  lemma StepBlamed(env: Env, c: Ctx, e: Event)
    ensures var (p, r) := Step(env, c, e); r in {UNTRUSTED, CANCELED} ==> Blamed(env, p, r)
  {
    hide Part, ControlEntry, Hidden, StartsWith, Signature;
    if e.Entry? {
      var d := c.(s := ProcessFile(env, c.s, e).0);
      ControlBlamed(env, d, e);
      ToldBlamed(env, d, FileCall(e.name));
    } else {
      PartBlamed(env, c, e);
    }
  }

  lemma {:induction false} RunBlamed(env: Env, events: seq<Event>)
    ensures var (c, code) := Feed(env, events); code in {UNTRUSTED, CANCELED} ==> Blamed(env, c, code)
  {
    if events != [] {
      hide Step, Blamed;
      var h, e := events[..|events| - 1], events[|events| - 1];
      assert events == h + [e];
      FeedSnoc(env, h, e);
      RunBlamed(env, h);
      StepBlamed(env, Feed(env, h).0, e);
    }
  }

  /** When the archive reader ends with an error, the extraction succeeds exactly in two cases,
      both with untrusted input allowed: the error is a lack of trust, or the run was cancelled
      in a package or index whose signature has not been found good. If this error is not the
      reader's own, it is the answer of the caller's callback to the last call, or the caller takes
      no files. */
  lemma FailedYetZero(env: Env, events: seq<Event>, tail: int)
    requires ReaderCode(Feed(env, events).1, tail) != 0
    ensures var (c, code) := Feed(env, events);
            var k := ReaderCode(code, tail);
            && (Extract(env, events, tail) == 0 <==>
                  && env.allowUntrusted
                  && (k == UNTRUSTED || (k == CANCELED && c.s.verifyError == UNTRUSTED && (c.isPackage || c.isIndex))))
            && (Extract(env, events, tail) == 0 && code != 0 ==>
                  || (c.log != [] && env.answer(c.log[..|c.log| - 1], c.log[|c.log| - 1]) in {UNTRUSTED, CANCELED})
                  || !env.hasFile)
  {
    hide Feed;
    RunBlamed(env, events);
  }

  /** The caller takes files, and no callback of it cancels or reports a lack of trust. */
  ghost predicate Willing(env: Env)
  {
    env.hasFile && forall log, call :: env.answer(log, call) !in {UNTRUSTED, CANCELED}
  }

  /** Untrusted input is not allowed; or the caller is willing, and the reader itself does not end
      as cancelled or for lack of trust. */
  ghost predicate Plain(env: Env, tail: int)
  {
    env.allowUntrusted ==> Willing(env) && tail !in {UNTRUSTED, CANCELED}
  }

  /** Then zero means, exactly, that no event failed, the reader came to its end, and everything a
      complete extraction establishes has been established. */
  lemma ZeroMeansComplete(env: Env, events: seq<Event>, tail: int) returns (m: Marks)
    requires Plain(env, tail)
    ensures Extract(env, events, tail) == 0 ==>
              Feed(env, events).1 == 0 && tail == 0 && Complete(env, events, Feed(env, events).0, m)
    ensures Feed(env, events).1 == 0 && tail == 0 && (exists m' :: Complete(env, events, Feed(env, events).0, m')) ==>
              Extract(env, events, tail) == 0
  {
    hide Feed, Extract, Complete, Compressed, Names, Files;
    m := Marks(0, 0, 0, 0, 0, 2);
    var (c, code) := Feed(env, events);
    if ReaderCode(code, tail) != 0 {
      FailedYetZero(env, events, tail);
    }
    if code == 0 {
      m := CompleteIff(env, events);
      if tail == 0 && exists m' :: Complete(env, events, c, m') {
        var m' :| Complete(env, events, c, m');
        CompleteVerified(env, events, c, m');
      }
    }
  }

  lemma CompleteVerified(env: Env, h: seq<Event>, c: Ctx, m: Marks)
    requires Complete(env, h, c, m)
    ensures c.s.dataVerified && (c.isPackage || c.isIndex)
  {
  }

  /** Such a run: the first entry is the .PKGINFO, and the callback for it cancels or reports a
      lack of trust. The result is zero, although nothing was verified and the end not seen. */
  lemma CancelledYetZero(env: Env, info: Event, rest: seq<Event>, tail: int)
    requires env.allowUntrusted && env.hasMeta && env.answer([], MetaCall) in {CANCELED, UNTRUSTED}
    requires info.Entry? && info.name == ".PKGINFO"
    ensures var (c, code) := Feed(env, [info] + rest);
            && Extract(env, [info] + rest, tail) == 0 && code == env.answer([], MetaCall)
            && !c.s.endSeen && !c.s.dataVerified && !c.s.controlVerified && c.log == [MetaCall]
  {
    var all := [info] + rest;
    assert all[..1] == [] + [info];
    FeedSnoc(env, [], info);
    assert ".PKGINFO"[..6][1] == 'P';
    assert Feed(env, all[..1]) == ArchiveEntry(env, START, info);
    assert [] + [MetaCall] == [MetaCall];
    FeedStops(env, all, 1);
  }

  /** The other condition is needed as well: a caller that takes no files, and allows untrusted input,
      gets zero at the first file behind an unsigned control part, whatever the data is. */
  lemma NoFilesYetZero(env: Env, info: Event, file: Event, hash: seq<byte>, rest: seq<Event>, tail: int)
    requires env.allowUntrusted && env.action == Verify && env.hasMeta && !env.hasFile && env.answer([], MetaCall) == 0
    requires info.Entry? && info.name == ".PKGINFO" && info.datahash == Some(hash) && file.Entry?
    ensures var (c, code) := Feed(env, [info, Boundary, file] + rest);
            && Extract(env, [info, Boundary, file] + rest, tail) == 0 && code == CANCELED
            && !c.s.endSeen && !c.s.dataVerified && c.log == [MetaCall]
  {
    var all := [info, Boundary, file] + rest;
    FeedSnoc(env, [], info);
    InfoFirst(env, UNSIGNED, info, hash);
    assert [] + [info] == [info] && [info] + [Boundary] == [info, Boundary] && [info, Boundary] + [file] == all[..3];
    FeedSnoc(env, [info], Boundary);
    FeedSnoc(env, [info, Boundary], file);
    FeedStops(env, all, 3);
  }

  /** The first entry is a .PKGINFO with a checksum. */
  lemma InfoFirst(env: Env, s: Sign, info: Event, hash: seq<byte>)
    requires env.hasMeta && info.Entry? && info.name == ".PKGINFO" && info.datahash == Some(hash)
    requires !s.controlStarted && !s.dataStarted
    ensures Step(env, Ctx(s, false, false, [], []), info) ==
            (Ctx(s.(controlStarted := true, hasDataChecksum := true, alg := SHA256, dataHash := hash),
                 true, false, [], [MetaCall]), env.answer([], MetaCall))
  {
    assert [] + [MetaCall] == [MetaCall];
    assert ".PKGINFO"[..6][1] == 'P';
  }

  /** A signature in the same part as the control section it is for: the digest was not started with
      its key, so the check fails, whatever the signature is and even with untrusted input allowed. */
  lemma SamePartRefused(env: Env, sign: Event, info: Event, hash: seq<byte>, rest: seq<Event>, tail: int)
    requires env.action == Verify && env.hasMeta && env.answer([], MetaCall) == 0
    requires sign.Entry? && IsSignature(sign) && Offers(env, sign)
    requires info.Entry? && info.name == ".PKGINFO" && info.datahash == Some(hash)
    ensures Feed(env, [sign, info, Boundary] + rest).1 == VERIFY_ERROR
    ensures Extract(env, [sign, info, Boundary] + rest, tail) == VERIFY_ERROR
  {
    hide SignatureOf, Signs, Offers, IsSignature, Feed, ArchiveEntry, Signature;
    var all := [sign, info, Boundary] + rest;
    SignFirst(env, sign);
    var s := Signature(env, UNSIGNED, sign);
    SignatureOnly(env, UNSIGNED, sign);
    NothingFed(env);
    FeedSnoc(env, [], sign);
    assert [] + [sign] == [sign] && [sign] + [info] == [sign, info] && [sign, info] + [Boundary] == all[..3];
    FeedSnoc(env, [sign], info);
    InfoFirst(env, s, info, hash);
    FeedSnoc(env, [sign, info], Boundary);
    FeedStops(env, all, 3);
  }

  lemma SignFirst(env: Env, sign: Event)
    requires sign.Entry? && IsSignature(sign)
    ensures Step(env, START, sign) == (START.(s := Signature(env, UNSIGNED, sign)), 0)
  {
    hide Signature;
    SignNames(sign);
  }

  /** The identity generated for a package is the digest of the compressed bytes that came after
      the first entry of the control section. It is the digest of all bytes of the control part
      exactly when none of them came before that entry. */
  lemma GeneratedIff(env: Env, events: seq<Event>) returns (m: Marks)
    requires env.action == VerifyAndGenerate && Feed(env, events).1 == 0 && Open(Feed(env, events).0.s)
    ensures m.start <= m.begun < m.closed < |events| && (m.start == 0 || events[m.start - 1].Boundary?)
    ensures Feed(env, events).0.s.generated == Some(env.hashOf(2, Compressed(events[m.begun..m.closed])))
    ensures Compressed(events[m.begun..m.closed]) == Compressed(events[m.start..m.closed])
       <==> Compressed(events[m.start..m.begun]) == []
  {
    hide Feed, Compressed, Names, Files, Notes, Signs, Proven, Tolerated;
    m := RunKeeps(env, events);
    Joined(events[m.start..m.begun], events[m.begun..m.closed]);
    assert events[m.start..m.begun] + events[m.begun..m.closed] == events[m.start..m.closed];
  }

  /** Such bytes: the reader delivers some of the control part before its first entry. The control
      part has more bytes than the identity is made of. */
  lemma GeneratedLate(env: Env, early: seq<byte>, late: seq<byte>, hash: seq<byte>)
    requires env.action == VerifyAndGenerate && env.allowUntrusted && env.hasMeta && env.answer([], MetaCall) == 0
    requires early != []
    ensures var events := [Data(early), Entry(".PKGINFO", 0, Some(hash), []), Data(late), Boundary];
            var (c, code) := Feed(env, events);
            && code == 0 && Open(c.s) && c.s.generated == Some(env.hashOf(2, late))
            && Compressed(events[0..3]) == early + late != late
  {
    hide Compressed, Feed, ArchiveEntry, Part;
    var info := Entry(".PKGINFO", 0, Some(hash), []);
    var e1, e2, e3 := [Data(early)], [Data(early), info], [Data(early), info, Data(late)];
    var events := [Data(early), info, Data(late), Boundary];
    assert [] + [Data(early)] == e1 && e1 + [info] == e2 && e2 + [Data(late)] == e3 && e3 + [Boundary] == events;
    NothingFed(env);
    FeedSnoc(env, [], Data(early));
    FeedSnoc(env, e1, info);
    FeedSnoc(env, e2, Data(late));
    FeedSnoc(env, e3, Boundary);
    assert events[0..3] == e3;
    var s := UNSIGNED.(digest := [] + early);
    EarlyData(env, early);
    InfoFirst(env, s, info, hash);
    var c := s.(controlStarted := true, hasDataChecksum := true, alg := SHA256, dataHash := hash);
    LateClosed(env, c, late);
    InThree(early, info, late);
  }

  lemma NothingFed(env: Env)
    ensures Feed(env, []) == (START, 0)
  {
  }

  lemma EarlyData(env: Env, early: seq<byte>)
    ensures Part(env, UNSIGNED, Data(early)) == (UNSIGNED.(digest := [] + early), 0)
  {
  }

  lemma LateClosed(env: Env, c: Sign, late: seq<byte>)
    requires env.action == VerifyAndGenerate && env.allowUntrusted && c.verifyError == UNTRUSTED && c.key.None?
    requires c.controlStarted && !c.dataStarted && c.hasDataChecksum && !c.endSeen && !c.dataVerified && c.identity == []
    ensures var d := c.(digest := c.digest + late, identity := late);
            && Part(env, c, Data(late)) == (d, 0)
            && Part(env, d, Boundary).1 == 0 && Open(Part(env, d, Boundary).0)
            && Part(env, d, Boundary).0.generated == Some(IdentityOf(env, late))
  {
    assert [] + late == late;
  }

  lemma InThree(early: seq<byte>, info: Event, late: seq<byte>)
    requires info.Entry?
    ensures Compressed([Data(early), info, Data(late)]) == early + late
  {
    var e1, e2, e3 := [Data(early)], [Data(early), info], [Data(early), info, Data(late)];
    assert e3[..2] == e2 && e2[..1] == e1 && e1[..0] == [];
    assert Compressed(e1) == early && Compressed(e2) == early;
  }
}
