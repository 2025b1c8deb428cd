/**
 The block-order and trust automaton that reads a whole database image: one ADB
 block, then signatures, then data, with data delivered only once trusted.
 */
module AdbParse {
  import opened Bytes
  import opened AdbBlocks

  const BLOCK_ERROR: int := -1
  const VERSION_ERROR: int := -2
  const UNTRUSTED: int := -3
  const INTEGRITY: int := -4

  const BLOCK_MAX: nat := 4

  const ALG_NONE: nat := 0
  const ALG_SHA1: nat := 2
  const ALG_SHA256_160: nat := 5

  /** The identity wanted from, or to be stored into, the extraction context. */
  datatype Wanted = Wanted(generateAlg: nat, verifyAlg: nat, generate: bool, digest: seq<byte>)

  /** What the caller brings along: trust settings, the wanted identity, the
      foreign digest and signature checks, and the callback, which may depend on
      everything it has been called with before. */
  datatype Env = Env(allowUntrusted: bool, wanted: Option<Wanted>,
                     digest: (nat, seq<byte>) -> Option<seq<byte>>,
                     digestError: int,
                     verifies: (seq<byte>, seq<byte>) -> bool,
                     callback: (seq<Block>, Block) -> int)

  predicate ValidEnv(env: Env) { env.digestError < 0 }

  /** The algorithm under which an identity is asked for: the one to generate it with comes first,
      and SHA1 identities are no digests. */
  predicate Asked(env: Env, alg: nat)
  {
    && env.wanted.Some? && alg !in {0, 2}
    && (env.wanted.value.generateAlg == alg || (env.wanted.value.generateAlg == 0 && env.wanted.value.verifyAlg == alg))
  }

  /** An identity is asked for, and the digest cannot be made, or is compared and differs; only for
      the truncated SHA256 the difference is passed over. */
  ghost predicate Refused(env: Env, adb: seq<byte>)
  {
    exists alg :: Asked(env, alg) &&
      match env.digest(alg, adb)
      case None => true
      case Some(d) => !env.wanted.value.generate && d != env.wanted.value.digest && env.wanted.value.verifyAlg != 5
  }

  /** An identity is asked for, to be compared, and the digest is the one wanted. */
  ghost predicate Matched(env: Env, adb: seq<byte>)
  {
    exists alg :: Asked(env, alg) && !env.wanted.value.generate && env.digest(alg, adb) == Some(env.wanted.value.digest)
  }

  /** The identity check: negative exactly on failure, 1 exactly when the digest matches. */
  function Identity(env: Env, adb: seq<byte>): (r: int)
    requires ValidEnv(env)
    ensures r <= 1
    ensures r < 0 <==> Refused(env, adb)
    ensures r == 1 <==> Matched(env, adb)
    ensures r < 0 ==> r == if exists alg :: Asked(env, alg) && env.digest(alg, adb) == None then env.digestError else INTEGRITY
  {
    assert env.wanted.Some? && IdentityAlg(env.wanted.value) !in {0, 2} ==> Asked(env, IdentityAlg(env.wanted.value));
    match env.wanted
    case None => 0
    case Some(w) =>
      var alg := IdentityAlg(w);
      if alg == ALG_NONE || alg == ALG_SHA1 then 0
      else match env.digest(alg, adb)
        case None => env.digestError
        case Some(calculated) =>
          if w.generate then 0
          else if w.digest != calculated then (if w.verifyAlg == ALG_SHA256_160 then 0 else INTEGRITY)
          else 1
  }

  function IdentityAlg(w: Wanted): nat
  {
    if w.generateAlg != 0 then w.generateAlg else w.verifyAlg
  }

  // ---- The automaton ---------------------------------------------------------------------

  datatype State = State(allowed: set<nat>, trusted: bool, adb: Option<seq<byte>>)

  datatype Verdict = Stop(code: int) | Go(st: State)

  /** What happens to a block before the callback sees it. */
  function Admit(env: Env, st: State, b: Block): (v: Verdict)
    requires ValidEnv(env)
    ensures v.Stop? ==> v.code < 0
  {
    if b.typ >= BLOCK_MAX || b.typ !in st.allowed then Stop(BLOCK_ERROR)
    else if b.typ == TYPE_ADB then
      if |b.payload| < 8 then Stop(BLOCK_ERROR)
      else if b.payload[0] != 0 then Stop(VERSION_ERROR)
      else
        var r := Identity(env, b.payload);
        if r < 0 then Stop(r)
        else Go(State({TYPE_SIG, TYPE_DATA}, st.trusted || r == 1, Some(b.payload)))
    else if b.typ == TYPE_SIG then
      Go(st.(trusted := st.trusted || (st.adb.Some? && env.verifies(st.adb.value, b.payload))))
    else if b.typ == TYPE_DATA then
      if !st.trusted then Stop(UNTRUSTED) else Go(st.(allowed := {TYPE_DATA}))
    else Go(st)
  }

  function Start(env: Env): State { State({TYPE_ADB}, env.allowUntrusted, None) }

  /** How the loop over the blocks leaves: the last code, the state, and the blocks
      the callback has been given. */
  datatype Left = Left(code: int, st: State, called: seq<Block>)

  function Run(env: Env, st: State, blocks: seq<Block>, called: seq<Block>, code: int): Left
    requires ValidEnv(env)
    decreases |blocks|
  {
    if blocks == [] then Left(code, st, called)
    else
      var b := blocks[0];
      match Admit(env, st, b)
      case Stop(code) => Left(code, st, called)
      case Go(st') =>
        var r := env.callback(called, b);
        if r < 0 then Left(r, st', called + [b]) else Run(env, st', blocks[1..], called + [b], r)
  }

  function Close(left: Left, ending: Ending): (r: int)
    ensures r <= 0
  {
    if left.code > 0 then BLOCK_ERROR
    else if left.code < 0 then left.code
    else if ending != Clean then BLOCK_ERROR
    else if !left.st.trusted then UNTRUSTED
    else if left.st.adb.None? then BLOCK_ERROR
    else 0
  }

  /** The parse loop itself, walking the buffer block by block. It may meet anything but a
      block of wrapped size, which it would look at for ever: such a block has to lie behind
      one that ends the loop. */
  method Parse(env: Env, data: seq<byte>) returns (r: int, adb: Option<seq<byte>>, called: seq<Block>)
    requires ValidEnv(env)
    requires Enumerate(data, 0).1 == Stuck ==> Run(env, Start(env), Enumerate(data, 0).0, [], 0).code < 0
    ensures var (blocks, ending) := Enumerate(data, 0);
            var left := Run(env, Start(env), blocks, [], 0);
            && r == Close(left, ending) && called == left.called
            && adb == if r == 0 then left.st.adb else None
  {
    hide Validate, Admit;
    var pos, st := 0, Start(env);
    r, called := 0, [];
    var broken := false;
    ghost var target := Run(env, st, Enumerate(data, 0).0, called, r);
    ghost var stopped := false;
    while true
      invariant pos <= |data|
      invariant !stopped && r >= 0 && !broken
      invariant Enumerate(data, pos).1 == Enumerate(data, 0).1
      invariant Run(env, st, Enumerate(data, pos).0, called, r) == target
      decreases |data| - pos
    {
      var p := ProbeAt(env, data, pos, st, called, r);
      if p.AtEnd? {
        break;
      }
      if p.Malformed? {
        broken := true;
        break;
      }
      var b := Block(p.typ, data[pos + p.hdr..pos + p.raw]);
      FirstOf(data, pos);
      var v := Admit(env, st, b);
      if v.Stop? {
        r, stopped := v.code, true;
        break;
      }
      st := v.st;
      r := env.callback(called, b);
      called := called + [b];
      if r < 0 {
        stopped := true;
        break;
      }
      pos := pos + p.size;
    }
    assert Left(r, st, called) == target;
    assert !stopped ==> broken == (Enumerate(data, 0).1 == Broken);
    if r > 0 {
      r := BLOCK_ERROR;
    } else if r == 0 {
      if broken {
        r := BLOCK_ERROR;
      } else if !st.trusted {
        r := UNTRUSTED;
      } else if st.adb.None? {
        r := BLOCK_ERROR;
      }
    }
    adb := if r == 0 then st.adb else None;
  }

  method ProbeAt(ghost env: Env, data: seq<byte>, pos: nat, ghost st: State, ghost called: seq<Block>, ghost code: int) returns (p: Probe)
    requires ValidEnv(env) && pos <= |data| && code >= 0
    requires Enumerate(data, pos).1 == Stuck ==> Run(env, st, Enumerate(data, pos).0, called, code).code < 0
    ensures p == Validate(data, pos)
    ensures p.Found? ==> p.hdr <= p.raw <= p.size && pos + p.size <= |data| && p.size > 0 && p.raw + 7 < U64
    ensures p.AtEnd? ==> Enumerate(data, pos) == ([], Clean)
    ensures p.Malformed? ==> Enumerate(data, pos) == ([], Broken)
  {
    hide Admit;
    p := Validate(data, pos);
  }

  lemma FirstOf(data: seq<byte>, pos: nat)
    requires pos <= |data| && Validate(data, pos).Found? && Validate(data, pos).raw + 7 < U64
    ensures var p := Validate(data, pos);
            && p.hdr <= p.raw <= p.size && pos + p.size <= |data|
            && Enumerate(data, pos).0 != []
            && Enumerate(data, pos).0[0] == Block(p.typ, data[pos + p.hdr..pos + p.raw])
            && Enumerate(data, pos).0[1..] == Enumerate(data, pos + p.size).0
            && Enumerate(data, pos).1 == Enumerate(data, pos + p.size).1
  {
  }

  // ---- What a run may deliver ----------------------------------------------------------------

  /** ADB SIG* DATA*. */
  predicate Shape(bs: seq<Block>)
  {
    && bs != [] && bs[0].typ == TYPE_ADB
    && (forall i :: 1 <= i < |bs| ==> bs[i].typ == TYPE_SIG || bs[i].typ == TYPE_DATA)
    && (forall i, j :: 1 <= i < j < |bs| && bs[i].typ == TYPE_DATA ==> bs[j].typ == TYPE_DATA)
  }

  /** A whole header of a version that can be read, and no identity that is refused. */
  ghost predicate HeaderOk(env: Env, adb: seq<byte>)
  {
    |adb| >= 8 && adb[0] == 0 && !Refused(env, adb)
  }

  predicate Verified(env: Env, bs: seq<Block>, j: nat)
    requires j < |bs|
  {
    bs[j].typ == TYPE_SIG && env.verifies(bs[0].payload, bs[j].payload)
  }

  /** Untrusted input allowed, the identity digest of the leading block matched, or
      one of the signature blocks verified. */
  ghost predicate TrustedBy(env: Env, bs: seq<Block>)
  {
    || env.allowUntrusted
    || (bs != [] && Matched(env, bs[0].payload))
    || exists j :: 1 <= j < |bs| && Verified(env, bs, j)
  }

  /** A legal trace of callbacks. */
  ghost predicate Legal(env: Env, bs: seq<Block>)
  {
    bs != [] ==>
      && Shape(bs) && HeaderOk(env, bs[0].payload)
      && forall i :: 0 <= i < |bs| && bs[i].typ == TYPE_DATA ==> TrustedBy(env, bs[..i])
  }

  predicate CallbacksFine(env: Env, bs: seq<Block>)
  {
    forall i :: 0 <= i < |bs| ==> env.callback(bs[..i], bs[i]) >= 0
  }

  function LastCode(env: Env, bs: seq<Block>): int
  {
    if bs == [] then 0 else env.callback(bs[..|bs| - 1], bs[|bs| - 1])
  }

  /** The state that belongs to a trace. */
  ghost predicate Tracks(env: Env, st: State, called: seq<Block>)
    requires ValidEnv(env)
  {
    && Legal(env, called)
    && st.trusted == TrustedBy(env, called)
    && st.adb == (if called == [] then None else Some(called[0].payload))
    && st.allowed == (if called == [] then {TYPE_ADB}
                      else if called[|called| - 1].typ == TYPE_DATA then {TYPE_DATA}
                      else {TYPE_SIG, TYPE_DATA})
  }

  lemma TrustedSnoc(env: Env, called: seq<Block>, b: Block)
    requires ValidEnv(env) && called != []
    ensures TrustedBy(env, called + [b]) <==>
            TrustedBy(env, called) || (b.typ == TYPE_SIG && env.verifies(called[0].payload, b.payload))
  {
    var bs := called + [b];
    forall j | 1 <= j < |called|
      ensures Verified(env, bs, j) == Verified(env, called, j)
    {
    }
    if b.typ == TYPE_SIG && env.verifies(called[0].payload, b.payload) {
      assert Verified(env, bs, |called|);
    }
  }

  lemma LegalSnoc(env: Env, called: seq<Block>, b: Block)
    requires ValidEnv(env) && Legal(env, called) && Shape(called + [b]) && called != []
    requires b.typ == TYPE_DATA ==> TrustedBy(env, called)
    ensures Legal(env, called + [b])
  {
    hide TrustedBy, Shape;
    var bs := called + [b];
    forall i | 0 <= i < |bs| && bs[i].typ == TYPE_DATA
      ensures TrustedBy(env, bs[..i])
    {
      if i < |called| {
        assert bs[..i] == called[..i];
      } else {
        assert bs[..i] == called;
      }
    }
  }

  /** What is wrong with a block behind a legal trace: out of order or of no known type; as a leading
      block too short, of another version, or of the wrong identity; as data not trusted. */
  ghost function Objection(env: Env, called: seq<Block>, b: Block): int
  {
    if !Shape(called + [b]) then BLOCK_ERROR
    else if called == [] then
      if |b.payload| < 8 then BLOCK_ERROR
      else if b.payload[0] != 0 then VERSION_ERROR
      else if !Refused(env, b.payload) then 0
      else if exists alg :: Asked(env, alg) && env.digest(alg, b.payload) == None then env.digestError
      else INTEGRITY
    else if b.typ == TYPE_DATA && !TrustedBy(env, called) then UNTRUSTED
    else 0
  }

  /** Passing a block keeps the state in step with the trace; stopping at one means
      that no legal trace goes on with it, and the code says why. */
  lemma StepTracks(env: Env, st: State, called: seq<Block>, b: Block)
    requires ValidEnv(env) && Tracks(env, st, called)
    ensures Admit(env, st, b).Go? ==> Tracks(env, Admit(env, st, b).st, called + [b])
    ensures Admit(env, st, b).Stop? ==> !Legal(env, called + [b])
    ensures Admit(env, st, b) == Stop(Objection(env, called, b)) || (Admit(env, st, b).Go? && Objection(env, called, b) == 0)
  {
    hide TrustedBy;
    var bs := called + [b];
    assert bs[..|called|] == called;
    if called == [] {
      StepFirst(env, st, b);
    } else {
      TrustedSnoc(env, called, b);
      var last := called[|called| - 1];
      if b.typ in st.allowed {
        Allowed(env, st, called, b);
        if Admit(env, st, b).Go? {
          LegalSnoc(env, called, b);
        } else {
          assert bs[|called|] == b;
        }
      } else {
        NotAllowed(env, st, called, b);
      }
    }
  }

  lemma Allowed(env: Env, st: State, called: seq<Block>, b: Block)
    requires ValidEnv(env) && Tracks(env, st, called) && called != [] && b.typ in st.allowed
    ensures Shape(called + [b])
  {
    hide TrustedBy, HeaderOk;
    var bs, n := called + [b], |called|;
    forall i | 1 <= i < |bs| && bs[i].typ == TYPE_DATA
      ensures bs[n].typ == TYPE_DATA
    {
      if i < n {
        assert called[i].typ == TYPE_DATA;
        assert i < n - 1 ==> called[n - 1].typ == TYPE_DATA;
      }
    }
  }

  lemma NotAllowed(env: Env, st: State, called: seq<Block>, b: Block)
    requires ValidEnv(env) && Tracks(env, st, called) && called != [] && b.typ !in st.allowed
    ensures !Shape(called + [b])
  {
    var bs, n := called + [b], |called|;
    assert bs[n] == b && bs[n - 1] == called[n - 1];
  }

  lemma StepFirst(env: Env, st: State, b: Block)
    requires ValidEnv(env) && Tracks(env, st, [])
    ensures Admit(env, st, b).Go? ==> Tracks(env, Admit(env, st, b).st, [] + [b])
    ensures Admit(env, st, b).Stop? ==> !Legal(env, [] + [b])
    ensures Admit(env, st, b) == Stop(Objection(env, [], b)) || (Admit(env, st, b).Go? && Objection(env, [], b) == 0)
  {
    assert [] + [b] == [b];
    assert [b][..0] == [];
  }

  /** The code is that of the callback for the last block it was given, or what is wrong with the
      next block. */
  ghost predicate Stopped(env: Env, all: seq<Block>, called: seq<Block>, code: int)
  {
    var n := |called|;
    || (n > 0 && code == env.callback(called[..n - 1], called[n - 1]))
    || (n < |all| && code == Objection(env, called, all[n]))
  }

  /** Whatever the input and the callback, and however the run ends, the callback
      has been given a legal trace, a prefix of the blocks; and the loop gets through
      all of them exactly when they are legal and the callback never fails. */
  lemma {:induction false} RunLegal(env: Env, st: State, rest: seq<Block>, called: seq<Block>, code: int, all: seq<Block>)
    requires ValidEnv(env) && Tracks(env, st, called) && CallbacksFine(env, called) && code >= 0
    requires all == called + rest && code == LastCode(env, called)
    ensures var left := Run(env, st, rest, called, code);
            && left.called <= all && Legal(env, left.called)
            && (left.code >= 0 <==> Legal(env, all) && CallbacksFine(env, all))
            && (left.code >= 0 ==>
                  Tracks(env, left.st, all) && left.code == LastCode(env, all) && left.called == all)
            && (left.code < 0 ==> Stopped(env, all, left.called, left.code))
    decreases |rest|
  {
    hide Admit, Legal;
    if rest == [] {
      assert all == called;
    } else {
      var b := rest[0];
      var next := called + [b];
      StepTracks(env, st, called, b);
      assert all == next + rest[1..];
      if Admit(env, st, b).Stop? {
        assert all[..|next|] == next;
        LegalPrefix(env, all, |next|);
      } else {
        assert all[..|called|] == called && next[..|called|] == called;
        var r := env.callback(called, b);
        if r >= 0 {
          FineSnoc(env, called, b);
          RunLegal(env, Admit(env, st, b).st, rest[1..], next, r, all);
        }
      }
    }
  }

  lemma FineSnoc(env: Env, called: seq<Block>, b: Block)
    requires CallbacksFine(env, called) && env.callback(called, b) >= 0
    ensures CallbacksFine(env, called + [b])
  {
    var next := called + [b];
    forall i | 0 <= i < |next|
      ensures env.callback(next[..i], next[i]) >= 0
    {
      assert next[..i] == called[..i];
    }
  }

  lemma LegalPrefix(env: Env, bs: seq<Block>, n: nat)
    requires ValidEnv(env) && n <= |bs|
    ensures Legal(env, bs) ==> Legal(env, bs[..n])
  {
    hide TrustedBy;
    var front := bs[..n];
    forall i | Legal(env, bs) && 0 <= i < |front| && front[i].typ == TYPE_DATA
      ensures TrustedBy(env, front[..i])
    {
      assert front[..i] == bs[..i];
    }
  }

  /** In every run, successful or not, the callback sees a data block only after
      untrusted input was allowed, the identity digest matched, or an earlier
      signature block verified. */
  lemma DataOnlyTrusted(env: Env, blocks: seq<Block>, i: nat)
    requires ValidEnv(env)
    requires i < |Run(env, Start(env), blocks, [], 0).called|
    ensures var called := Run(env, Start(env), blocks, [], 0).called;
            called <= blocks && (called[i].typ == TYPE_DATA ==> TrustedBy(env, called[..i]))
  {
    hide Shape, Run;
    assert [] + blocks == blocks;
    RunLegal(env, Start(env), blocks, [], 0, blocks);
  }

  /** Success, exactly: the blocks fill the buffer, have the form ADB SIG* DATA*
      with a good header, are trusted, and the callback accepts every one of them
      and returns zero for the last. */
  lemma SucceedsIff(env: Env, blocks: seq<Block>, ending: Ending)
    requires ValidEnv(env)
    ensures Close(Run(env, Start(env), blocks, [], 0), ending) == 0 <==>
            && ending == Clean && Shape(blocks) && HeaderOk(env, blocks[0].payload) && TrustedBy(env, blocks)
            && CallbacksFine(env, blocks) && LastCode(env, blocks) == 0
  {
    hide Shape, Run, Admit, TrustedBy, HeaderOk, CallbacksFine, Legal, LastCode;
    ShapeNonempty(blocks);
    FirstCalls(env);
    assert [] + blocks == blocks;
    RunLegal(env, Start(env), blocks, [], 0, blocks);
    if Shape(blocks) && HeaderOk(env, blocks[0].payload) && TrustedBy(env, blocks) {
      TrustedLegal(env, blocks);
    }
    LegalParts(env, blocks);
  }

  /** What the code of a failure says: the loop has stopped at a block, or it has gone through all of
      them and the last callback's code, the end of the buffer, the trust or the lack of any block is
      at fault, in this order. */
  lemma FailureCode(env: Env, blocks: seq<Block>, ending: Ending)
    requires ValidEnv(env)
    ensures var left := Run(env, Start(env), blocks, [], 0);
            var r := Close(left, ending);
            if left.code < 0 then r == left.code && Stopped(env, blocks, left.called, r)
            else
              r == if LastCode(env, blocks) > 0 || ending != Clean then BLOCK_ERROR
                   else if !TrustedBy(env, blocks) then UNTRUSTED
                   else if blocks == [] then BLOCK_ERROR
                   else 0
  {
    hide Shape, Run, Admit, TrustedBy, HeaderOk, CallbacksFine, Legal, LastCode, Stopped;
    FirstCalls(env);
    assert [] + blocks == blocks;
    RunLegal(env, Start(env), blocks, [], 0, blocks);
  }

  lemma ShapeNonempty(bs: seq<Block>)
    ensures Shape(bs) ==> bs != []
  {
  }

  lemma FirstCalls(env: Env)
    requires ValidEnv(env)
    ensures Tracks(env, Start(env), []) && CallbacksFine(env, []) && LastCode(env, []) == 0
  {
  }

  lemma LegalParts(env: Env, bs: seq<Block>)
    requires ValidEnv(env)
    ensures Legal(env, bs) && bs != [] ==> Shape(bs) && HeaderOk(env, bs[0].payload)
  {
  }

  /** All signatures come before all data, so trust earned anywhere is earned in
      time. */
  lemma TrustedLegal(env: Env, bs: seq<Block>)
    requires ValidEnv(env) && Shape(bs) && HeaderOk(env, bs[0].payload) && TrustedBy(env, bs)
    ensures Legal(env, bs)
  {
    forall i | 0 <= i < |bs| && bs[i].typ == TYPE_DATA
      ensures TrustedBy(env, bs[..i])
    {
      assert bs[..i][0] == bs[0];
      if j :| 1 <= j < |bs| && Verified(env, bs, j) {
        assert j < i;
        assert Verified(env, bs[..i], j);
      }
    }
  }

  /** A written image parses back: a storable list of the right form succeeds with a
      callback that returns zero throughout, and the callback sees exactly that list. */
  lemma WrittenParses(env: Env, blocks: seq<Block>)
    requires ValidEnv(env)
    requires forall i :: 0 <= i < |blocks| ==> Storable(blocks[i])
    requires Shape(blocks) && HeaderOk(env, blocks[0].payload) && TrustedBy(env, blocks)
    requires forall i :: 0 <= i < |blocks| ==> env.callback(blocks[..i], blocks[i]) == 0
    ensures Enumerate(Written(blocks), 0) == (blocks, Clean)
    ensures var left := Run(env, Start(env), blocks, [], 0);
            Close(left, Clean) == 0 && left.called == blocks && left.st.adb == Some(blocks[0].payload)
  {
    hide TrustedBy, HeaderOk, Run, Admit, Shape;
    WrittenEnumerates(blocks);
    SucceedsIff(env, blocks, Clean);
    FirstCalls(env);
    ShapeNonempty(blocks);
    assert [] + blocks == blocks;
    RunLegal(env, Start(env), blocks, [], 0, blocks);
  }
}
