/**
 Block framing: a stream of blocks, each with a short or an extended header, a
 payload, and zero padding to a multiple of eight bytes.
 */
module AdbBlocks {
  import opened Bytes
  import opened AdbValue

  const TYPE_ADB: nat := 0
  const TYPE_SIG: nat := 1
  const TYPE_DATA: nat := 2
  const TYPE_EXT: nat := 3

  const SHORT_LIMIT: nat := 0x3fff_ffff - 4
  const U32: nat := 0x1_0000_0000
  const U64: nat := 0x1_0000_0000_0000_0000

  datatype Block = Block(typ: nat, payload: seq<byte>)

  // ---- The header ------------------------------------------------------------------

  function TypeSize(buf: seq<byte>, pos: nat): nat
    requires pos + 4 <= |buf|
  {
    NatAt(buf, pos, 4)
  }

  predicate IsExt(ts: nat) { ts / 0x4000_0000 == TYPE_EXT }

  function HdrSize(ts: nat): nat { if IsExt(ts) then 16 else 4 }

  function BlockType(ts: nat): nat { if IsExt(ts) then ts % 0x4000_0000 else ts / 0x4000_0000 }

  function RawSize(buf: seq<byte>, pos: nat): nat
    requires pos + 4 <= |buf| && pos + HdrSize(TypeSize(buf, pos)) <= |buf|
  {
    if IsExt(TypeSize(buf, pos)) then NatAt(buf, pos + 8, 8) else TypeSize(buf, pos) % 0x4000_0000
  }

  /** adb_block_size: rounding up in 64-bit arithmetic, which wraps to 0 for the
      last seven sizes. */
  function PaddedSize(raw: nat): nat
  {
    if raw + 7 < U64 then Next8(raw) else 0
  }

  /** What adb_block_validate finds at a position. */
  datatype Probe = AtEnd | Malformed | Found(typ: nat, hdr: nat, raw: nat, size: nat)

  function Validate(buf: seq<byte>, pos: nat): (p: Probe)
    requires pos <= |buf|
    ensures p.Found? ==> p.hdr <= p.raw && pos + p.hdr <= |buf| && pos + p.size <= |buf|
    ensures p.Found? && p.raw + 7 < U64 ==> p.raw <= p.size && p.size % 8 == 0 && p.size > 0
  {
    if pos == |buf| then AtEnd
    else if pos + 4 > |buf| then Malformed
    else
      var ts := TypeSize(buf, pos);
      if pos + HdrSize(ts) > |buf| then Malformed
      else
        var raw := RawSize(buf, pos);
        if raw < HdrSize(ts) then Malformed
        else if pos + PaddedSize(raw) > |buf| then Malformed
        else Found(BlockType(ts), HdrSize(ts), raw, PaddedSize(raw))
  }

  // ---- Enumeration --------------------------------------------------------------------

  /** How the walk over the blocks ends; a block of wrapped size is its own
      successor, and the walk never leaves it. */
  datatype Ending = Clean | Broken | Stuck

  function Enumerate(buf: seq<byte>, pos: nat): (seq<Block>, Ending)
    requires pos <= |buf|
    decreases |buf| - pos
  {
    match Validate(buf, pos)
    case AtEnd => ([], Clean)
    case Malformed => ([], Broken)
    case Found(typ, hdr, raw, size) =>
      if raw + 7 >= U64 then ([], Stuck)
      else
        var (rest, ending) := Enumerate(buf, pos + size);
        ([Block(typ, buf[pos + hdr..pos + raw])] + rest, ending)
  }

  /** The places of the enumerated blocks, in order. */
  function Places(buf: seq<byte>, pos: nat): seq<(nat, nat)>
    requires pos <= |buf|
    decreases |buf| - pos
  {
    match Validate(buf, pos)
    case Found(typ, hdr, raw, size) =>
      if raw + 7 >= U64 then [] else [(pos, pos + size)] + Places(buf, pos + size)
    case _ => []
  }

  /** Consecutive nonempty stretches of whole eight-byte units. */
  predicate Tiles(ps: seq<(nat, nat)>, from: nat, to: nat)
  {
    if ps == [] then from == to
    else ps[0].0 == from && from < ps[0].1 && (ps[0].1 - from) % 8 == 0 && Tiles(ps[1..], ps[0].1, to)
  }

  /** Where the walk stops. */
  function WalkEnd(buf: seq<byte>, pos: nat): (end: nat)
    requires pos <= |buf|
    ensures pos <= end <= |buf|
    decreases |buf| - pos
  {
    match Validate(buf, pos)
    case Found(typ, hdr, raw, size) => if raw + 7 >= U64 then pos else WalkEnd(buf, pos + size)
    case _ => pos
  }

  /** On any buffer, the blocks found lie one after the other, inside the buffer,
      with the payloads enumerated; the walk ends cleanly exactly when they fill
      the buffer, and it fails to end exactly when it meets a size that wraps. */
  lemma {:induction false} PlacesTile(buf: seq<byte>, pos: nat)
    requires pos <= |buf|
    ensures |Places(buf, pos)| == |Enumerate(buf, pos).0|
    ensures Tiles(Places(buf, pos), pos, WalkEnd(buf, pos))
    ensures Enumerate(buf, pos).1 == Clean <==> WalkEnd(buf, pos) == |buf|
    ensures Enumerate(buf, pos).1 == Stuck <==>
            Validate(buf, WalkEnd(buf, pos)).Found? && Validate(buf, WalkEnd(buf, pos)).raw + 7 >= U64
    decreases |buf| - pos
  {
    hide TypeSize, RawSize, PaddedSize;
    var p := Validate(buf, pos);
    if p.Found? && p.raw + 7 < U64 {
      var next := pos + p.size;
      PlacesTile(buf, next);
      assert Places(buf, pos)[1..] == Places(buf, next);
    }
  }

  /** Stretches that tile an interval are disjoint and stay inside it. */
  lemma {:induction false} TilesDisjoint(ps: seq<(nat, nat)>, from: nat, to: nat, i: nat, j: nat)
    requires Tiles(ps, from, to) && i < j < |ps|
    ensures from <= ps[i].0 < ps[i].1 <= ps[j].0 < ps[j].1 <= to
    decreases i + j
  {
    TilesBounds(ps[1..], ps[0].1, to, j - 1);
    if i > 0 {
      TilesDisjoint(ps[1..], ps[0].1, to, i - 1, j - 1);
    }
  }

  lemma {:induction false} TilesBounds(ps: seq<(nat, nat)>, from: nat, to: nat, i: nat)
    requires Tiles(ps, from, to) && i < |ps|
    ensures from <= ps[i].0 < ps[i].1 <= to
  {
    TilesAhead(ps[1..], ps[0].1, to);
    if i > 0 {
      TilesBounds(ps[1..], ps[0].1, to, i - 1);
    }
  }

  lemma {:induction false} TilesAhead(ps: seq<(nat, nat)>, from: nat, to: nat)
    requires Tiles(ps, from, to)
    ensures from <= to
  {
    if ps != [] {
      TilesAhead(ps[1..], ps[0].1, to);
    }
  }

  // ---- Writing ------------------------------------------------------------------------

  /** An extended header with the given raw size. */
  function ExtBytes(typ: nat, raw: nat): (r: seq<byte>)
    ensures |r| == 16
  {
    Le((TYPE_EXT * 0x4000_0000 + typ) % U32, 4) + Le(0, 4) + Le(raw % U64, 8)
  }

  /** adb_block_init and adb_c_block: header, payload, padding. */
  function Header(typ: nat, length: nat): (h: seq<byte>)
    ensures |h| == 4 || |h| == 16
  {
    if length <= SHORT_LIMIT then Le((typ * 0x4000_0000 + 4 + length) % U32, 4)
    else ExtBytes(typ, 16 + length)
  }

  /** A header in bytes: two bits of type and thirty of size, the header included; or all bits of the
      size field's type set, the type, four bytes of zero, and a size of eight bytes. */
  lemma HeaderLayout(typ: nat, length: nat)
    ensures var h := Header(typ, length);
            if length + 4 < 0x4000_0000
            then |h| == 4 && (typ < 4 ==> Quad(h, 0) == typ * 0x4000_0000 + 4 + length)
            else
              && |h| == 16 && (typ < 0x4000_0000 ==> Quad(h, 0) == 0xc000_0000 + typ) && h[4..8] == [0, 0, 0, 0]
              && (length + 16 < U64 ==> Quad(h, 8) + 0x1_0000_0000 * Quad(h, 12) == length + 16)
  {
    hide Le, NatAt, Quad;
    Pow256Values();
    var h := Header(typ, length);
    NatAtBytes(h, 0);
    if length + 4 < 0x4000_0000 {
      assert h[0..4] == h;
      if typ < 4 {
        NatStored(h, 0, typ * 0x4000_0000 + 4 + length, 4);
      }
    } else {
      ExtLayout(typ, length + 16);
    }
  }

  lemma ExtLayout(typ: nat, raw: nat)
    ensures var h := ExtBytes(typ, raw);
            && (typ < 0x4000_0000 ==> Quad(h, 0) == 0xc000_0000 + typ) && h[4..8] == [0, 0, 0, 0]
            && (raw < U64 ==> Quad(h, 8) + 0x1_0000_0000 * Quad(h, 12) == raw)
  {
    hide Le, NatAt, Quad;
    Pow256Values();
    var h := ExtBytes(typ, raw);
    NatAtBytes(h, 0);
    NatAtBytes(h, 8);
    assert h[0..4] == Le((TYPE_EXT * 0x4000_0000 + typ) % U32, 4) && h[4..8] == Le(0, 4) && h[8..16] == Le(raw % U64, 8);
    NoBytes();
    NatStored(h, 0, (TYPE_EXT * 0x4000_0000 + typ) % U32, 4);
    NatStored(h, 8, raw % U64, 8);
  }

  lemma NoBytes()
    ensures Le(0, 4) == [0, 0, 0, 0]
  {
  }

  function BlockBytes(b: Block): (r: seq<byte>)
  {
    var h := Header(b.typ, |b.payload|);
    h + b.payload + Zeroes(Next8(|h| + |b.payload|) - (|h| + |b.payload|))
  }

  function Written(bs: seq<Block>): seq<byte>
  {
    if bs == [] then [] else BlockBytes(bs[0]) + Written(bs[1..])
  }

  /** The types a header has room for, and the sizes that do not wrap. */
  predicate Storable(b: Block)
  {
    if |b.payload| <= SHORT_LIMIT then b.typ < TYPE_EXT
    else b.typ < 0x4000_0000 && 16 + |b.payload| + 7 < U64
  }

  /** A short header at the front of a buffer. */
  lemma ShortHeader(buf: seq<byte>, typ: nat, length: nat)
    requires length <= SHORT_LIMIT && 4 <= |buf| && buf[..4] == Header(typ, length)
    ensures TypeSize(buf, 0) == (typ * 0x4000_0000 + 4 + length) % U32
    ensures typ < TYPE_EXT ==>
              && !IsExt(TypeSize(buf, 0)) && BlockType(TypeSize(buf, 0)) == typ
              && TypeSize(buf, 0) % 0x4000_0000 == 4 + length
  {
    hide Le, NatAt;
    Pow256Values();
    assert buf[0..4] == buf[..4];
    NatStored(buf, 0, (typ * 0x4000_0000 + 4 + length) % U32, 4);
  }

  lemma ExtHeader(buf: seq<byte>, typ: nat, raw: nat)
    requires 16 <= |buf| && buf[..16] == ExtBytes(typ, raw)
    requires typ < 0x4000_0000 && raw < U64
    ensures IsExt(TypeSize(buf, 0)) && BlockType(TypeSize(buf, 0)) == typ && NatAt(buf, 8, 8) == raw
  {
    hide Le, NatAt;
    Pow256Values();
    var h := ExtBytes(typ, raw);
    assert buf[0..4] == h[..4] == Le(TYPE_EXT * 0x4000_0000 + typ, 4);
    assert buf[8..16] == h[8..16] == Le(raw, 8);
    NatStored(buf, 0, TYPE_EXT * 0x4000_0000 + typ, 4);
    NatStored(buf, 8, raw, 8);
  }

  /** A storable block in front of anything is found, with its type and payload,
      and the walk goes on right behind it. */
  lemma FirstBlock(b: Block, rest: seq<byte>)
    requires Storable(b)
    ensures var bytes := BlockBytes(b);
            var p := Validate(bytes + rest, 0);
            && p.Found? && p.raw + 7 < U64 && p.size == |bytes| && p.typ == b.typ
            && (bytes + rest)[p.hdr..p.raw] == b.payload
  {
    hide Header, NatAt, ExtBytes;
    var h := Header(b.typ, |b.payload|);
    var bytes := BlockBytes(b);
    var buf := bytes + rest;
    var n := |h| + |b.payload|;
    assert buf[..|h|] == h;
    assert buf[|h|..n] == b.payload;
    HeaderLength(b.typ, |b.payload|);
    if |b.payload| <= SHORT_LIMIT {
      ShortHeader(buf, b.typ, |b.payload|);
    } else {
      ExtHeader(buf, b.typ, 16 + |b.payload|);
    }
  }

  lemma HeaderLength(typ: nat, length: nat)
    ensures |Header(typ, length)| == if length <= SHORT_LIMIT then 4 else 16
    ensures length > SHORT_LIMIT ==> Header(typ, length) == ExtBytes(typ, 16 + length)
  {
  }

  /** Enumeration from a later position is enumeration of the rest. */
  lemma {:induction false} EnumerateDrop(buf: seq<byte>, pos: nat, skip: nat)
    requires skip <= pos <= |buf|
    ensures Enumerate(buf, pos) == Enumerate(buf[skip..], pos - skip)
    decreases |buf| - pos
  {
    hide NatAt;
    ValidateDrop(buf, pos, skip);
    var p := Validate(buf, pos);
    if p.Found? && p.raw + 7 < U64 {
      EnumerateDrop(buf, pos + p.size, skip);
      assert pos + p.size - skip == pos - skip + p.size;
      assert buf[skip..][pos - skip + p.hdr..pos - skip + p.raw] == buf[pos + p.hdr..pos + p.raw];
    }
  }

  lemma ValidateDrop(buf: seq<byte>, pos: nat, skip: nat)
    requires skip <= pos <= |buf|
    ensures Validate(buf, pos) == Validate(buf[skip..], pos - skip)
  {
    hide NatAt;
    if pos + 4 <= |buf| {
      NatDrop(buf, pos, skip, 4);
    }
    if pos + 16 <= |buf| {
      NatDrop(buf, pos + 8, skip, 8);
    }
  }

  lemma NatDrop(buf: seq<byte>, pos: nat, skip: nat, k: nat)
    requires skip <= pos && pos + k <= |buf|
    ensures NatAt(buf, pos, k) == NatAt(buf[skip..], pos - skip, k)
  {
    assert buf[pos..pos + k] == buf[skip..][pos - skip..pos - skip + k];
    NatMoved(buf, pos, buf[skip..], pos - skip, k);
  }

  /** Any list of storable blocks, short and extended mixed, is enumerated back as
      exactly that list. */
  lemma {:induction false} WrittenEnumerates(bs: seq<Block>)
    requires forall i :: 0 <= i < |bs| ==> Storable(bs[i])
    ensures Enumerate(Written(bs), 0) == (bs, Clean)
  {
    hide BlockBytes, Validate;
    var buf := Written(bs);
    if bs == [] {
      EmptyWalk();
    } else {
      var first, rest := BlockBytes(bs[0]), Written(bs[1..]);
      FirstBlock(bs[0], rest);
      WrittenEnumerates(bs[1..]);
      EnumerateDrop(buf, |first|, |first|);
      assert buf[|first|..] == rest;
      assert [bs[0]] + bs[1..] == bs;
    }
  }

  /** An extended header with one of the last seven sizes, behind any storable blocks and in
      front of anything: the blocks before it are found, and the walk never gets past it. */
  lemma {:induction false} WrappedSticks(bs: seq<Block>, typ: nat, raw: nat, rest: seq<byte>)
    requires forall i :: 0 <= i < |bs| ==> Storable(bs[i])
    requires typ < 0x4000_0000 && U64 - 7 <= raw < U64
    ensures Enumerate(Written(bs) + ExtBytes(typ, raw) + rest, 0) == (bs, Stuck)
  {
    hide BlockBytes, Validate, ExtBytes;
    var tail := ExtBytes(typ, raw) + rest;
    var buf := Written(bs) + ExtBytes(typ, raw) + rest;
    assert buf == Written(bs) + tail;
    if bs == [] {
      assert buf == tail;
      WrappedFound(typ, raw, rest);
    } else {
      var first, next := BlockBytes(bs[0]), Written(bs[1..]) + ExtBytes(typ, raw) + rest;
      assert buf == first + next;
      FirstBlock(bs[0], next);
      WrappedSticks(bs[1..], typ, raw, rest);
      EnumerateDrop(buf, |first|, |first|);
      assert buf[|first|..] == next;
      assert [bs[0]] + bs[1..] == bs;
    }
  }

  lemma WrappedFound(typ: nat, raw: nat, rest: seq<byte>)
    requires typ < 0x4000_0000 && U64 - 7 <= raw < U64
    ensures Validate(ExtBytes(typ, raw) + rest, 0) == Found(typ, 16, raw, 0)
  {
    hide Le, NatAt;
    ExtHeader(ExtBytes(typ, raw) + rest, typ, raw);
  }

  lemma EmptyWalk()
    ensures Enumerate([], 0) == ([], Clean)
  {
  }

  /** A short block comes back exactly when its type fits in the two bits left
      for it. */
  lemma ShortRoundTripIff(b: Block)
    requires |b.payload| <= SHORT_LIMIT
    ensures Enumerate(BlockBytes(b), 0) == ([b], Clean) <==> b.typ < TYPE_EXT
  {
    if b.typ < TYPE_EXT {
      assert Written([b]) == BlockBytes(b) + Written([]) by { assert [b][1..] == []; }
      assert BlockBytes(b) + [] == BlockBytes(b);
      assert [b][0] == b;
      WrittenEnumerates([b]);
    } else {
      ShortMisread(b);
    }
  }

  lemma ShortMisread(b: Block)
    requires |b.payload| <= SHORT_LIMIT && b.typ >= TYPE_EXT
    ensures Enumerate(BlockBytes(b), 0) != ([b], Clean)
  {
    hide NatAt, Header;
    var buf := BlockBytes(b);
    var n := |b.payload|;
    HeaderLength(b.typ, n);
    assert buf[..4] == Header(b.typ, n);
    ShortHeader(buf, b.typ, n);
    var p := Validate(buf, 0);
    var ts := TypeSize(buf, 0);
    if p.Found? && p.raw + 7 < U64 {
      var first := Block(p.typ, buf[p.hdr..p.raw]);
      assert Enumerate(buf, 0).0[0] == first;
      if IsExt(ts) {
        assert p.hdr == 16 && p.raw <= |buf| < 4 + n + 8;
        assert |first.payload| < n;
      } else {
        assert p.typ < 4;
        assert p.typ < TYPE_EXT;
      }
    }
  }
}
