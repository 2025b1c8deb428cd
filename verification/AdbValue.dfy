/**
 Value words of the ADB format and the read side of the store: a 32-bit word
 carries a 4-bit type and a 28-bit immediate value or arena offset.
 */
module AdbValue {
  import opened Bytes

  /** adb_val_t, by its two parts. */
  datatype RawWord = Word(tag: nat, val: nat)

  type word = w: RawWord | w.tag < 16 && w.val < 0x1000_0000 witness Word(0, 0)

  const OFFSET_LIMIT: nat := 0x1000_0000   // ADB_VALUE_MASK + 1

  const TYPE_SPECIAL: nat := 0x0
  const TYPE_INT: nat := 0x1
  const TYPE_INT_32: nat := 0x2
  const TYPE_INT_64: nat := 0x3
  const TYPE_BLOB_8: nat := 0x8
  const TYPE_BLOB_16: nat := 0x9
  const TYPE_BLOB_32: nat := 0xa
  const TYPE_ARRAY: nat := 0xd
  const TYPE_OBJECT: nat := 0xe
  const TYPE_ERROR: nat := 0xf

  const NULL: word := Word(0, 0)

  const HDR_SIZE: nat := 8                 // sizeof(struct adb_hdr)

  /** The 32 bits of a word, and back. */
  function Pack(w: word): (n: nat)
    ensures n < 0x1_0000_0000
  {
    w.tag * 0x1000_0000 + w.val
  }

  function Unpack(n: nat): word
  {
    Word(n / 0x1000_0000 % 16, n % 0x1000_0000)
  }

  lemma PackRoundTrip(w: word)
    ensures Unpack(Pack(w)) == w
  {
  }

  lemma UnpackRoundTrip(n: nat)
    requires n < 0x1_0000_0000
    ensures Pack(Unpack(n)) == n
  {
  }

  /** The word of a type and a value of 28 bits; of a wider value only the low
      bits are kept. */
  function Tag(t: nat, v: nat): (w: word)
    requires t < 16
    ensures v < OFFSET_LIMIT ==> w == Word(t, v)
  {
    Word(t, v % 0x1000_0000)
  }

  /** Bitwise or of the low bits of two numbers. */
  function Or(a: nat, b: nat, bits: nat): (r: nat)
    ensures r < Pow2(bits)
    decreases bits
  {
    if bits == 0 then 0
    else 2 * Or(a / 2, b / 2, bits - 1) + (if a % 2 == 1 || b % 2 == 1 then 1 else 0)
  }

  lemma {:induction false} OrZero(a: nat, bits: nat)
    requires a < Pow2(bits)
    ensures Or(a, 0, bits) == a
  {
    if bits > 0 {
      OrZero(a / 2, bits - 1);
    }
  }

  /** The ADB_VAL macro itself: the type is or-ed over whatever the value has in
      its top bits. */
  function AdbVal(t: nat, v: nat): (n: nat)
    requires t < 16 && v < 0x1_0000_0000
    ensures n < 0x1_0000_0000
  {
    assert Pow2(4) == 16;
    Or(t, v / 0x1000_0000, 4) * 0x1000_0000 + v % 0x1000_0000
  }

  /** The macro gives the value back exactly when it has 28 bits, and then the
      type as well: the bound every arena offset has to meet. */
  lemma AdbValExact(t: nat, v: nat)
    requires t < 16 && v < 0x1_0000_0000
    ensures Unpack(AdbVal(t, v)).val == v <==> v < OFFSET_LIMIT
    ensures v < OFFSET_LIMIT ==> Unpack(AdbVal(t, v)) == Tag(t, v)
  {
    assert Pow2(4) == 16;
    OrZero(t, 4);
  }

  predicate IsNodeType(t: nat) { t == TYPE_ARRAY || t == TYPE_OBJECT }

  function NodeType(isArray: bool): nat { if isArray then TYPE_ARRAY else TYPE_OBJECT }

  /** Types whose value is an arena offset. */
  predicate IsRef(w: word) {
    w.tag == TYPE_INT_32 || w.tag == TYPE_INT_64 || IsBlobType(w.tag) || IsNodeType(w.tag)
  }

  /** What a word stands for. */
  datatype Value =
    | Special(code: nat)
    | Int(n: nat)
    | Blob(bytes: seq<byte>)
    | Node(isArray: bool, fields: seq<Value>)

  const NullValue := Special(0)

  // ---- The read interface --------------------------------------------------

  /** adb_r_deref: len bytes at the word's offset plus skip, if inside the arena. */
  function Deref(data: seq<byte>, w: word, skip: nat, len: nat): Option<seq<byte>>
  {
    var offs := w.val + skip;
    if offs + len > |data| then None else Some(data[offs..offs + len])
  }

  /** The little-endian number in k bytes of the arena. */
  function NatAt(data: seq<byte>, offs: nat, k: nat): nat
    requires offs + k <= |data|
    decreases k
  {
    if k == 0 then 0 else data[offs] + 256 * NatAt(data, offs + 1, k - 1)
  }

  lemma {:induction false} NatAtReads(data: seq<byte>, offs: nat, k: nat)
    requires offs + k <= |data|
    ensures NatAt(data, offs, k) == FromLe(data[offs..offs + k])
    decreases k
  {
    if k > 0 {
      NatAtReads(data, offs + 1, k - 1);
      assert data[offs..offs + k][1..] == data[offs + 1..offs + k];
    }
  }

  /** An integer stored where it was written. */
  lemma NatStored(data: seq<byte>, o: nat, n: nat, k: nat)
    requires n < Pow256(k) && o + k <= |data| && data[o..o + k] == Le(n, k)
    ensures NatAt(data, o, k) == n
  {
    NatAtReads(data, o, k);
    LeRoundTrip(n, k);
  }

  /** The same bytes are the same number wherever they are. */
  lemma NatMoved(data: seq<byte>, offs: nat, data': seq<byte>, offs': nat, k: nat)
    requires offs + k <= |data| && offs' + k <= |data'| && data[offs..offs + k] == data'[offs'..offs' + k]
    ensures NatAt(data, offs, k) == NatAt(data', offs', k)
  {
    NatAtReads(data, offs, k);
    NatAtReads(data', offs', k);
  }

  function WordAt(data: seq<byte>, offs: nat): word
    requires offs + 4 <= |data|
  {
    Unpack(NatAt(data, offs, 4))
  }

  /** adb_r_int */
  function ReadInt(data: seq<byte>, w: word): nat
  {
    if w.tag == TYPE_INT then w.val
    else if w.tag == TYPE_INT_32 then
      if w.val + 4 > |data| then 0 else NatAt(data, w.val, 4)
    else if w.tag == TYPE_INT_64 then
      if w.val + 8 > |data| then 0 else NatAt(data, w.val, 8)
    else 0
  }

  /** Size of the length prefix of a blob of the given type. */
  function PrefixSize(t: nat): nat
  {
    if t == TYPE_BLOB_8 then 1 else if t == TYPE_BLOB_16 then 2 else 4
  }

  predicate IsBlobType(t: nat) { t == TYPE_BLOB_8 || t == TYPE_BLOB_16 || t == TYPE_BLOB_32 }

  /** adb_r_blob; None is the null blob. */
  function ReadBlob(data: seq<byte>, w: word): Option<seq<byte>>
  {
    if !IsBlobType(w.tag) then None
    else
      var k := PrefixSize(w.tag);
      if w.val + k > |data| then None else Deref(data, w, k, NatAt(data, w.val, k))
  }

  /** adb_r_obj: the entry count of an object or array, 1 (no entries) when the
      word is of another type or its table does not fit in the arena. */
  function ReadNum(data: seq<byte>, w: word): (num: nat)
    ensures num >= 1
    ensures num > 1 ==> IsNodeType(w.tag) && w.val + 4 * num <= |data|
  {
    if !IsNodeType(w.tag) || w.val + 8 > |data| then 1
    else
      var num := NatAt(data, w.val, 4);
      if num == 0 || w.val + 4 * num > |data| then 1 else num
  }

  /** adb_ro_val */
  function ReadField(data: seq<byte>, w: word, i: nat): word
  {
    if i >= ReadNum(data, w) || i == 0 then NULL else WordAt(data, w.val + 4 * i)
  }

  // ---- The layout in bytes -----------------------------------------------------

  /** Four bytes, least significant first. */
  function Quad(data: seq<byte>, o: nat): nat
    requires o + 4 <= |data|
  {
    Pair(data, o) + 0x1_0000 * Pair(data, o + 2)
  }

  function Pair(data: seq<byte>, o: nat): nat
    requires o + 2 <= |data|
  {
    var low: nat, high: nat := data[o], data[o + 1];
    low + 0x100 * high
  }

  /** A blob in bytes: by the type of the word one, two or four bytes of length, and then the blob. */
  predicate StoredBlob(data: seq<byte>, t: nat, o: nat, b: seq<byte>)
  {
    || (t == 8 && o + 1 + |b| <= |data| && data[o] == |b| && data[o + 1..o + 1 + |b|] == b)
    || (t == 9 && o + 2 + |b| <= |data| && Pair(data, o) == |b| && data[o + 2..o + 2 + |b|] == b)
    || (t == 10 && o + 4 + |b| <= |data| && Quad(data, o) == |b| && data[o + 4..o + 4 + |b|] == b)
  }

  lemma NatAtBytes(data: seq<byte>, o: nat)
    ensures o + 1 <= |data| ==> NatAt(data, o, 1) == data[o]
    ensures o + 2 <= |data| ==> NatAt(data, o, 2) == Pair(data, o)
    ensures o + 4 <= |data| ==> NatAt(data, o, 4) == Quad(data, o)
    ensures o + 8 <= |data| ==> NatAt(data, o, 8) == Quad(data, o) + 0x1_0000_0000 * Quad(data, o + 4)
  {
    if o + 4 <= |data| {
      QuadRead(data, o, 0);
    }
    if o + 8 <= |data| {
      QuadRead(data, o + 4, 0);
      QuadRead(data, o, 4);
    }
  }

  lemma QuadRead(data: seq<byte>, o: nat, k: nat)
    requires o + 4 + k <= |data|
    ensures NatAt(data, o, 4 + k) == Quad(data, o) + 0x1_0000_0000 * NatAt(data, o + 4, k)
  {
    assert NatAt(data, o + 3, 1 + k) == data[o + 3] + 256 * NatAt(data, o + 4, k);
    assert NatAt(data, o + 2, 2 + k) == data[o + 2] + 256 * NatAt(data, o + 3, 1 + k);
    assert NatAt(data, o + 1, 3 + k) == data[o + 1] + 256 * NatAt(data, o + 2, 2 + k);
  }

  /** A blob is read, or held, exactly if its bytes are there. */
  lemma BlobStoredIff(data: seq<byte>, w: word, b: seq<byte>, base: nat := HDR_SIZE)
    ensures ReadBlob(data, w) == Some(b) <==> StoredBlob(data, w.tag, w.val, b)
    ensures Holds(data, w, Blob(b), base) <==> base <= w.val && StoredBlob(data, w.tag, w.val, b)
  {
    hide NatAt, Quad, Pair, ReadBlob;
    NatAtBytes(data, w.val);
    BlobReadAt(data, w, b);
  }

  lemma BlobReadAt(data: seq<byte>, w: word, b: seq<byte>)
    ensures ReadBlob(data, w) == Some(b) <==>
              var k := PrefixSize(w.tag);
              && IsBlobType(w.tag) && w.val + k + |b| <= |data| && NatAt(data, w.val, k) == |b|
              && data[w.val + k..w.val + k + |b|] == b
  {
    hide NatAt;
  }

  /** An integer is the value of its word, or four or eight bytes. */
  lemma IntStored(data: seq<byte>, w: word)
    ensures w.tag == 1 ==> ReadInt(data, w) == w.val
    ensures w.tag == 2 && w.val + 4 <= |data| ==> ReadInt(data, w) == Quad(data, w.val)
    ensures w.tag == 3 && w.val + 8 <= |data| ==>
              ReadInt(data, w) == Quad(data, w.val) + 0x1_0000_0000 * Quad(data, w.val + 4)
    ensures w.tag !in {1, 2, 3} ==> ReadInt(data, w) == 0
    ensures (w.tag == 2 && w.val + 4 > |data|) || (w.tag == 3 && w.val + 8 > |data|) ==> ReadInt(data, w) == 0
  {
    hide NatAt;
    NatAtBytes(data, w.val);
  }

  /** A table with its entry count, itself included, and room for so many entries of four bytes. */
  predicate StoredTable(data: seq<byte>, w: word)
  {
    && w.tag in {13, 14} && w.val + 8 <= |data|
    && 1 <= Quad(data, w.val) && w.val + 4 * Quad(data, w.val) <= |data|
  }

  /** Of a table the entries are read, by number from 1 on, with the type in the top four bits; of
      anything else, and past the last entry, there is only null. */
  lemma TableStored(data: seq<byte>, w: word, i: nat)
    ensures ReadNum(data, w) == if StoredTable(data, w) then Quad(data, w.val) else 1
    ensures if StoredTable(data, w) && 1 <= i < Quad(data, w.val)
            then var f := ReadField(data, w, i); Quad(data, w.val + 4 * i) == f.tag * 0x1000_0000 + f.val
            else ReadField(data, w, i) == Word(0, 0)
  {
    hide NatAt;
    NatAtBytes(data, w.val);
    NatAtBytes(data, w.val + 4 * i);
  }

  // ---- What a word holds -----------------------------------------------------

  /** w holds v in data, every piece of it in the arena past the header, or past some other
      base. */
  ghost predicate Holds(data: seq<byte>, w: word, v: Value, base: nat := HDR_SIZE)
    decreases v
  {
    match v
    case Special(code) => code < OFFSET_LIMIT && w == Word(TYPE_SPECIAL, code)
    case Int(n) =>
      || (w.tag == TYPE_INT && w.val == n)
      || (w.tag == TYPE_INT_32 && base <= w.val && w.val + 4 <= |data| && NatAt(data, w.val, 4) == n)
      || (w.tag == TYPE_INT_64 && base <= w.val && w.val + 8 <= |data| && NatAt(data, w.val, 8) == n)
    case Blob(b) =>
      var k := PrefixSize(w.tag);
      && IsBlobType(w.tag) && base <= w.val && w.val + k + |b| <= |data|
      && NatAt(data, w.val, k) == |b|
      && data[w.val + k..w.val + k + |b|] == b
    case Node(isArray, fields) =>
      && w.tag == NodeType(isArray) && base <= w.val
      && 1 <= |fields|
      && w.val + 4 * (|fields| + 1) <= |data|
      && NatAt(data, w.val, 4) == |fields| + 1
      && forall i :: 0 <= i < |fields| ==>
           Holds(data, FieldAt(data, w, i), fields[i], base)
  }

  /** Entry i (from 0) of the table at w, by plain offset. */
  function FieldAt(data: seq<byte>, w: word, i: nat): word
    requires w.val + 4 * (i + 2) <= |data|
  {
    WordAt(data, w.val + 4 * (i + 1))
  }

  /** The readers return what the word holds. */
  lemma HoldsReads(data: seq<byte>, w: word, v: Value, base: nat := HDR_SIZE)
    requires Holds(data, w, v, base)
    ensures v.Int? ==> ReadInt(data, w) == v.n
    ensures v.Blob? ==> ReadBlob(data, w) == Some(v.bytes)
    ensures v.Node? ==> ReadNum(data, w) == |v.fields| + 1
    ensures v.Node? ==> forall i :: 0 <= i < |v.fields| ==> Holds(data, ReadField(data, w, i + 1), v.fields[i], base)
    ensures !v.Int? ==> ReadInt(data, w) == 0
    ensures !v.Blob? ==> ReadBlob(data, w) == None
    ensures !v.Node? ==> ReadNum(data, w) == 1
  {
    if v.Node? {
      forall i | 0 <= i < |v.fields|
        ensures ReadField(data, w, i + 1) == FieldAt(data, w, i)
      {
      }
    }
  }

  /** What a word holds depends only on the arena past the header, up to where
      it ended when the word was made: later writes and a new root do not
      disturb it. */
  lemma {:induction false} HoldsStable(data: seq<byte>, later: seq<byte>, w: word, v: Value, base: nat := HDR_SIZE)
    requires Holds(data, w, v, base)
    requires base <= |data| <= |later| && data[base..] == later[base..|data|]
    ensures Holds(later, w, v, base)
    decreases v
  {
    hide NatAt, Unpack, PrefixSize;
    match v {
      case Special(code) =>
      case Int(n) =>
        if w.tag == TYPE_INT_32 { SameNat(data, later, w.val, 4, base); }
        if w.tag == TYPE_INT_64 { SameNat(data, later, w.val, 8, base); }
      case Blob(b) =>
        SameNat(data, later, w.val, PrefixSize(w.tag), base);
        SameSlice(data, later, w.val + PrefixSize(w.tag), |b|, base);
      case Node(isArray, fields) =>
        SameNat(data, later, w.val, 4, base);
        forall i | 0 <= i < |fields|
          ensures FieldAt(data, w, i) == FieldAt(later, w, i)
          ensures Holds(later, FieldAt(later, w, i), fields[i], base)
        {
          SameNat(data, later, w.val + 4 * (i + 1), 4, base);
          assert Holds(data, FieldAt(data, w, i), fields[i], base);
          HoldsStable(data, later, FieldAt(data, w, i), fields[i], base);
        }
    }
  }

  lemma SameNat(data: seq<byte>, later: seq<byte>, o: nat, k: nat, base: nat := HDR_SIZE)
    requires base <= o && o + k <= |data| <= |later|
    requires data[base..] == later[base..|data|]
    ensures NatAt(data, o, k) == NatAt(later, o, k)
  {
    SameSlice(data, later, o, k, base);
    NatMoved(data, o, later, o, k);
  }

  lemma SameSlice(data: seq<byte>, later: seq<byte>, o: nat, n: nat, base: nat := HDR_SIZE)
    requires base <= o && o + n <= |data| <= |later|
    requires data[base..] == later[base..|data|]
    ensures data[o..o + n] == later[o..o + n]
  {
    assert data[base..] == data[base..|data|];
    SliceOfSlice(data, base, |data|, o - base, o - base + n);
    SliceOfSlice(later, base, |data|, o - base, o - base + n);
  }

  /** A word holds at most one value. */
  lemma {:induction false} HoldsUnique(data: seq<byte>, w: word, v: Value, v': Value, base: nat := HDR_SIZE)
    requires Holds(data, w, v, base) && Holds(data, w, v', base)
    ensures v == v'
    decreases v
  {
    HoldsReads(data, w, v, base);
    HoldsReads(data, w, v', base);
    TypeOfHeld(data, w, v, base);
    TypeOfHeld(data, w, v', base);
    match v {
      case Special(code) =>
      case Int(n) =>
      case Blob(b) =>
      case Node(isArray, fields) =>
        forall i | 0 <= i < |fields|
          ensures fields[i] == v'.fields[i]
        {
          HoldsUnique(data, FieldAt(data, w, i), fields[i], v'.fields[i], base);
        }
        assert fields == v'.fields;
    }
  }

  /** The type of a word tells the kind of value. */
  lemma TypeOfHeld(data: seq<byte>, w: word, v: Value, base: nat := HDR_SIZE)
    requires Holds(data, w, v, base)
    ensures v.Special? <==> w.tag == TYPE_SPECIAL
    ensures v.Int? <==> w.tag in {TYPE_INT, TYPE_INT_32, TYPE_INT_64}
    ensures v.Blob? <==> IsBlobType(w.tag)
    ensures v.Node? <==> IsNodeType(w.tag)
    ensures v.Node? ==> (v.isArray <==> w.tag == TYPE_ARRAY)
    ensures w == NULL <==> v == NullValue
  {
  }
}
