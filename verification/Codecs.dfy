/**
 The text encodings of the installed database: numbers in a radix, base64, digests,
 and the access lines made of them. Output goes to a fixed buffer that fails for good on
 overflow; input is a byte string that is consumed from the front.
 */
module Codecs {
  import opened Bytes

  const U64: nat := 0x1_0000_0000_0000_0000
  const BAD: nat := 0xff

  const COLON: byte := 0x3a
  const NEWLINE: byte := 0x0a
  const EQUALS: byte := 0x3d

  // ---- Digits ------------------------------------------------------------------------------------

  /** Digits 0-9 then a-z. */
  function DigitChar(d: nat): byte
    requires d < 36
  {
    if d < 10 then 0x30 + d else 0x61 + (d - 10)
  }

  /** The value of a digit character; a plus sign counts as 62. */
  function DigitVal(c: byte): nat
  {
    if 0x30 <= c <= 0x39 then c - 0x30
    else if 0x41 <= c <= 0x46 then c - 0x41 + 10
    else if 0x61 <= c <= 0x66 then c - 0x61 + 10
    else if c == 0x2b then 0x3e
    else BAD
  }

  /** The digits of a number, most significant first. */
  function Digits(v: nat, radix: nat): (r: seq<byte>)
    requires 2 <= radix <= 36
    ensures v > 0 ==> |r| > 0
    decreases v
  {
    if v == 0 then [] else Digits(v / radix, radix) + [DigitChar(v % radix)]
  }

  function UintText(v: nat, radix: nat): (r: seq<byte>)
    requires 2 <= radix <= 36
    ensures |r| > 0
  {
    if v == 0 then [0x30] else Digits(v, radix)
  }

  predicate IsDigit(c: byte, radix: nat) { c != 0 && DigitVal(c) < radix }

  /** A digit is one of the first sixteen that are written, or its capital, if it is below the radix. */
  lemma DigitIff(c: byte, radix: nat)
    requires 2 <= radix <= 36
    ensures IsDigit(c, radix) <==> exists d: nat :: d < 16 && d < radix && Reads(c, d)
    ensures forall d: nat :: d < 16 && Reads(c, d) ==> DigitVal(c) == d
  {
    if IsDigit(c, radix) {
      assert Reads(c, DigitVal(c));
    }
  }

  predicate Reads(c: byte, d: nat)
    requires d < 16
  {
    c == DigitChar(d) || (10 <= d && c == 0x41 + (d - 10))
  }

  /** The number at the front of a text: value, modulo 2^64, and number of digits. */
  function Value(s: seq<byte>, radix: nat, v: nat): nat
    decreases |s|
  {
    if s == [] || !IsDigit(s[0], radix) then v else Value(s[1..], radix, (v * radix + DigitVal(s[0])) % U64)
  }

  function Span(s: seq<byte>, radix: nat): (n: nat)
    ensures n <= |s|
  {
    if s == [] || !IsDigit(s[0], radix) then 0 else 1 + Span(s[1..], radix)
  }

  lemma DigitRoundTrip(d: nat, radix: nat)
    requires d < radix <= 36
    ensures IsDigit(DigitChar(d), radix) <==> d < 16
    ensures d < 16 ==> DigitVal(DigitChar(d)) == d
  {
  }

  /** The text ends here, or goes on with something that is no digit. */
  predicate Stops(rest: seq<byte>, radix: nat) { rest == [] || !IsDigit(rest[0], radix) }

  /** No digit of the number needs a letter above f. */
  predicate LowDigits(v: nat, radix: nat)
    requires 2 <= radix
    decreases v
  {
    v == 0 || (v % radix < 16 && LowDigits(v / radix, radix))
  }

  lemma {:induction false} SmallRadixLow(v: nat, radix: nat)
    requires 2 <= radix <= 16
    ensures LowDigits(v, radix)
    decreases v
  {
    if v > 0 {
      Smaller(v, radix);
      SmallRadixLow(v / radix, radix);
    }
  }

  lemma ReadOne(d: byte, rest: seq<byte>, radix: nat, v: nat)
    requires IsDigit(d, radix)
    ensures Value([d] + rest, radix, v) == Value(rest, radix, (v * radix + DigitVal(d)) % U64)
    ensures Span([d] + rest, radix) == 1 + Span(rest, radix)
  {
    hide IsDigit, DigitVal;
    assert ([d] + rest)[0] == d && ([d] + rest)[1..] == rest;
  }

  lemma Restored(v: nat, radix: nat)
    requires 2 <= radix && 0 < v < U64
    ensures v / radix < v && (v / radix * radix + v % radix) % U64 == v
  {
    assert v / radix * radix + v % radix == v;
  }

  lemma {:induction false} DigitsRead(v: nat, radix: nat, rest: seq<byte>)
    requires 2 <= radix <= 36 && v < U64 && LowDigits(v, radix)
    ensures Value(Digits(v, radix) + rest, radix, 0) == Value(rest, radix, v)
    ensures Span(Digits(v, radix) + rest, radix) == |Digits(v, radix)| + Span(rest, radix)
    decreases v
  {
    hide Value, Span, IsDigit, DigitVal, DigitChar;
    if v == 0 {
      assert Digits(v, radix) + rest == rest;
    } else {
      Restored(v, radix);
      var d, head := DigitChar(v % radix), Digits(v / radix, radix);
      DigitRoundTrip(v % radix, radix);
      DigitsRead(v / radix, radix, [d] + rest);
      ReadOne(d, rest, radix, v / radix);
      assert Digits(v, radix) + rest == head + ([d] + rest);
    }
  }

  /** Reading stops at a letter above f. */
  lemma {:induction false} DigitsCut(v: nat, radix: nat, rest: seq<byte>)
    requires 2 <= radix <= 36 && v < U64 && !LowDigits(v, radix)
    ensures Span(Digits(v, radix) + rest, radix) < |Digits(v, radix)|
    decreases v
  {
    hide IsDigit, DigitVal, DigitChar, Digits, Value;
    DigitsStep(v, radix);
    var d, head := DigitChar(v % radix), Digits(v / radix, radix);
    Both(head, [d], rest);
    if LowDigits(v / radix, radix) {
      DigitRoundTrip(v % radix, radix);
      DigitsRead(v / radix, radix, [d] + rest);
      assert Span([d] + rest, radix) == 0;
    } else {
      DigitsCut(v / radix, radix, [d] + rest);
    }
  }

  /** A 64-bit number is read back from its digits, which are consumed exactly, if and only
      if no digit is above f and no further digit follows. In radix 2 to 16 that is every
      number. */
  lemma UintRoundTrip(v: nat, radix: nat, rest: seq<byte>)
    requires 2 <= radix <= 36 && v < U64
    ensures Span(UintText(v, radix) + rest, radix) == |UintText(v, radix)| <==> LowDigits(v, radix) && Stops(rest, radix)
    ensures LowDigits(v, radix) && Stops(rest, radix) ==> Value(UintText(v, radix) + rest, radix, 0) == v
    ensures radix <= 16 ==> LowDigits(v, radix)
  {
    hide IsDigit, DigitVal, DigitChar;
    if v == 0 {
      DigitRoundTrip(0, radix);
      assert DigitChar(0) == 0x30 by { ZeroChar(); }
      ReadOne(0x30, rest, radix, 0);
    } else if LowDigits(v, radix) {
      DigitsRead(v, radix, rest);
    } else {
      DigitsCut(v, radix, rest);
    }
    if radix <= 16 {
      SmallRadixLow(v, radix);
    }
  }

  lemma ZeroChar()
    ensures DigitChar(0) == 0x30
  {
  }

  lemma HalfQuotient(v: nat, radix: nat)
    requires 2 <= radix
    ensures 2 * (v / radix) <= v
  {
    var q := v / radix;
    assert q * radix <= v;
    MulMono(2, radix, q);
    assert radix * q == q * radix;
  }

  lemma {:induction false} DigitCount(v: nat, radix: nat, k: nat)
    requires 2 <= radix <= 36 && v < Pow2(k)
    ensures |Digits(v, radix)| <= k
  {
    hide DigitChar;
    if v == 0 {
    } else if k == 0 {
      assert false;
    } else {
      HalfQuotient(v, radix);
      DigitCount(v / radix, radix, k - 1);
      DigitsStep(v, radix);
    }
  }

  // ---- Base64 (section 4 of RFC 4648) ---------------------------------------------------------------

  function B64Char(i: nat): byte
    requires i < 64
  {
    if i < 26 then 0x41 + i
    else if i < 52 then 0x61 + (i - 26)
    else if i < 62 then 0x30 + (i - 52)
    else if i == 62 then 0x2b
    else 0x2f
  }

  /** The value of a base64 character; the padding character counts as zero. */
  function B64Val(c: byte): nat
  {
    if 0x41 <= c <= 0x5a then c - 0x41
    else if 0x61 <= c <= 0x7a then c - 0x61 + 26
    else if 0x30 <= c <= 0x39 then c - 0x30 + 52
    else if c == 0x2b then 62
    else if c == 0x2f then 63
    else if c == EQUALS then 0
    else BAD
  }

  function EncodeGroup(a: byte, b: byte, c: byte): (r: seq<byte>)
    ensures |r| == 4
  {
    [B64Char(a / 4), B64Char(a % 4 * 16 + b / 16), B64Char(b % 16 * 4 + c / 64), B64Char(c % 64)]
  }

  function EncodeTail(s: seq<byte>): (r: seq<byte>)
    requires |s| == 1 || |s| == 2
    ensures |r| == 4
  {
    var b := if |s| == 2 then s[1] else 0;
    [B64Char(s[0] / 4), B64Char(s[0] % 4 * 16 + b / 16), if |s| == 2 then B64Char(b % 16 * 4) else EQUALS, EQUALS]
  }

  function Encode64(s: seq<byte>): (r: seq<byte>)
    ensures |r| == (|s| + 2) / 3 * 4
  {
    if s == [] then []
    else if |s| < 3 then EncodeTail(s)
    else EncodeGroup(s[0], s[1], s[2]) + Encode64(s[3..])
  }

  /** Four valid characters to three bytes. */
  function DecodeGroup(t: seq<byte>): Option<seq<byte>>
    requires |t| >= 4
  {
    var w, x, y, z := B64Val(t[0]), B64Val(t[1]), B64Val(t[2]), B64Val(t[3]);
    if w == BAD || x == BAD || y == BAD || z == BAD then None
    else Some([w * 4 + x / 16, x % 16 * 16 + y / 4, y % 4 * 64 + z])
  }

  function DecodeTail(t: seq<byte>, n: nat): Option<seq<byte>>
    requires |t| >= 4 && (n == 1 || n == 2)
  {
    match DecodeGroup(t)
    case None => None
    case Some(g) =>
      if (n == 1 && t[2] != EQUALS) || t[3] != EQUALS then None else Some(g[..n])
  }

  /** The first n bytes encoded at the front of a text. */
  function Decode64(t: seq<byte>, n: nat): Option<seq<byte>>
    requires |t| >= (n + 2) / 3 * 4
    decreases n
  {
    if n == 0 then Some([])
    else if n < 3 then DecodeTail(t, n)
    else
      match DecodeGroup(t)
      case None => None
      case Some(g) => match Decode64(t[4..], n - 3)
        case None => None
        case Some(more) => Some(g + more)
  }

  /** The alphabet, as in table 1 of RFC 4648. */
  predicate InAlphabet(c: byte)
  {
    || ('A' as int <= c <= 'Z' as int) || ('a' as int <= c <= 'z' as int) || ('0' as int <= c <= '9' as int)
    || c == '+' as int || c == '/' as int
  }

  lemma AlphabetIs(i: nat, c: byte)
    requires i < 64
    ensures InAlphabet(B64Char(i)) && (forall j: nat :: j < i ==> B64Char(j) != B64Char(i))
    ensures B64Char(0) == 'A' as int && B64Char(25) == 'Z' as int && B64Char(26) == 'a' as int && B64Char(51) == 'z' as int
    ensures B64Char(52) == '0' as int && B64Char(61) == '9' as int && B64Char(62) == '+' as int && B64Char(63) == '/' as int
    ensures i !in {0, 26, 52, 62, 63} ==> B64Char(i) == B64Char(i - 1) + 1
    ensures B64Val(c) != BAD <==> InAlphabet(c) || c == '=' as int
    ensures B64Val('=' as int) == 0
    ensures B64Val(c) == i && c != '=' as int <==> c == B64Char(i)
  {
  }

  /** What the encoder writes for one, two and three bytes. */
  lemma Encodes(a: byte, b: byte, c: byte)
    ensures Encode64([a]) == [B64Char(a / 4), B64Char(a % 4 * 16), 0x3d, 0x3d]
    ensures Encode64([a, b]) == [B64Char(a / 4), B64Char(a % 4 * 16 + b / 16), B64Char(b % 16 * 4), 0x3d]
    ensures Encode64([a, b, c]) ==
            [B64Char(a / 4), B64Char(a % 4 * 16 + b / 16), B64Char(b % 16 * 4 + c / 64), B64Char(c % 64)]
  {
    hide B64Char;
    assert [a, b, c][3..] == [];
    assert Encode64([]) == [];
    assert EncodeGroup(a, b, c) + [] == EncodeGroup(a, b, c);
  }

  /** A text is decoded exactly if all its characters are of the alphabet or padding, and a last group
      of fewer than three bytes is padded. */
  lemma {:induction false} DecodesIff(t: seq<byte>, n: nat)
    requires |t| >= (n + 2) / 3 * 4
    ensures Decode64(t, n).Some? <==> Encoding(t, n, (n + 2) / 3 * 4)
    decreases n
  {
    hide InAlphabet;
    if n > 0 {
      GroupIff(t);
      if n >= 3 {
        hide Encoding;
        DecodesIff(t[4..], n - 3);
        EncodingMore(t, n, (n + 2) / 3 * 4);
      }
    }
  }

  predicate Encoding(t: seq<byte>, n: nat, k: nat)
    requires k <= |t|
  {
    && (forall i :: 0 <= i < k ==> InAlphabet(t[i]) || t[i] == 0x3d)
    && (n % 3 != 0 ==> k >= 2 && t[k - 1] == 0x3d) && (n % 3 == 1 ==> t[k - 2] == 0x3d)
  }

  lemma EncodingMore(t: seq<byte>, n: nat, k: nat)
    requires n >= 3 && k == (n + 2) / 3 * 4 <= |t|
    ensures k - 4 == (n - 3 + 2) / 3 * 4
    ensures Encoding(t, n, k) <==>
              (forall i :: 0 <= i < 4 ==> InAlphabet(t[i]) || t[i] == 0x3d) && Encoding(t[4..], n - 3, k - 4)
  {
    hide InAlphabet;
    var rest := t[4..];
    assert forall i :: 4 <= i < k ==> t[i] == rest[i - 4];
    assert forall i :: 0 <= i < k - 4 ==> rest[i] == t[i + 4];
  }

  lemma GroupIff(t: seq<byte>)
    requires |t| >= 4
    ensures DecodeGroup(t).Some? <==> forall i :: 0 <= i < 4 ==> InAlphabet(t[i]) || t[i] == 0x3d
  {
    hide B64Char, InAlphabet, B64Val;
    AlphabetIs(0, t[0]);
    AlphabetIs(0, t[1]);
    AlphabetIs(0, t[2]);
    AlphabetIs(0, t[3]);
  }

  lemma CharRoundTrip(i: nat)
    requires i < 64
    ensures B64Val(B64Char(i)) == i && B64Char(i) != EQUALS
  {
  }

  lemma SplitBytes(a: byte, b: byte, c: byte)
    ensures var w, x, y, z := a / 4, a % 4 * 16 + b / 16, b % 16 * 4 + c / 64, c % 64;
            && w < 64 && x < 64 && y < 64 && z < 64
            && w * 4 + x / 16 == a && x % 16 * 16 + y / 4 == b && y % 4 * 64 + z == c
  {
  }

  lemma GroupRoundTrip(a: byte, b: byte, c: byte, rest: seq<byte>)
    ensures DecodeGroup(EncodeGroup(a, b, c) + rest) == Some([a, b, c])
  {
    hide B64Char, B64Val;
    SplitBytes(a, b, c);
    CharRoundTrip(a / 4);
    CharRoundTrip(a % 4 * 16 + b / 16);
    CharRoundTrip(b % 16 * 4 + c / 64);
    CharRoundTrip(c % 64);
  }

  lemma TailRoundTrip(s: seq<byte>, rest: seq<byte>)
    requires |s| == 1 || |s| == 2
    ensures DecodeTail(EncodeTail(s) + rest, |s|) == Some(s)
  {
    hide B64Char;
    var b: byte := if |s| == 2 then s[1] else 0;
    SplitBytes(s[0], b, 0);
    CharRoundTrip(s[0] / 4);
    CharRoundTrip(s[0] % 4 * 16 + b / 16);
    CharRoundTrip(b % 16 * 4);
    var t := EncodeTail(s) + rest;
    var g := DecodeGroup(t);
    assert g.Some? && g.value[0] == s[0] && (|s| == 2 ==> g.value[1] == s[1]);
    assert g.value[..|s|] == s;
  }

  /** Every byte string is read back from its encoding, whatever follows. */
  lemma {:induction false} Base64RoundTrip(s: seq<byte>, rest: seq<byte>)
    ensures Decode64(Encode64(s) + rest, |s|) == Some(s)
  {
    hide DecodeGroup, DecodeTail, EncodeGroup, EncodeTail;
    if s == [] {
    } else if |s| < 3 {
      TailRoundTrip(s, rest);
    } else {
      var g, more := EncodeGroup(s[0], s[1], s[2]), Encode64(s[3..]);
      Base64RoundTrip(s[3..], rest);
      GroupRoundTrip(s[0], s[1], s[2], more + rest);
      assert Encode64(s) + rest == g + (more + rest);
      assert (g + (more + rest))[4..] == more + rest;
      assert s == [s[0], s[1], s[2]] + s[3..];
    }
  }

  // ---- Digests and access lines ------------------------------------------------------------------------

  const SHA1_LENGTH: nat := 20
  const SHA256_LENGTH: nat := 32
  const PREFIX: seq<byte> := [0x51, 0x31]

  /** Twenty bytes as Q1 and base64; nothing else has a text form. */
  function HashText(hash: seq<byte>): (r: seq<byte>)
    requires |hash| == SHA1_LENGTH
    ensures |r| == 30
  {
    PREFIX + Encode64(hash)
  }

  datatype Acl = Acl(uid: nat, gid: nat, mode: nat, xattrHash: seq<byte>)

  predicate AclOk(acl: Acl)
  {
    acl.uid < U64 && acl.gid < U64 && acl.mode < U64 && (acl.xattrHash == [] || |acl.xattrHash| == SHA1_LENGTH)
  }

  /** What follows the field letter on an access line, without the newline. */
  function AclText(acl: Acl): seq<byte>
    requires AclOk(acl)
  {
    UintText(acl.uid, 10) + ([COLON] + (UintText(acl.gid, 10) + ([COLON] + (UintText(acl.mode, 8) + HashPart(acl)))))
  }

  function HashPart(acl: Acl): seq<byte>
    requires AclOk(acl)
  {
    if acl.xattrHash == [] then [] else [COLON] + HashText(acl.xattrHash)
  }

  // ---- Writing -----------------------------------------------------------------------------------------

  class Out {
    const buf: array<byte>
    var pos: nat
    var failed: bool

    ghost predicate Valid()
      reads this
    {
      pos <= buf.Length
    }

    constructor (size: nat)
      ensures Valid() && fresh(buf) && buf.Length == size && pos == 0 && !failed
    {
      buf := new byte[size];
      pos, failed := 0, false;
    }

    /** What has been written, unless something did not fit. */
    ghost function View(): Option<seq<byte>>
      requires Valid()
      reads this, buf
    {
      if failed then None else Some(buf[..pos])
    }

    method PushBlob(text: seq<byte>)
      requires Valid()
      modifies this`pos, this`failed, buf
      ensures Valid() && View() == Append(old(View()), text, buf.Length)
    {
      if failed {
        return;
      }
      if buf.Length - pos < |text| {
        failed := true;
        return;
      }
      var i := 0;
      while i < |text|
        modifies buf
        invariant 0 <= i <= |text| && buf[..pos] == old(buf[..pos]) && buf[pos..pos + i] == text[..i]
      {
        buf[pos + i] := text[i];
        i := i + 1;
      }
      assert buf[..pos + |text|] == buf[..pos] + buf[pos..pos + |text|] && text[..|text|] == text;
      pos := pos + |text|;
    }

    method PushUint(value: nat, radix: nat)
      requires Valid() && 2 <= radix <= 36 && value < U64
      modifies this`pos, this`failed, buf
      ensures Valid() && View() == Append(old(View()), UintText(value, radix), buf.Length)
    {
      hide Append;
      if value == 0 {
        PushBlob([0x30]);
      } else {
        var digits := MakeDigits(value, radix);
        PushBlob(digits);
      }
    }

    /** Writes the encoding behind what is there; the caller has made sure that it fits. */
    method FillBase64(s: seq<byte>)
      requires Valid() && pos + (|s| + 2) / 3 * 4 <= buf.Length
      modifies buf
      ensures buf[..pos + (|s| + 2) / 3 * 4] == old(buf[..pos]) + Encode64(s)
    {
      hide Encode64, EncodeGroup, EncodeTail;
      var from: nat, to: nat := 0, pos;
      ghost var done := buf[..pos];
      ghost var goal := done + Encode64(s);
      assert s[0..] == s;
      while |s| - from >= 3
        invariant from <= |s| && to + (|s| - from + 2) / 3 * 4 == pos + (|s| + 2) / 3 * 4
        invariant to <= buf.Length && buf[..to] == done && done + Encode64(s[from..]) == goal
      {
        var g := EncodeGroup(s[from], s[from + 1], s[from + 2]);
        GroupOf(s, from);
        Both(done, g, Encode64(s[from + 3..]));
        Put4(to, g);
        done, from, to := done + g, from + 3, to + 4;
      }
      TailOf(s[from..]);
      if |s| - from != 0 {
        Put4(to, EncodeTail(s[from..]));
      } else {
        assert done + [] == done;
      }
    }

    method Put4(at: nat, g: seq<byte>)
      requires |g| == 4 && at + 4 <= buf.Length
      modifies buf
      ensures buf[..at + 4] == old(buf[..at]) + g
    {
      buf[at], buf[at + 1], buf[at + 2], buf[at + 3] := g[0], g[1], g[2], g[3];
      assert buf[..at + 4] == buf[..at] + buf[at..at + 4];
    }

    method PushBase64(s: seq<byte>)
      requires Valid()
      modifies this`pos, this`failed, buf
      ensures Valid() && View() == Append(old(View()), Encode64(s), buf.Length)
    {
      hide Encode64;
      if failed {
        return;
      }
      var needed := (|s| + 2) / 3 * 4;
      if buf.Length - pos < needed {
        failed := true;
        return;
      }
      FillBase64(s);
      pos := pos + needed;
    }

    method PushHash(hash: seq<byte>)
      requires Valid()
      modifies this`pos, this`failed, buf
      ensures Valid() && (|hash| == SHA1_LENGTH ==> View() == Append(old(View()), HashText(hash), buf.Length))
      ensures |hash| != SHA1_LENGTH ==> View() == None
    {
      hide Encode64, Append;
      if |hash| != SHA1_LENGTH {
        failed := true;
        return;
      }
      AppendTwice(View(), PREFIX, Encode64(hash), buf.Length);
      PushBlob(PREFIX);
      PushBase64(hash);
    }

    /** A whole access line. */
    method PushAcl(field: byte, acl: Acl)
      requires Valid() && AclOk(acl)
      modifies this`pos, this`failed, buf
      ensures Valid() && View() == Append(old(View()), [field, COLON] + AclText(acl) + [NEWLINE], buf.Length)
    {
      hide HashText, UintText, Append, AclText;
      ghost var v, n := View(), buf.Length;
      ghost var t := [field, COLON];
      PushBlob([field, COLON]);
      PushUint(acl.uid, 10);
      AppendTwice(v, t, UintText(acl.uid, 10), n);
      t := t + UintText(acl.uid, 10);
      PushBlob([COLON]);
      AppendTwice(v, t, [COLON], n);
      t := t + [COLON];
      PushUint(acl.gid, 10);
      AppendTwice(v, t, UintText(acl.gid, 10), n);
      t := t + UintText(acl.gid, 10);
      PushBlob([COLON]);
      AppendTwice(v, t, [COLON], n);
      t := t + [COLON];
      PushUint(acl.mode, 8);
      AppendTwice(v, t, UintText(acl.mode, 8), n);
      t := t + UintText(acl.mode, 8);
      if acl.xattrHash != [] {
        PushBlob([COLON]);
        AppendTwice(v, t, [COLON], n);
        t := t + [COLON];
        PushHash(acl.xattrHash);
        AppendTwice(v, t, HashText(acl.xattrHash), n);
        t := t + HashText(acl.xattrHash);
      }
      PushBlob([NEWLINE]);
      AppendTwice(v, t, [NEWLINE], n);
      LineParts(field, acl);
    }
  }

  /** Appending to a buffer of fixed size. */
  function Append(v: Option<seq<byte>>, text: seq<byte>, size: nat): Option<seq<byte>>
  {
    if v.None? || |v.value| + |text| > size then None else Some(v.value + text)
  }

  lemma AppendTwice(v: Option<seq<byte>>, a: seq<byte>, b: seq<byte>, size: nat)
    ensures Append(Append(v, a, size), b, size) == Append(v, a + b, size)
  {
    if v.Some? {
      assert v.value + a + b == v.value + (a + b);
    }
  }

  /** The digits are made from the back, in a local buffer of sixty-four places. */
  method MakeDigits(value: nat, radix: nat) returns (text: seq<byte>)
    requires 2 <= radix <= 36 && 0 < value < U64
    ensures text == Digits(value, radix)
  {
    hide DigitChar, Digits, Pow2;
    var digits := new byte[64];
    var i: nat, v: nat := 64, value;
    SixtyFour();
    DigitCount(value, radix, 64);
    while v != 0
      invariant 0 <= i <= 64 && |Digits(v, radix)| <= i
      invariant Digits(v, radix) + digits[i..] == Digits(value, radix)
      decreases v
    {
      ghost var head, d, was := Digits(v / radix, radix), DigitChar(v % radix), digits[i..];
      DigitsStep(v, radix);
      assert (head + [d]) + was == head + ([d] + was);
      i := i - 1;
      digits[i] := DigitChar(v % radix);
      assert digits[i..] == [d] + was;
      v := v / radix;
    }
    DigitsNone(radix);
    text := digits[i..];
    assert [] + text == text;
  }

  lemma DigitsStep(v: nat, radix: nat)
    requires 2 <= radix <= 36 && v > 0
    ensures v / radix < v && Digits(v, radix) == Digits(v / radix, radix) + [DigitChar(v % radix)]
  {
    hide DigitChar;
    Smaller(v, radix);
  }

  lemma Smaller(v: nat, radix: nat)
    requires 2 <= radix && v > 0
    ensures v / radix < v
  {
  }

  lemma DigitsNone(radix: nat)
    requires 2 <= radix <= 36
    ensures Digits(0, radix) == []
  {
  }

  lemma Both(a: seq<byte>, b: seq<byte>, c: seq<byte>)
    ensures a + b + c == a + (b + c)
  {
  }

  /** The pieces of an access line, one after the other, make the line. */
  lemma LineParts(field: byte, acl: Acl)
    requires AclOk(acl)
    ensures var u, g, m := UintText(acl.uid, 10), UintText(acl.gid, 10), UintText(acl.mode, 8);
            var line := [field, COLON] + AclText(acl) + [NEWLINE];
            var numbers := [field, COLON] + u + [COLON] + g + [COLON] + m;
            if acl.xattrHash == [] then numbers + [NEWLINE] == line
            else numbers + [COLON] + HashText(acl.xattrHash) + [NEWLINE] == line
  {
    hide HashText, UintText;
  }

  lemma EightTimes(k: nat)
    ensures Pow2(k + 8) == 256 * Pow2(k)
  {
    assert Pow2(k + 2) == 4 * Pow2(k);
    assert Pow2(k + 4) == 16 * Pow2(k);
    assert Pow2(k + 6) == 64 * Pow2(k);
  }

  lemma SixtyFour()
    ensures Pow2(64) == U64
  {
    assert Pow2(0) == 1;
    hide Pow2;
    EightTimes(0);
    EightTimes(8);
    EightTimes(16);
    EightTimes(24);
    EightTimes(32);
    EightTimes(40);
    EightTimes(48);
    EightTimes(56);
  }

  lemma GroupOf(s: seq<byte>, from: nat)
    requires from + 3 <= |s|
    ensures Encode64(s[from..]) == EncodeGroup(s[from], s[from + 1], s[from + 2]) + Encode64(s[from + 3..])
  {
    assert s[from..][3..] == s[from + 3..];
  }

  lemma TailOf(s: seq<byte>)
    requires |s| < 3
    ensures Encode64(s) == if s == [] then [] else EncodeTail(s)
  {
  }

  // ---- Reading ------------------------------------------------------------------------------------------

  /** Input that has failed is None; every reader passes that on. */
  type In = Option<seq<byte>>

  method PullUint(b: In, radix: nat) returns (v: nat, rest: In)
    ensures (v, rest) == UintRead(b, radix)
  {
    hide IsDigit, DigitVal;
    if b.None? {
      return 0, None;
    }
    var s := b.value;
    v := 0;
    var i := 0;
    assert s[0..] == s;
    while i < |s| && IsDigit(s[i], radix)
      invariant 0 <= i <= |s| && Value(s[i..], radix, v) == Value(s, radix, 0) && i + Span(s[i..], radix) == Span(s, radix)
    {
      assert s[i..][1..] == s[i + 1..];
      v := (v * radix + DigitVal(s[i])) % U64;
      i := i + 1;
    }
    rest := Some(s[i..]);
  }

  function UintRead(b: In, radix: nat): (nat, In)
  {
    if b.None? then (0, None) else (Value(b.value, radix, 0), Some(b.value[Span(b.value, radix)..]))
  }

  function CharRead(b: In, c: byte): In
  {
    if b.None? || b.value == [] || b.value[0] != c then None else Some(b.value[1..])
  }

  /** Reads n bytes of base64, group by group; one bad character anywhere fails it all. */
  method PullBase64(b: In, n: nat) returns (rest: In, to: seq<byte>)
    ensures (rest, to) == Base64Read(b, n)
  {
    hide DecodeGroup, DecodeTail, Decode64;
    var needed := (n + 2) / 3 * 4;
    if b.None? || |b.value| < needed {
      return None, [];
    }
    var s := b.value;
    var from: nat, left: nat := 0, n;
    to := [];
    assert s[0..] == s;
    ghost var goal := Decode64(s, n);
    Decoded(to, goal);
    while left >= 3
      invariant left <= n && from + (left + 2) / 3 * 4 == needed
      invariant Then(to, Decode64(s[from..], left)) == goal
    {
      var g := DecodeGroup(s[from..]);
      GroupRead(s, from, left, to);
      if g.None? {
        return None, [];
      }
      to := to + g.value;
      from, left := from + 4, left - 3;
    }
    TailRead(s, from, left, to);
    if left != 0 {
      var t := DecodeTail(s[from..], left);
      if t.None? {
        return None, [];
      }
      to := to + t.value;
    }
    rest := Some(s[needed..]);
  }

  function Base64Read(b: In, n: nat): (In, seq<byte>)
  {
    var needed := (n + 2) / 3 * 4;
    if b.None? || |b.value| < needed then (None, [])
    else match Decode64(b.value, n)
      case None => (None, [])
      case Some(d) => (Some(b.value[needed..]), d)
  }

  function Then(to: seq<byte>, more: Option<seq<byte>>): Option<seq<byte>>
  {
    if more.None? then None else Some(to + more.value)
  }

  lemma Decoded(to: seq<byte>, goal: Option<seq<byte>>)
    requires to == []
    ensures Then(to, goal) == goal
  {
    if goal.Some? {
      assert to + goal.value == goal.value;
    }
  }

  lemma GroupRead(s: seq<byte>, from: nat, left: nat, to: seq<byte>)
    requires 3 <= left && from + (left + 2) / 3 * 4 <= |s|
    ensures var g := DecodeGroup(s[from..]);
            Then(to, Decode64(s[from..], left)) ==
            if g.None? then None else Then(to + g.value, Decode64(s[from + 4..], left - 3))
  {
    hide DecodeGroup;
    assert s[from..][4..] == s[from + 4..];
    var g, more := DecodeGroup(s[from..]), Decode64(s[from + 4..], left - 3);
    if g.Some? && more.Some? {
      assert to + (g.value + more.value) == to + g.value + more.value;
    }
  }

  lemma TailRead(s: seq<byte>, from: nat, left: nat, to: seq<byte>)
    requires left < 3 && from + (left + 2) / 3 * 4 <= |s|
    ensures Then(to, Decode64(s[from..], left)) ==
            if left == 0 then Some(to) else Then(to, DecodeTail(s[from..], left))
  {
    if left == 0 {
      assert to + [] == to;
    }
  }

  /** Reads a digest: the letter for the encoding, the digit for the length, the text. A
      twenty-byte digest followed by exactly the text of twelve more bytes is taken for one of
      thirty-two. */
  function DigestRead(b: In): (In, seq<byte>)
  {
    if b.None? || |b.value| < 2 || b.value[0] != 0x51 || !(b.value[1] == 0x31 || b.value[1] == 0x32) then (None, [])
    else
      var (rest, d) := Base64Read(Some(b.value[2..]), if b.value[1] == 0x31 then SHA1_LENGTH else SHA256_LENGTH);
      if b.value[1] == 0x31 && LooksLonger(rest) then
        var (rest', more) := Base64Read(rest, SHA256_LENGTH - SHA1_LENGTH);
        (rest', if rest'.None? then [] else d + more)
      else (rest, d)
  }

  predicate LooksLonger(rest: In)
  {
    rest.Some? && |rest.value| == 16 && B64Val(rest.value[0]) != BAD
  }

  /** The text of twenty bytes is read back as these bytes, and nothing more is consumed, exactly
      when what follows cannot be taken for the rest of a longer digest. */
  lemma DigestRoundTrip(hash: seq<byte>, rest: seq<byte>)
    requires |hash| == SHA1_LENGTH
    ensures DigestRead(Some(HashText(hash) + rest)) == (Some(rest), hash) <==> !LooksLonger(Some(rest))
  {
    hide Encode64, Decode64, B64Val;
    var e := Encode64(hash);
    var s := HashText(hash) + rest;
    assert s[0] == 0x51 && s[1] == 0x31;
    assert s[2..] == e + rest;
    assert (e + rest)[28..] == rest;
    Base64RoundTrip(hash, rest);
    if LooksLonger(Some(rest)) {
      LongerTakes(Some(rest), SHA256_LENGTH - SHA1_LENGTH);
    }
  }

  /** Such a text: the digest of twenty bytes, and behind it the base64 text of any twelve bytes. It is
      read as a digest of thirty-two, with nothing left. */
  lemma LongerDigest(hash: seq<byte>, more: seq<byte>)
    requires |hash| == SHA1_LENGTH && |more| == SHA256_LENGTH - SHA1_LENGTH
    ensures DigestRead(Some(HashText(hash) + Encode64(more))) == (Some([]), hash + more)
  {
    hide Encode64, Decode64, B64Val;
    var e, rest := Encode64(hash), Encode64(more);
    var s := HashText(hash) + rest;
    assert s[0] == 0x51 && s[1] == 0x31 && s[2..] == e + rest && (e + rest)[28..] == rest;
    Base64RoundTrip(hash, rest);
    Base64RoundTrip(more, []);
    assert rest + [] == rest && rest[16..] == [];
    FirstValid(more);
  }

  /** A digest of thirty-two bytes has its own form, and is read back whatever follows. */
  lemma LongDigestRoundTrip(hash: seq<byte>, rest: seq<byte>)
    requires |hash| == 32
    ensures DigestRead(Some([0x51, 0x32] + Encode64(hash) + rest)) == (Some(rest), hash)
  {
    hide Encode64, Decode64, B64Val;
    var e := Encode64(hash);
    var s := [0x51, 0x32] + e + rest;
    assert s[0] == 0x51 && s[1] == 0x32 && s[2..] == e + rest && (e + rest)[44..] == rest;
    Base64RoundTrip(hash, rest);
  }

  lemma FirstValid(s: seq<byte>)
    requires |s| >= 3
    ensures B64Val(Encode64(s)[0]) != BAD
  {
    hide B64Char, B64Val, InAlphabet;
    var d := s[0] / 4;
    AlphabetIs(d, B64Char(d));
    assert Encode64(s)[0] == B64Char(d) by {
      assert Encode64(s) == EncodeGroup(s[0], s[1], s[2]) + Encode64(s[3..]);
    }
  }

  lemma LongerTakes(b: In, n: nat)
    requires b.Some? && n > 0
    ensures Base64Read(b, n).0 != b
  {
    hide Decode64;
  }

  /** An access line: user, group, mode in octal, and a digest if another colon follows. */
  function AclRead(l: seq<byte>): (In, Acl)
  {
    var (uid, b1) := UintRead(Some(l), 10);
    var b2 := CharRead(b1, COLON);
    var (gid, b3) := UintRead(b2, 10);
    var b4 := CharRead(b3, COLON);
    var (mode, b5) := UintRead(b4, 8);
    if b5.Some? && b5.value != [] && b5.value[0] == COLON then
      var (b6, hash) := DigestRead(Some(b5.value[1..]));
      (b6, Acl(uid, gid, mode, hash))
    else (b5, Acl(uid, gid, mode, []))
  }

  lemma NumberColon(v: nat, radix: nat, more: seq<byte>)
    requires 2 <= radix <= 16 && v < U64
    ensures var (n, rest) := UintRead(Some(UintText(v, radix) + ([COLON] + more)), radix);
            n == v && rest == Some([COLON] + more) && CharRead(rest, COLON) == Some(more)
  {
    hide UintText, Value, Span;
    var t, rest := UintText(v, radix), [COLON] + more;
    UintRoundTrip(v, radix, rest);
    assert (t + rest)[|t|..] == rest;
    assert rest[1..] == more;
  }

  /** Every access line is read back exactly, with nothing left over. */
  lemma AclRoundTrip(acl: Acl)
    requires AclOk(acl)
    ensures AclRead(AclText(acl)) == (Some([]), acl)
  {
    hide UintText, HashText, Value, Span, UintRead, DigestRead;
    var m := UintText(acl.mode, 8) + HashPart(acl);
    NumberColon(acl.uid, 10, UintText(acl.gid, 10) + ([COLON] + m));
    NumberColon(acl.gid, 10, m);
    if acl.xattrHash == [] {
      NumberEnd(acl.mode, 8);
      assert UintText(acl.mode, 8) + [] == UintText(acl.mode, 8);
    } else {
      var t := HashText(acl.xattrHash);
      NumberColon(acl.mode, 8, t);
      DigestRoundTrip(acl.xattrHash, []);
      assert t + [] == t;
    }
  }

  lemma NumberEnd(v: nat, radix: nat)
    requires 2 <= radix <= 16 && v < U64
    ensures UintRead(Some(UintText(v, radix)), radix) == (v, Some([]))
  {
    hide UintText, Value, Span;
    var t := UintText(v, radix);
    UintRoundTrip(v, radix, []);
    assert t + [] == t && t[|t|..] == [];
  }
}
