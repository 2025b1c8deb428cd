/**
 Bytes, little-endian integers and the power-of-two rounding shared by the
 store, the block framing and the package payloads.
 */
module Bytes {

  type byte = b: int | 0 <= b < 256

  datatype Option<+T> = None | Some(value: T)

  /** The bytes of an iovec: its segments one after another. */
  function Concat(segs: seq<seq<byte>>): (r: seq<byte>)
  {
    if segs == [] then [] else segs[0] + Concat(segs[1..])
  }

  lemma {:induction false} ConcatAppend(a: seq<seq<byte>>, b: seq<seq<byte>>)
    ensures Concat(a + b) == Concat(a) + Concat(b)
  {
    if a == [] {
      assert a + b == b;
    } else {
      assert (a + b)[0] == a[0] && (a + b)[1..] == a[1..] + b;
      ConcatAppend(a[1..], b);
    }
  }

  lemma ConcatOne(s: seq<byte>)
    ensures Concat([s]) == s
  {
    assert [s][1..] == [];
  }

  lemma ConcatTwo(s: seq<byte>, t: seq<byte>)
    ensures Concat([s, t]) == s + t
  {
    assert [s, t][1..] == [t];
    ConcatOne(t);
  }

  function Pow2(k: nat): (r: nat)
    ensures r > 0
  {
    if k == 0 then 1 else 2 * Pow2(k - 1)
  }

  function Pow256(k: nat): (r: nat)
    ensures r > 0
  {
    if k == 0 then 1 else 256 * Pow256(k - 1)
  }

  lemma Pow256Values()
    ensures Pow256(1) == 0x100 && Pow256(2) == 0x1_0000
    ensures Pow256(4) == 0x1_0000_0000 && Pow256(8) == 0x1_0000_0000_0000_0000
  {
    assert Pow256(1) == 0x100;
    assert Pow256(2) == 0x1_0000;
    assert Pow256(3) == 0x100_0000;
    assert Pow256(4) == 0x1_0000_0000;
    assert Pow256(5) == 0x100_0000_0000;
    assert Pow256(6) == 0x1_0000_0000_0000;
    assert Pow256(7) == 0x100_0000_0000_0000;
  }

  /** The low k bytes of n, least significant first (htole16/32/64). */
  function Le(n: nat, k: nat): (r: seq<byte>)
    ensures |r| == k
  {
    seq(k, i requires 0 <= i < k => n / Pow256(i) % 256)
  }

  lemma DivDiv(n: nat, p: nat)
    requires p > 0
    ensures n / (256 * p) == n / 256 / p
  {
    var q := n / 256 / p;
    var r := n / 256 - q * p;
    assert n == 256 * (q * p + r) + n % 256;
    assert n == q * (256 * p) + (256 * r + n % 256);
    assert 0 <= 256 * r + n % 256 < 256 * p;
    DivUnique(n, 256 * p, q, 256 * r + n % 256);
  }

  lemma {:induction false} MulMono(a: nat, b: nat, d: nat)
    ensures a < b ==> a * d + d <= b * d
    decreases b
  {
    if a < b {
      MulMono(a, b - 1, d);
      assert b * d == (b - 1) * d + d;
    }
  }

  lemma DivUnique(n: nat, d: nat, q: nat, r: nat)
    requires d > 0 && n == q * d + r && r < d
    ensures n / d == q
  {
    var q' := n / d;
    assert q' * d <= n < q' * d + d;
    MulMono(q', q, d);
    MulMono(q, q', d);
  }

  lemma LeStep(n: nat, k: nat)
    requires k > 0
    ensures Le(n, k) == [n % 256] + Le(n / 256, k - 1)
  {
    forall i | 0 < i < k
      ensures Le(n, k)[i] == Le(n / 256, k - 1)[i - 1]
    {
      DivDiv(n, Pow256(i - 1));
    }
  }

  function FromLe(s: seq<byte>): (r: nat)
  {
    if s == [] then 0 else s[0] + 256 * FromLe(s[1..])
  }

  lemma {:induction false} FromLeBound(s: seq<byte>)
    ensures FromLe(s) < Pow256(|s|)
  {
    if s != [] {
      FromLeBound(s[1..]);
    }
  }

  /** Writing an integer that fits and reading it back. */
  lemma {:induction false} LeRoundTrip(n: nat, k: nat)
    requires n < Pow256(k)
    ensures FromLe(Le(n, k)) == n
  {
    if k > 0 {
      LeRoundTrip(n / 256, k - 1);
      LeStep(n, k);
      assert Le(n, k)[1..] == Le(n / 256, k - 1);
    }
  }

  /** Reading bytes and writing them again: both directions hold, so the
      encoding is one to one. */
  lemma {:induction false} FromLeRoundTrip(s: seq<byte>)
    ensures Le(FromLe(s), |s|) == s
  {
    if s != [] {
      FromLeRoundTrip(s[1..]);
      LeStep(FromLe(s), |s|);
      assert FromLe(s) % 256 == s[0] && FromLe(s) / 256 == FromLe(s[1..]);
      assert s == [s[0]] + s[1..];
    }
  }

  predicate IsAlignment(a: nat) {
    a == 1 || a == 2 || a == 4 || a == 8
  }

  predicate Aligned(x: nat, a: nat)
    requires IsAlignment(a)
  {
    if a == 1 then true else if a == 2 then x % 2 == 0 else if a == 4 then x % 4 == 0 else x % 8 == 0
  }

  /** ROUND_UP for the alignments in use. */
  function RoundUp(x: nat, a: nat): (r: nat)
    requires IsAlignment(a)
    ensures Aligned(r, a) && x <= r < x + a
  {
    if a == 1 then x else if a == 2 then Next2(x) else if a == 4 then Next4(x) else Next8(x)
  }

  function Next2(x: nat): (r: nat)
    ensures r % 2 == 0 && x <= r < x + 2
  {
    (x + 1) / 2 * 2
  }

  function Next4(x: nat): (r: nat)
    ensures r % 4 == 0 && x <= r < x + 4
  {
    (x + 3) / 4 * 4
  }

  function Next8(x: nat): (r: nat)
    ensures r % 8 == 0 && x <= r < x + 8
  {
    (x + 7) / 8 * 8
  }

  /** A buffer whose size is a multiple of the alignment has room for the
      padding whenever it has room for the data: why `adb_w_raw` may clear the
      padding before it looks at the size of the buffer. */
  lemma PaddingFits(len: nat, a: nat, cap: nat)
    requires IsAlignment(a) && len <= cap && cap % 8 == 0
    ensures RoundUp(len, a) <= cap
  {
    var c := cap / 8;
    assert cap == 8 * c;
    if a == 2 {
      assert (len + 1) / 2 <= 4 * c;
    } else if a == 4 {
      assert (len + 3) / 4 <= 2 * c;
    } else if a == 8 {
      assert (len + 7) / 8 <= c;
    }
  }

  /** It has the room whatever the fill exactly when its size is a multiple of the alignment. */
  lemma PaddingFitsIff(a: nat, cap: nat)
    requires IsAlignment(a)
    ensures (forall len :: 0 <= len <= cap ==> RoundUp(len, a) <= cap) <==> Aligned(cap, a)
  {
    if Aligned(cap, a) {
      forall len | 0 <= len <= cap
        ensures RoundUp(len, a) <= cap
      {
        var c := cap / a;
        if a == 2 {
          assert (len + 1) / 2 <= c;
        } else if a == 4 {
          assert (len + 3) / 4 <= c;
        } else if a == 8 {
          assert (len + 7) / 8 <= c;
        }
      }
    } else {
      assert RoundUp(cap, a) > cap;
    }
  }

  function Zeroes(n: nat): (r: seq<byte>)
    ensures |r| == n && forall i :: 0 <= i < n ==> r[i] == 0
  {
    seq(n, _ => 0)
  }

  /** A part of a slice is a slice. */
  lemma SliceOfSlice(s: seq<byte>, lo: nat, hi: nat, i: nat, j: nat)
    requires lo <= hi <= |s| && i <= j <= hi - lo
    ensures s[lo..hi][i..j] == s[lo + i..lo + j]
  {
    var whole := s[lo..hi];
    var part := whole[i..j];
    forall k | 0 <= k < |part|
      ensures part[k] == s[lo + i..lo + j][k]
    {
      assert part[k] == whole[i + k] == s[lo + i + k];
    }
  }

  /** A part of a string is found where the string was found. */
  lemma PartFound(data: seq<byte>, o: nat, t: seq<byte>, i: nat, part: seq<byte>)
    requires o + |t| <= |data| && data[o..o + |t|] == t
    requires i + |part| <= |t| && t[i..i + |part|] == part
    ensures data[o + i..o + i + |part|] == part
  {
    SliceOfSlice(data, o, o + |t|, i, i + |part|);
  }

  lemma PartsOf(a: seq<byte>, b: seq<byte>)
    ensures (a + b)[0..|a|] == a && (a + b)[|a|..|a| + |b|] == b
  {
  }
}
