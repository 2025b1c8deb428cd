/**
 Buffered input: a sliding buffer over a source that hands out its bytes in
 pieces of any size, and sub-streams that borrow the buffer and give it back.
 */
module IoStream {
  import opened Bytes

  const ALIGN_SYNC: nat := 8

  const EOF_ERROR: int := -1
  const BUFFER_SIZE: int := -2
  const ABORTED: int := -3

  function Min(a: nat, b: nat): nat { if a < b then a else b }

  /** The foreign end: what is read, and for each call how much it is willing to hand
      out, or the error it fails with. */
  class Source {
    const bytes: seq<byte>
    const plan: nat -> int
    var pos: nat
    var calls: nat

    constructor (bytes: seq<byte>, plan: nat -> int)
      ensures Valid() && pos == 0 && this.bytes == bytes && this.plan == plan
    {
      this.bytes, this.plan := bytes, plan;
      pos, calls := 0, 0;
    }

    ghost predicate Valid()
      reads this
    {
      pos <= |bytes|
    }

    ghost predicate Reliable() { forall n :: plan(n) >= 0 }

    /** Reads at least one byte, unless the end is reached or the source fails. */
    method Read(dst: array<byte>, at: nat, size: nat) returns (r: int)
      requires Valid() && at + size <= dst.Length && 0 < size
      modifies this, dst
      ensures Valid() && r <= size
      ensures r < 0 ==> !Reliable()
      ensures r <= 0 ==> pos == old(pos) && dst[..] == old(dst[..])
      ensures r == 0 ==> pos == |bytes|
      ensures r > 0 ==> pos == old(pos) + r && dst[at..at + r] == bytes[old(pos)..pos]
      ensures forall i :: 0 <= i < dst.Length && !(at <= i < at + r) ==> dst[i] == old(dst[i])
    {
      var n := plan(calls);
      calls := calls + 1;
      if n < 0 {
        return n;
      }
      r := Min(Min(if n == 0 then 1 else n, size), |bytes| - pos);
      var i := 0;
      while i < r
        modifies dst
        invariant 0 <= i <= r
        invariant dst[at..at + i] == bytes[pos..pos + i]
        invariant forall k :: 0 <= k < dst.Length && !(at <= k < at + i) ==> dst[k] == old(dst[k])
      {
        dst[at + i] := bytes[pos + i];
        i := i + 1;
      }
      pos := pos + r;
    }
  }

  /** Moves part of an array towards its front. */
  method Move(a: array<byte>, to: nat, from: nat, len: nat)
    requires to <= from && from + len <= a.Length
    modifies a
    ensures a[to..to + len] == old(a[from..from + len])
    ensures forall i :: 0 <= i < a.Length && !(to <= i < to + len) ==> a[i] == old(a[i])
  {
    ghost var was := a[..];
    var i := 0;
    while i < len
      invariant 0 <= i <= len
      invariant a[to..to + i] == was[from..from + i]
      invariant forall k :: 0 <= k < a.Length && !(to <= k < to + i) ==> a[k] == was[k]
    {
      a[to + i] := a[from + i];
      i := i + 1;
    }
  }

  /** Equal modulo the eight-byte alignment. */
  predicate Sync(a: int, b: int) { a % ALIGN_SYNC == b % ALIGN_SYNC }

  lemma SyncReduced(a: int, b: int)
    ensures Sync(a % ALIGN_SYNC, b) == Sync(a, b)
  {
  }

  lemma SameRest(x: int, y: int, q: int)
    requires x == y + 8 * q
    ensures Sync(x, y)
  {
  }

  lemma Apart(a: int, b: int)
    requires Sync(a, b)
    ensures a == b + 8 * (a / 8 - b / 8)
  {
  }

  lemma SyncMoved(a: int, b: int, n: int)
    requires Sync(a, b)
    ensures Sync(a + n, b + n) && Sync((a + n) % 256, b + n)
  {
    hide Sync;
    var q, k := a / 8 - b / 8, (a + n) / 256;
    Apart(a, b);
    SameRest(a + n, b + n, q);
    SameRest((a + n) % 256, b + n, q - 32 * k);
  }

  class Stream {
    const src: Source
    const buf: array<byte>
    // A sub-stream hands on to its parent's source, within its own length.
    const segment: bool

    var ptr: nat
    var end: nat
    // Negative: failed; positive: end seen.
    var err: int
    // Pointers given away to an open sub-stream.
    var parked: bool
    // Of a sub-stream: bytes not yet taken from the source, and the source position
    // modulo 256.
    var bytesLeft: nat
    var align: nat
    // Where in the source the buffered bytes end.
    ghost var mark: nat

    ghost function Held(): int
      reads this
    {
      end - ptr
    }

    /** Offset in the source of the next byte to deliver. */
    ghost function Offset(): int
      reads this, src
    {
      mark - (end - ptr)
    }

    /** Nothing has been read from the source behind the buffered bytes, except by the
        parent of a sub-stream that will not read any more. */
    ghost predicate Marked()
      reads this, src
    {
      src.Valid() && (mark == src.pos || (segment && bytesLeft == 0 && mark <= src.pos))
    }

    ghost predicate AtLimit()
      reads this, src
    {
      if segment then bytesLeft == 0 else mark == |src.bytes|
    }

    /** The buffered position agrees with the offset modulo eight, until the end has
        been reached and nothing is left. */
    ghost predicate Aligned()
      reads this, src
    {
      Sync(ptr, Offset()) || (ptr == end && ((err != 0 && AtLimit()) || mark == |src.bytes|))
    }

    ghost predicate Valid()
      reads this, src, buf
    {
      && Marked() && !parked && ALIGN_SYNC <= buf.Length
      && ptr <= end <= buf.Length && end - ptr <= mark
      && buf[ptr..end] == src.bytes[mark - (end - ptr)..mark]
      && Aligned()
      && (err > 0 ==> AtLimit())
    }

    /** The source does not fail, and is long enough for a sub-stream. */
    ghost predicate Sound()
      reads this, src
    {
      src.Reliable() && (segment ==> mark + bytesLeft <= |src.bytes|)
    }

    /** What every operation keeps: order, the length of a sub-stream, a failed state,
        and, if nothing was taken from the source, all of the buffer behind the end. */
    twostate predicate Steps()
      reads this, src, buf
    {
      && Valid() && old(mark) <= mark && old(Offset()) <= Offset() && src.pos - mark == old(src.pos - mark)
      && (segment ==> mark + bytesLeft == old(mark + bytesLeft))
      && (segment && old(Sync(align, mark)) ==> Sync(align, mark))
      && (mark == old(mark) ==>
            end <= old(end) && forall i :: old(end) <= i < buf.Length ==> buf[i] == old(buf[i]))
      && (old(err) != 0 ==> err != 0)
      && (old(err) < 0 ==> err == old(err))
    }

    constructor (src: Source, bufSize: nat)
      requires src.Valid() && src.pos == 0 && ALIGN_SYNC <= bufSize
      ensures Valid() && fresh(buf) && buf.Length == bufSize && this.src == src
      ensures Offset() == 0 && err == 0 && !segment
    {
      this.src, segment := src, false;
      buf := new byte[bufSize];
      ptr, end, err, parked, bytesLeft, align, mark := 0, 0, 0, false, 0, 0, 0;
    }

    /** apk_istream_error: the first failure sticks. */
    method Fail(e: int) returns (r: int)
      modifies this`err
      ensures err == if old(err) >= 0 && e != 0 then e else old(err)
      ensures r == if err < 0 then err else 0
    {
      if err >= 0 && e != 0 {
        err := e;
      }
      r := if err < 0 then err else 0;
    }

    /** The read operation behind the stream: straight from the source, or through a
        sub-stream, which stops at its length and fails if the source is too short. */
    method RawRead(dst: array<byte>, at: nat, size: nat) returns (r: int)
      requires Marked() && at + size <= dst.Length && 0 < size
      modifies src, dst, this`bytesLeft, this`align, this`mark
      ensures Marked() && r <= size && src.pos - mark == old(src.pos - mark)
      ensures old(Sound()) ==> r >= 0
      ensures segment && old(bytesLeft > 0 && src.Reliable() && src.pos == |src.bytes|) ==> r == ABORTED
      ensures r <= 0 ==> mark == old(mark)
      ensures r == 0 ==> AtLimit()
      ensures r > 0 ==> mark == old(mark) + r && dst[at..at + r] == src.bytes[old(mark)..mark]
      ensures segment ==> mark + bytesLeft == old(mark + bytesLeft)
      ensures segment && old(Sync(align, mark)) ==> Sync(align, mark)
      ensures forall i :: 0 <= i < dst.Length && !(at <= i < at + r) ==> dst[i] == old(dst[i])
    {
      hide Sync;
      if !segment {
        r := src.Read(dst, at, size);
        mark := src.pos;
        return;
      }
      var cap := Min(size, bytesLeft);
      if cap == 0 {
        return 0;
      }
      r := src.Read(dst, at, cap);
      if r == 0 {
        r := ABORTED;
      } else if r > 0 {
        if Sync(align, old(mark)) {
          SyncMoved(align, old(mark), r);
        }
        bytesLeft, mark := bytesLeft - r, src.pos;
        align := (align + r) % 256;
      }
    }

    /** Moves the buffered bytes to the front, keeping their alignment. */
    method MakeRoom() returns (ok: bool)
      requires Valid()
      modifies this`ptr, this`end, buf
      ensures Valid() && Held() == old(Held()) && end <= old(end)
      ensures old(Sync(ptr, Offset())) ==> Sync(ptr, Offset())
      ensures forall i :: old(end) <= i < buf.Length ==> buf[i] == old(buf[i])
      ensures ptr < ALIGN_SYNC && ok == (end < buf.Length)
    {
      hide Sync;
      if ptr >= ALIGN_SYNC {
        var used, to := end - ptr, ptr % ALIGN_SYNC;
        SyncReduced(ptr, Offset());
        Move(buf, to, ptr, used);
        ptr, end := to, to + used;
      } else if end == buf.Length {
        return false;
      }
      ok := true;
    }

    /** Reads once behind the buffered bytes. */
    method ReadMore() returns (r: int)
      requires Valid() && err == 0 && end < buf.Length
      modifies this`end, this`err, this`bytesLeft, this`align, this`mark, src, buf
      ensures Steps() && Offset() == old(Offset())
      ensures r == 0 ==> err >= 0 && if err == 0 then Held() > old(Held()) else Held() == old(Held())
      ensures r != 0 ==> r == err < 0 && Held() == old(Held())
      ensures err > 0 ==> end < buf.Length
      ensures old(Sound()) ==> err >= 0
    {
      hide Sync;
      ghost var held := buf[ptr..end];
      ghost var from, o := mark, mark - (end - ptr);
      var sz := RawRead(buf, end, buf.Length - end);
      assert buf[ptr..end] == held;
      if sz <= 0 {
        r := Fail(if sz == 0 then 1 else sz);
        return;
      }
      ghost var mid := end;
      end := end + sz;
      Joined(buf[..], ptr, mid, end, src.bytes, o, from, mark);
      r := 0;
    }

    /** Makes room and reads once; the call that meets the end still returns 0. */
    method Fill() returns (r: int)
      requires Valid()
      modifies this`ptr, this`end, this`err, this`bytesLeft, this`align, this`mark, src, buf
      ensures Steps() && Offset() == old(Offset())
      ensures r == 0 ==> old(err) == 0 && err >= 0
      ensures r == 0 ==> if err == 0 then Held() > old(Held()) else Held() == old(Held())
      ensures r > 0 ==> r == err && old(err) > 0 && Held() == old(Held())
      ensures r < 0 ==> Held() == old(Held())
      ensures r < 0 ==> (r == err < 0) || (r == BUFFER_SIZE && err == 0 && ptr < ALIGN_SYNC && end == buf.Length)
      ensures old(err) != 0 ==> err == old(err) && r == err && ptr == old(ptr)
      ensures old(err) == 0 ==> ptr < ALIGN_SYNC && (err > 0 ==> end < buf.Length)
      ensures old(Sync(ptr, Offset())) ==> Sync(ptr, Offset())
      ensures old(Sound()) && old(err) >= 0 ==> err >= 0
    {
      hide Sync;
      if err != 0 {
        return err;
      }
      var ok := MakeRoom();
      if !ok {
        return BUFFER_SIZE;
      }
      r := ReadMore();
    }

    // ---- Operations on buffered bytes ---------------------------------------------------------

    /** Takes n buffered bytes. */
    method Take(n: nat) returns (data: seq<byte>)
      requires Valid() && n <= end - ptr
      modifies this`ptr
      ensures Steps() && end == old(end) && err == old(err)
      ensures Offset() == old(Offset()) + n && data == src.bytes[old(Offset())..Offset()] && |data| == n
    {
      hide Sync;
      if Sync(ptr, Offset()) {
        SyncMoved(ptr, Offset(), n);
      }
      data := buf[ptr..ptr + n];
      PartOfHeld(buf[..], ptr, end, src.bytes, mark, n);
      ptr := ptr + n;
    }

    /** Looks at the next len bytes. */
    method Peek(len: nat) returns (r: int, data: seq<byte>)
      requires Valid()
      modifies this`ptr, this`end, this`err, this`bytesLeft, this`align, this`mark, src, buf
      ensures Steps() && Offset() == old(Offset())
      ensures r == 0 ==> err >= 0 && len <= end - ptr && data == src.bytes[Offset()..Offset() + len]
      ensures r != 0 ==> r < 0 && data == []
      ensures r != 0 ==> (r == err) || (r == EOF_ERROR && err > 0 && end - ptr < len) || (r == BUFFER_SIZE && Full(len))
      ensures old(Sound()) && old(err) >= 0 ==> err >= 0
    {
      hide Sync;
      if err < 0 {
        return err, [];
      }
      while true
        invariant Steps() && Offset() == old(Offset()) && err >= 0
        invariant old(Sound()) ==> Sound()
        decreases if err == 0 then 1 else 0, |src.bytes| - mark
      {
        if end - ptr >= len {
          PartOfHeld(buf[..], ptr, end, src.bytes, mark, len);
          return 0, buf[ptr..ptr + len];
        }
        r := Fill();
        if r != 0 {
          return if r > 0 then EOF_ERROR else r, [];
        }
      }
    }

    /** Too much to hold: the buffer is full with less. */
    ghost predicate Full(len: nat)
      reads this
    {
      ptr < ALIGN_SYNC && end == buf.Length && buf.Length - ptr < len
    }

    method Get(len: nat) returns (r: int, data: seq<byte>)
      requires Valid()
      modifies this`ptr, this`end, this`err, this`bytesLeft, this`align, this`mark, src, buf
      ensures Steps()
      ensures r == 0 ==> Offset() == old(Offset()) + len && data == src.bytes[old(Offset())..Offset()]
      ensures r != 0 ==> r == err < 0 && Offset() == old(Offset())
    {
      hide Sync;
      r, data := Peek(len);
      if r == 0 {
        data := Take(len);
      } else {
        r := Fail(r);
      }
    }

    /** Whatever is there, at most max bytes; at least one unless the end is reached. */
    method GetMax(max: nat) returns (r: int, data: seq<byte>)
      requires Valid()
      modifies this`ptr, this`end, this`err, this`bytesLeft, this`align, this`mark, src, buf
      ensures Steps()
      ensures r == 0 ==> Offset() == old(Offset()) + |data| && data == src.bytes[old(Offset())..Offset()] && |data| <= max
      ensures r == 0 && max > 0 ==> |data| > 0
      ensures r != 0 ==> r < 0 && Offset() == old(Offset()) && (r == err || (r == EOF_ERROR && err > 0 && ptr == end))
      ensures old(Sound()) && old(err) >= 0 ==> err >= 0
    {
      hide Sync;
      if ptr == end {
        var f := Fill();
      }
      if ptr != end {
        data := Take(Min(end - ptr, max));
        return 0, data;
      }
      r, data := if err < 0 then err else EOF_ERROR, [];
    }

    /** Skips size bytes, piece by piece. */
    method Skip(size: nat) returns (r: int)
      requires Valid()
      modifies this`ptr, this`end, this`err, this`bytesLeft, this`align, this`mark, src, buf
      ensures Steps()
      ensures r >= 0 ==> r == size && Offset() == old(Offset()) + size
      ensures r < 0 ==> Offset() < old(Offset()) + size && (r == err || (r == EOF_ERROR && err > 0 && ptr == end))
      ensures old(Sound()) && old(err) >= 0 ==> err >= 0
    {
      hide Sync;
      var done := 0;
      while done < size
        invariant Steps() && done <= size && Offset() == old(Offset()) + done
        invariant old(Sound()) ==> Sound()
        invariant old(Sound()) && old(err) >= 0 ==> err >= 0
      {
        var d;
        r, d := GetMax(size - done);
        if r < 0 {
          return;
        }
        done := done + |d|;
      }
      r := done;
    }

    // ---- Reading into memory ---------------------------------------------------------------------

    /** Copies buffered bytes out. */
    method CopyHeld(dst: array<byte>, at: nat, n: nat)
      requires Valid() && dst != buf && n <= end - ptr && at + n <= dst.Length
      modifies this`ptr, dst
      ensures Steps() && end == old(end) && err == old(err) && Offset() == old(Offset()) + n
      ensures dst[at..at + n] == src.bytes[old(Offset())..Offset()] && dst[..at] == old(dst[..at])
    {
      hide Sync;
      var data := Take(n);
      var i := 0;
      while i < n
        modifies dst
        invariant 0 <= i <= n && dst[at..at + i] == data[..i] && dst[..at] == old(dst[..at])
      {
        dst[at + i] := data[i];
        i := i + 1;
      }
    }

    /** A large piece goes straight to its destination. */
    method ReadPast(dst: array<byte>, at: nat, n: nat) returns (r: int)
      requires Valid() && dst != buf && ptr == end && err == 0 && at + n <= dst.Length && 0 < n
      modifies this`ptr, this`end, this`bytesLeft, this`align, this`mark, src, dst
      ensures Steps() && ptr == end && r <= n
      ensures r > 0 ==> Offset() == old(Offset()) + r && dst[at..at + r] == src.bytes[old(Offset())..Offset()]
      ensures r <= 0 ==> Offset() == old(Offset()) && (r == 0 ==> AtLimit())
      ensures dst[..at] == old(dst[..at])
      ensures old(Sound()) ==> r >= 0
    {
      hide Sync;
      r := RawRead(dst, at, n);
      if r > 0 {
        PastAligned(ptr, old(mark), r);
        ptr, end := (ptr + r) % ALIGN_SYNC, (ptr + r) % ALIGN_SYNC;
      }
      assert buf[ptr..end] == [];
    }

    /** An empty buffer is refilled from its front. */
    method Refill() returns (r: int)
      requires Valid() && ptr == end && err == 0
      modifies this`ptr, this`end, this`bytesLeft, this`align, this`mark, src, buf
      ensures Steps() && Offset() == old(Offset())
      ensures r > 0 ==> ptr < end
      ensures r <= 0 ==> ptr == end && (r == 0 ==> AtLimit())
      ensures old(Sound()) ==> r >= 0
    {
      hide Sync;
      SyncReduced(ptr, Offset());
      ptr, end := ptr % ALIGN_SYNC, ptr % ALIGN_SYNC;
      r := RawRead(buf, ptr, buf.Length - ptr);
      if r > 0 {
        end := ptr + r;
      } else {
        assert buf[ptr..end] == [];
      }
    }

    /** One round of the reading loop: copies from the buffer, reads past it, or refills
        it; stops when nothing came. */
    method ReadRound(dst: array<byte>, at: nat, left: nat) returns (r: int, moved: nat)
      requires Valid() && dst != buf && at + left <= dst.Length && 0 < left && err >= 0
      modifies this`ptr, this`end, this`bytesLeft, this`align, this`mark, src, buf, dst
      ensures Steps() && moved <= left && Offset() == old(Offset()) + moved
      ensures dst[at..at + moved] == src.bytes[old(Offset())..Offset()] && dst[..at] == old(dst[..at])
      ensures r > 0 ==> moved > 0 || (mark > old(mark))
      ensures r <= 0 ==> moved == 0 && (r == 0 ==> ptr == end && AtLimit())
      ensures old(Sound()) ==> r >= 0
    {
      hide Sync;
      if ptr != end {
        moved := Min(left, end - ptr);
        CopyHeld(dst, at, moved);
        return moved, moved;
      }
      if err != 0 {
        return 0, 0;
      }
      if left > buf.Length / 4 {
        r := ReadPast(dst, at, left);
        return r, if r > 0 then r else 0;
      }
      r := Refill();
      moved := 0;
    }

    /** The reading loop: how much was read, and the last answer of the source. */
    method ReadLoop(dst: array<byte>, size: nat) returns (done: nat, r: int)
      requires Valid() && dst != buf && size <= dst.Length && err >= 0
      modifies this`ptr, this`end, this`bytesLeft, this`align, this`mark, src, buf, dst
      ensures Steps() && done <= size && Offset() == old(Offset()) + done
      ensures dst[..done] == src.bytes[old(Offset())..Offset()]
      ensures done < size ==> r <= 0
      ensures r == 0 ==> ptr == end && AtLimit()
      ensures old(Sound()) ==> r >= 0
    {
      hide Sync, Aligned;
      done, r := 0, 1;
      ghost var o := Offset();
      while done < size && r > 0
        invariant Steps() && done <= size
        invariant Offset() == o + done && dst[..done] == src.bytes[o..o + done]
        invariant r == 0 ==> ptr == end && AtLimit()
        invariant old(Sound()) ==> Sound() && r >= 0
        decreases r > 0, |src.bytes| - Offset(), |src.bytes| - mark
      {
        var moved;
        r, moved := ReadRound(dst, done, size - done);
        Appended(dst[..], done, moved, src.bytes, o);
        done := done + moved;
      }
    }

    /** Reads size bytes, or up to the end. */
    method ReadMax(dst: array<byte>, size: nat) returns (n: int)
      requires Valid() && dst != buf && size <= dst.Length
      modifies this`ptr, this`end, this`err, this`bytesLeft, this`align, this`mark, src, buf, dst
      ensures Steps()
      ensures n >= 0 ==> n <= size && Offset() == old(Offset()) + n && dst[..n] == src.bytes[old(Offset())..Offset()]
      ensures 0 <= n < size ==> ptr == end && AtLimit()
      ensures n == 0 < size ==> err > 0
      ensures n < 0 ==> n == err
      ensures old(Sound()) && old(err) >= 0 ==> n >= 0
    {
      hide Sync;
      if err < 0 {
        return err;
      }
      var done, r := ReadLoop(dst, size);
      if r < 0 {
        n := Fail(r);
      } else if done == 0 {
        n := Fail(if size != 0 && err == 0 then 1 else 0);
      } else {
        n := done;
      }
    }

    // ---- Splitting at a delimiter -------------------------------------------------------------------

    /** End of what the stream can still deliver. */
    ghost function Limit(): int
      reads this, src
    {
      if segment then mark + bytesLeft else |src.bytes|
    }

    /** Fills until the token is in the buffer: its place, or why it is not. */
    method Seek(token: seq<byte>) returns (r: int, k: int)
      requires Valid() && token != []
      modifies this`ptr, this`end, this`err, this`bytesLeft, this`align, this`mark, src, buf
      ensures Steps() && Offset() == old(Offset())
      ensures old(Sync(ptr, Offset())) ==> Sync(ptr, Offset())
      ensures k == Find(buf[ptr..end], token, 0)
      ensures r == 0 ==> k >= 0 && err == old(err)
      ensures r != 0 ==> k == -1 && r != 0
      ensures r > 0 ==> err > 0 && (old(err) == 0 ==> ptr < ALIGN_SYNC && end < buf.Length)
      ensures r < 0 ==> r == err || (r == BUFFER_SIZE && err == 0 && ptr < ALIGN_SYNC && end == buf.Length)
      ensures old(Sound()) && old(err) == 0 ==> err >= 0
      ensures old(err) > 0 ==> err == old(err) && mark == old(mark)
    {
      hide Sync, Find;
      k := Find(buf[ptr..end], token, 0);
      r := 0;
      while k < 0 && r == 0
        invariant Steps() && Offset() == old(Offset())
        invariant old(Sync(ptr, Offset())) ==> Sync(ptr, Offset())
        invariant k == Find(buf[ptr..end], token, 0)
        invariant k >= 0 ==> r == 0 && err == old(err)
        invariant err == old(err) || (old(err) == 0 && (err > 0 ==> ptr < ALIGN_SYNC && end < buf.Length))
        invariant r > 0 ==> err > 0
        invariant r < 0 ==> r == err || (r == BUFFER_SIZE && err == 0 && ptr < ALIGN_SYNC && end == buf.Length)
        invariant old(Sound()) ==> Sound() && (old(err) == 0 ==> err >= 0)
        decreases k < 0 && r == 0, if err == 0 then 1 else 0, |src.bytes| - mark
      {
        FindRange(buf[ptr..end], token);
        r := Fill();
        k := Find(buf[ptr..end], token, 0);
      }
      FindRange(buf[ptr..end], token);
    }

    /** The stream has moved past the next piece, as the cut says. */
    ghost predicate Cutoff(cut: Cutting, r: int, data: seq<byte>, token: seq<byte>, from: int, limit: int, was: int)
      reads this, src
    {
      match cut
      case Piece(d) => r == 0 && data == d && Offset() == from + |d| + |token| && err == was
      case Last(d) => r == 0 && data == d && Offset() == limit && err > 0 && ptr == end
      case TooLong => r == err == BUFFER_SIZE
    }

    /** What a search through the buffer has found decides the cut. */
    ghost predicate Decides(cut: Cutting, q: int, k: int, limit: int)
      reads this, src
    {
      && 0 <= Offset() <= mark <= |src.bytes| && -1 <= k <= mark - Offset()
      && (q == 0 ==> k >= 0 && cut == Piece(src.bytes[Offset()..Offset() + k]))
      && (q > 0 ==> mark == limit && cut == Last(src.bytes[Offset()..mark]))
      && (q < 0 ==> q == BUFFER_SIZE && cut == TooLong)
    }

    /** Takes a piece and the delimiter behind it. */
    method TakePiece(k: nat, token: seq<byte>) returns (data: seq<byte>)
      requires Valid() && k + |token| <= end - ptr && buf[ptr..end][k..k + |token|] == token
      modifies this`ptr
      ensures Steps() && end == old(end) && err == old(err)
      ensures data == src.bytes[old(Offset())..old(Offset()) + k] && |data| == k
      ensures Offset() == old(Offset()) + k + |token|
      ensures src.bytes[old(Offset())..Offset()] == data + token
    {
      hide Sync;
      ghost var o := Offset();
      TwoTaken(src.bytes, o, k, |token|, mark);
      data := Take(k);
      var t := Take(|token|);
    }

    /** Takes all that is held and leaves the buffer at its start. */
    method TakeRest() returns (data: seq<byte>)
      requires Valid() && err > 0
      modifies this`ptr, this`end
      ensures Steps() && err == old(err) && ptr == end
      ensures data == src.bytes[old(Offset())..Offset()] && Offset() == mark
    {
      hide Sync;
      data := Take(end - ptr);
      ptr, end := 0, 0;
      assert buf[ptr..end] == [];
    }

    /** The next piece up to a delimiter, or all that is left. */
    method GetDelim(token: seq<byte>) returns (r: int, data: seq<byte>)
      requires Valid() && token != []
      modifies this`ptr, this`end, this`err, this`bytesLeft, this`align, this`mark, src, buf
      ensures Steps()
      ensures r == 0 ==>
                || src.bytes[old(Offset())..Offset()] == data + token
                || (src.bytes[old(Offset())..Offset()] == data && ptr == end && err > 0 && AtLimit())
      ensures r != 0 ==> r < 0 && (r == err || (r == EOF_ERROR && err > 0 && ptr == end && Offset() == old(Offset())))
      ensures old(err > 0 && ptr == end) ==> r == EOF_ERROR
      ensures old(Sound() && err == 0) ==>
                var rest := src.bytes[old(Offset())..old(Limit())];
                Cutoff(Cut(rest, token, buf.Length - old(Offset()) % ALIGN_SYNC), r, data, token, old(Offset()), old(Limit()), 0)
      ensures old(err > 0 && ptr < end) ==>
                var rest := src.bytes[old(Offset())..old(mark)];
                Cutoff(Cut(rest, token, |rest| + 1), r, data, token, old(Offset()), old(mark), old(err))
    {
      hide Sync, Find, Cut, Cutoff, Decides;
      if err != 0 && ptr == end {
        return if err < 0 then err else EOF_ERROR, [];
      }
      ghost var limit := if err == 0 then Limit() else mark;
      ghost var cut := TooLong;
      var q, k := Seek(token);
      if old(Sound() && err == 0) {
        cut := Cut(src.bytes[Offset()..limit], token, buf.Length - Offset() % ALIGN_SYNC);
        Decide(q, k, token, limit);
      } else if old(err > 0) {
        cut := Cut(src.bytes[Offset()..limit], token, limit - Offset() + 1);
        DecideSeen(q, k, token, limit);
      }
      r, data := Deliver(q, k, token, cut, limit, old(err));
    }

    /** While the end has not been seen, the buffer decides as its size allows. */
    lemma Decide(q: int, k: int, token: seq<byte>, limit: int)
      requires Valid() && token != [] && k == Find(buf[ptr..end], token, 0) && (q == 0 <==> k >= 0)
      requires mark <= limit <= |src.bytes| && limit == Limit()
      requires q > 0 ==> err > 0 && ptr < ALIGN_SYNC && end < buf.Length
      requires q < 0 ==> q == BUFFER_SIZE && ptr < ALIGN_SYNC && end == buf.Length
      requires Sync(ptr, Offset()) || (ptr == end && mark == |src.bytes|)
      ensures Decides(Cut(src.bytes[Offset()..limit], token, buf.Length - Offset() % ALIGN_SYNC), q, k, limit)
    {
      hide Sync, Find, Cut;
      FindRange(buf[ptr..end], token);
      CutDecided(src.bytes, Offset(), mark, limit, token, ptr, end, buf.Length);
      assert k >= 0 ==> src.bytes[Offset()..mark][..k] == src.bytes[Offset()..Offset() + k];
    }

    /** Once it has been seen, all there is lies in the buffer. */
    lemma DecideSeen(q: int, k: int, token: seq<byte>, limit: int)
      requires Valid() && token != [] && k == Find(buf[ptr..end], token, 0) && (q == 0 <==> k >= 0) && q >= 0
      requires mark == limit
      ensures Decides(Cut(src.bytes[Offset()..limit], token, limit - Offset() + 1), q, k, limit)
    {
      hide Sync, Find;
      FindRange(buf[ptr..end], token);
      assert k >= 0 ==> src.bytes[Offset()..mark][..k] == src.bytes[Offset()..Offset() + k];
    }

    /** Hands out what Seek has found. */
    method Deliver(q: int, k: int, token: seq<byte>, ghost cut: Cutting, ghost limit: int, ghost was: int) returns (r: int, data: seq<byte>)
      requires Valid() && k == Find(buf[ptr..end], token, 0) && (q == 0 <==> k >= 0) && (q == 0 ==> was == err)
      requires q > 0 ==> err > 0
      requires q < 0 ==> q == err || (q == BUFFER_SIZE && err == 0)
      modifies this`ptr, this`end, this`err
      ensures Steps()
      ensures q == 0 ==>
                && r == 0 && err == old(err) && data == src.bytes[old(Offset())..old(Offset()) + k] && |data| == k
                && Offset() == old(Offset()) + k + |token| && src.bytes[old(Offset())..Offset()] == data + token
      ensures q > 0 ==>
                && r == 0 && err == old(err) && data == src.bytes[old(Offset())..mark]
                && Offset() == mark && ptr == end
      ensures q < 0 ==> r < 0 && r == err && Offset() == old(Offset()) && data == []
      ensures old(Decides(cut, q, k, limit)) ==> Cutoff(cut, r, data, token, old(Offset()), limit, was)
    {
      hide Sync, Find;
      FindRange(buf[ptr..end], token);
      if q == 0 {
        data := TakePiece(k, token);
        return 0, data;
      }
      if q < 0 {
        r := Fail(q);
        return r, [];
      }
      data := TakeRest();
      r := 0;
    }

    /** All pieces up to the end of the stream. If the end has been seen before, the buffer has all
        that is left, and an empty piece at the end is not delivered. */
    method SplitAll(token: seq<byte>) returns (r: int, pieces: seq<seq<byte>>)
      requires Valid() && token != [] && Sound() && err >= 0
      modifies this`ptr, this`end, this`err, this`bytesLeft, this`align, this`mark, src, buf
      ensures var rest := src.bytes[old(Offset())..old(Limit())];
              if old(err) > 0 then r == EOF_ERROR && pieces == Closed(SplitOf(rest, token))
              else if Fits(rest, token, old(Offset()), buf.Length) then r == EOF_ERROR && pieces == SplitOf(rest, token)
              else r == BUFFER_SIZE
    {
      hide Sync, Find, Cut, Aligned, SplitOf, Fits;
      if err > 0 {
        r, pieces := SplitSeen(token);
        return;
      }
      pieces := [];
      ghost var limit, o := Limit(), Offset();
      ghost var rest := src.bytes[o..limit];
      ghost var all, fits := SplitOf(rest, token), Fits(rest, token, o, buf.Length);
      assert pieces + all == all;
      while true
        invariant Valid() && Sound() && err == 0
        invariant o == Offset() && limit == Limit() && rest == src.bytes[o..limit]
        invariant fits == Fits(rest, token, o, buf.Length)
        invariant pieces + SplitOf(rest, token) == all
        decreases |rest|
      {
        var data;
        r, data := GetDelim(token);
        Unfold(rest, token, o, buf.Length);
        if r < 0 {
          return;
        }
        pieces := pieces + [data];
        if err != 0 {
          assert pieces == all;
          r, data := GetDelim(token);
          return;
        }
        ghost var next := |data| + |token|;
        assert rest[next..] == src.bytes[o + next..limit];
        assert pieces + SplitOf(rest[next..], token) == all;
        rest, o := rest[next..], o + next;
      }
    }

    method SplitSeen(token: seq<byte>) returns (r: int, pieces: seq<seq<byte>>)
      requires Valid() && token != [] && err > 0
      modifies this`ptr, this`end, this`err, this`bytesLeft, this`align, this`mark, src, buf
      ensures r == EOF_ERROR && pieces == Closed(SplitOf(src.bytes[old(Offset())..old(mark)], token))
    {
      hide Sync, Find, Cut, Aligned, SplitOf, Closed, Fits;
      pieces := [];
      ghost var limit, o := mark, Offset();
      ghost var rest := src.bytes[o..limit];
      ghost var all := Closed(SplitOf(rest, token));
      assert pieces + all == all;
      while true
        invariant Valid() && err > 0 && o == Offset() && limit == mark && rest == src.bytes[o..limit]
        invariant pieces + Closed(SplitOf(rest, token)) == all
        decreases |rest|
      {
        var data;
        UnfoldSeen(rest, token);
        assert |rest| == end - ptr;
        r, data := GetDelim(token);
        if r < 0 {
          assert rest == [] && pieces + [] == pieces;
          return;
        }
        pieces := pieces + [data];
        ghost var next := Offset() - o;
        assert rest[next..] == src.bytes[o + next..limit];
        assert Closed(SplitOf(rest, token)) == [data] + Closed(SplitOf(rest[next..], token));
        rest, o := rest[next..], Offset();
      }
    }

    // ---- Any interleaving ---------------------------------------------------------------------------

    /** Runs one operation; taken is what the stream has moved past. */
    method Apply(op: Op) returns (r: int, data: seq<byte>, ghost taken: seq<byte>)
      requires Valid() && (op.DelimOp? ==> op.token != [])
      modifies this`ptr, this`end, this`err, this`bytesLeft, this`align, this`mark, src, buf
      ensures Steps()
      ensures r >= 0 ==> taken == src.bytes[old(Offset())..Offset()] && Shows(op, data, taken, src.bytes[old(Offset())..])
    {
      hide Sync, Find, Cut;
      match op
      case PeekOp(n) =>
        r, data := Peek(n);
        taken := [];
      case GetOp(n) =>
        r, data := Get(n);
        taken := data;
      case GetMaxOp(n) =>
        r, data := GetMax(n);
        taken := data;
      case DelimOp(token) =>
        r, data := GetDelim(token);
        taken := if r >= 0 then src.bytes[old(Offset())..Offset()] else [];
      case ReadOp(n) =>
        var dst := new byte[n];
        r := ReadMax(dst, n);
        data := if r >= 0 then dst[..r] else [];
        taken := data;
      case SkipOp(n) =>
        r := Skip(n);
        data := [];
        taken := if r >= 0 then src.bytes[old(Offset())..Offset()] else [];
    }

    /** Runs any list of operations up to the first failure: what was taken, put together,
        is exactly the stretch of the source the stream has moved past. */
    method Drive(ops: seq<Op>) returns (r: int, shown: seq<seq<byte>>, ghost takens: seq<seq<byte>>)
      requires Valid() && forall i :: 0 <= i < |ops| && ops[i].DelimOp? ==> ops[i].token != []
      modifies this`ptr, this`end, this`err, this`bytesLeft, this`align, this`mark, src, buf
      ensures Steps()
      ensures |takens| == |shown| <= |ops| && (r >= 0 ==> |shown| == |ops|)
      ensures r >= 0 ==> Concat(takens) == src.bytes[old(Offset())..Offset()]
      ensures forall i :: 0 <= i < |shown| ==> ShownAt(ops, shown, takens, i, src.bytes[old(Offset())..])
    {
      hide Sync, Aligned, Concat, Shows, ShownAt;
      r, shown, takens := 0, [], [];
      assert Concat([]) == [] by { ConcatNone(); }
      ghost var o := Offset();
      var i := 0;
      while i < |ops|
        invariant Steps() && r >= 0 && |takens| == |shown| == i <= |ops|
        invariant Concat(takens) == src.bytes[o..Offset()]
        invariant forall k :: 0 <= k < i ==> ShownAt(ops, shown, takens, k, src.bytes[o..])
      {
        var data;
        ghost var taken;
        ghost var before := Offset();
        r, data, taken := Apply(ops[i]);
        if r < 0 {
          return;
        }
        ConcatAppend(takens, [taken]);
        ConcatOne(taken);
        assert src.bytes[o..Offset()] == src.bytes[o..before] + src.bytes[before..Offset()];
        assert src.bytes[before..] == src.bytes[o..][before - o..];
        ShownMore(ops, shown, takens, data, taken, src.bytes[o..]);
        shown, takens := shown + [data], takens + [taken];
        i := i + 1;
      }
    }

    // ---- Sub-streams -----------------------------------------------------------------------------------

    /** A sub-stream as it is set up: it starts with what its parent holds. */
    constructor Borrow(parent: Stream, len: nat)
      requires parent.Valid() && !parent.segment && parent.mark == parent.src.pos
      ensures src == parent.src && buf == parent.buf && segment
      ensures Valid() && Offset() == parent.Offset() && Limit() == parent.Offset() + len && err == 0
      ensures if parent.end - parent.ptr > len
              then end == parent.ptr + len && bytesLeft == 0
              else end == parent.end && mark == src.pos && (Sync(align, mark) || src.pos == |src.bytes|)
    {
      hide Sync;
      src, buf, segment := parent.src, parent.buf, true;
      ptr, err, parked := parent.ptr, 0, false;
      if parent.end - parent.ptr > len {
        end := parent.ptr + len;
        bytesLeft, align := 0, 0;
        mark := parent.mark - (parent.end - parent.ptr) + len;
      } else {
        end := parent.end;
        bytesLeft, align := len - (parent.end - parent.ptr), parent.end % 256;
        mark := parent.mark;
      }
      new;
      if parent.end - parent.ptr > len {
        PartOfHeld(buf[..], ptr, parent.end, src.bytes, parent.mark, len);
      } else {
        if Sync(ptr, Offset()) {
          SyncMoved(ptr, Offset(), end - ptr);
        }
      }
    }

    /** While a sub-stream that stops at a given offset is open: either the parent has
        kept the bytes behind it, or its pointers are given away. */
    ghost predicate Lent(seg: Stream, stop: nat)
      reads this, seg, src, buf, seg.src, seg.buf
    {
      && seg != this && seg.segment && !segment && seg.src == src && seg.buf == buf
      && seg.Valid() && seg.Limit() == stop && (err > 0 ==> src.pos == |src.bytes|)
      && if parked then seg.mark == src.pos && (Sync(seg.align, seg.mark) || src.pos == |src.bytes|)
         else Valid() && Offset() == stop && seg.bytesLeft == 0 && seg.end <= ptr
    }

    method OpenSegment(len: nat) returns (seg: Stream)
      requires Valid() && !segment
      modifies this`ptr, this`end, this`parked
      ensures fresh(seg) && Lent(seg, old(Offset()) + len) && seg.Offset() == old(Offset()) && seg.err == 0
    {
      hide Sync;
      seg := new Stream.Borrow(this, len);
      if end - ptr > len {
        var skipped := Take(len);
      } else {
        ptr, end, parked := 0, 0, true;
      }
    }

    /** Gives the buffer back and skips what was not read. */
    method CloseSegment(seg: Stream, ghost stop: nat) returns (r: int)
      requires Lent(seg, stop)
      modifies this`ptr, this`end, this`err, this`bytesLeft, this`align, this`mark, this`parked, src, buf
      ensures Valid() && Offset() <= stop
      ensures old(err) >= 0 && src.Reliable() && stop <= |src.bytes| ==> Offset() == stop && err >= 0
      ensures Offset() < stop ==> err != 0
      ensures r == if seg.err < 0 then seg.err else 0
    {
      hide Sync;
      if parked {
        ptr, end := seg.align % ALIGN_SYNC, seg.align % ALIGN_SYNC;
        parked, mark := false, src.pos;
        SyncReduced(seg.align, mark);
        assert buf[ptr..end] == [];
      }
      if seg.bytesLeft != 0 {
        var s := Skip(seg.bytesLeft);
      }
      r := if seg.err < 0 then seg.err else 0;
    }

    /** Whatever is done with an open sub-stream, its parent's share of the buffer stays
        as it was. */
    method UseSegment(seg: Stream, ops: seq<Op>, ghost stop: nat)
        returns (r: int, shown: seq<seq<byte>>, ghost takens: seq<seq<byte>>)
      requires Lent(seg, stop) && forall i :: 0 <= i < |ops| && ops[i].DelimOp? ==> ops[i].token != []
      modifies seg`ptr, seg`end, seg`err, seg`bytesLeft, seg`align, seg`mark, src, buf
      ensures Lent(seg, stop) && old(seg.Offset()) <= seg.Offset()
      ensures !parked ==> buf[ptr..end] == old(buf[ptr..end])
      ensures r >= 0 ==> Concat(takens) == src.bytes[old(seg.Offset())..seg.Offset()]
    {
      hide Sync, Concat, ShownAt;
      r, shown, takens := seg.Drive(ops);
      if !parked {
        assert buf[ptr..end] == old(buf[ptr..end]);
      }
    }

    /** Opens a sub-stream, does anything with it, and closes it: the parent goes on right
        behind it. */
    method WithSegment(len: nat, ops: seq<Op>) returns (r: int, shown: seq<seq<byte>>, ghost takens: seq<seq<byte>>)
      requires Valid() && !segment && forall i :: 0 <= i < |ops| && ops[i].DelimOp? ==> ops[i].token != []
      modifies this, src, buf
      ensures Valid() && Offset() <= old(Offset()) + len
      ensures old(err) >= 0 && src.Reliable() && old(Offset()) + len <= |src.bytes| ==>
                Offset() == old(Offset()) + len && err >= 0
      ensures r >= 0 ==> Concat(takens) <= src.bytes[old(Offset())..] && |Concat(takens)| <= len
    {
      hide Sync, Aligned, Concat, ShownAt;
      ghost var stop := Offset() + len;
      var seg := OpenSegment(len);
      ghost var o := seg.Offset();
      r, shown, takens := UseSegment(seg, ops, stop);
      assert r >= 0 ==> Concat(takens) == src.bytes[o..seg.Offset()];
      var c := CloseSegment(seg, stop);
    }
  }

  /** Operations a reader may use. */
  datatype Op =
    | PeekOp(n: nat)
    | GetOp(n: nat)
    | GetMaxOp(n: nat)
    | DelimOp(token: seq<byte>)
    | ReadOp(n: nat)
    | SkipOp(n: nat)

  /** What the reader is shown, against what was taken from the stream and what the source has
      from there on. */
  predicate Shows(op: Op, data: seq<byte>, taken: seq<byte>, rest: seq<byte>)
  {
    match op
    case PeekOp(n) => taken == [] && |data| == n && data <= rest
    case GetOp(n) => taken == data && |data| == n
    case GetMaxOp(n) => taken == data && |data| <= n
    case DelimOp(token) => taken == data + token || taken == data
    case ReadOp(n) => taken == data && |data| <= n
    case SkipOp(n) => |taken| == n
  }

  /** What operation i shows, where the operations before it have left the stream. */
  predicate ShownAt(ops: seq<Op>, shown: seq<seq<byte>>, takens: seq<seq<byte>>, i: nat, bytes: seq<byte>)
    requires i < |ops| && i < |shown| && i < |takens|
  {
    var o := |Concat(takens[..i])|;
    o <= |bytes| && Shows(ops[i], shown[i], takens[i], bytes[o..])
  }

  lemma ShownMore(ops: seq<Op>, shown: seq<seq<byte>>, takens: seq<seq<byte>>, data: seq<byte>, taken: seq<byte>, bytes: seq<byte>)
    requires |shown| == |takens| < |ops| && |Concat(takens)| <= |bytes|
    requires forall k :: 0 <= k < |shown| ==> ShownAt(ops, shown, takens, k, bytes)
    requires Shows(ops[|shown|], data, taken, bytes[|Concat(takens)|..])
    ensures forall k :: 0 <= k <= |shown| ==> ShownAt(ops, shown + [data], takens + [taken], k, bytes)
  {
    hide Shows, Concat;
    forall k | 0 <= k <= |shown|
      ensures ShownAt(ops, shown + [data], takens + [taken], k, bytes)
    {
      assert (takens + [taken])[..k] == takens[..k];
      if k == |shown| {
        assert takens[..k] == takens;
      } else {
        assert ShownAt(ops, shown, takens, k, bytes);
      }
    }
  }

  /** The delimiter split of a byte string. */
  function SplitOf(rest: seq<byte>, token: seq<byte>): seq<seq<byte>>
    requires token != []
    decreases |rest|
  {
    var k := Find(rest, token, 0);
    if k < 0 then [rest] else [rest[..k]] + SplitOf(rest[k + |token|..], token)
  }

  /** Every piece fits a buffer of the given size: a piece with its delimiter must fit
      behind its alignment, the last piece must leave room for one byte. */
  predicate Fits(rest: seq<byte>, token: seq<byte>, o: nat, size: int)
    requires token != []
    decreases |rest|
  {
    var k, cap := Find(rest, token, 0), size - o % ALIGN_SYNC;
    if k < 0 then |rest| < cap
    else k + |token| <= cap && Fits(rest[k + |token|..], token, o + k + |token|, size)
  }

  lemma Unfold(rest: seq<byte>, token: seq<byte>, o: nat, size: int)
    requires token != []
    ensures var cut := Cut(rest, token, size - o % ALIGN_SYNC);
            && (cut.TooLong? ==> !Fits(rest, token, o, size))
            && (cut.Last? ==> SplitOf(rest, token) == [cut.data] && Fits(rest, token, o, size))
            && (cut.Piece? ==>
                  var next := |cut.data| + |token|;
                  && next <= |rest| && SplitOf(rest, token) == [cut.data] + SplitOf(rest[next..], token)
                  && Fits(rest, token, o, size) == Fits(rest[next..], token, o + next, size))
  {
    hide Find;
    FindRange(rest, token);
    var k, cap := Find(rest, token, 0), size - o % ALIGN_SYNC;
    if k >= 0 && k + |token| <= cap {
      assert Cut(rest, token, cap) == Piece(rest[..k]);
    }
  }

  /** Pieces without an empty one at the end. */
  function Closed(pieces: seq<seq<byte>>): seq<seq<byte>>
  {
    if pieces != [] && pieces[|pieces| - 1] == [] then pieces[..|pieces| - 1] else pieces
  }

  lemma UnfoldSeen(rest: seq<byte>, token: seq<byte>)
    requires token != []
    ensures var cut := Cut(rest, token, |rest| + 1);
            && !cut.TooLong?
            && (rest == [] ==> Closed(SplitOf(rest, token)) == [])
            && (rest != [] && cut.Last? ==>
                  cut.data == rest && Closed(SplitOf(rest, token)) == [rest] + Closed(SplitOf([], token)))
            && (cut.Piece? ==>
                  var next := |cut.data| + |token|;
                  && next <= |rest| && rest != []
                  && Closed(SplitOf(rest, token)) == [cut.data] + Closed(SplitOf(rest[next..], token)))
  {
    hide Find, SplitOf, Closed;
    FindRange(rest, token);
    FindRange([], token);
    SplitOnce(rest, token);
    SplitOnce([], token);
    ClosedEnds(rest);
    var k := Find(rest, token, 0);
    if k >= 0 {
      var tail := rest[k + |token|..];
      SplitOnce(tail, token);
      ClosedMore(rest[..k], SplitOf(tail, token));
    }
  }

  lemma SplitOnce(rest: seq<byte>, token: seq<byte>)
    requires token != []
    ensures var k := Find(rest, token, 0);
            && SplitOf(rest, token) != []
            && SplitOf(rest, token) == if k < 0 then [rest] else [rest[..k]] + SplitOf(rest[k + |token|..], token)
  {
    hide Find;
  }

  lemma ClosedEnds(rest: seq<byte>)
    ensures Closed([rest]) == (if rest == [] then [] else [rest]) && Closed([[]]) == []
  {
  }

  lemma ClosedMore(piece: seq<byte>, pieces: seq<seq<byte>>)
    requires pieces != []
    ensures Closed([piece] + pieces) == [piece] + Closed(pieces)
  {
    var all := [piece] + pieces;
    assert all[..|all| - 1] == [piece] + pieces[..|pieces| - 1];
  }

  function Join(pieces: seq<seq<byte>>, token: seq<byte>): seq<byte>
  {
    if |pieces| == 0 then [] else if |pieces| == 1 then pieces[0] else pieces[0] + token + Join(pieces[1..], token)
  }

  /** The pieces contain no delimiter, and joined by it they give back the bytes. */
  lemma {:induction false} SplitIsSplit(rest: seq<byte>, token: seq<byte>)
    requires token != []
    ensures SplitOf(rest, token) != [] && Join(SplitOf(rest, token), token) == rest
    ensures forall i :: 0 <= i < |SplitOf(rest, token)| ==> Find(SplitOf(rest, token)[i], token, 0) == -1
    ensures forall i, k: nat :: 0 <= i < |SplitOf(rest, token)| ==> !Occurs(SplitOf(rest, token)[i], token, k)
    decreases |rest|
  {
    hide Find, Occurs;
    forall i | 0 <= i < |SplitOf(rest, token)|
      ensures Find(SplitOf(rest, token)[i], token, 0) == -1 ==> forall k: nat :: !Occurs(SplitOf(rest, token)[i], token, k)
    {
      FindFirst(SplitOf(rest, token)[i], token, 0);
    }
    var k := Find(rest, token, 0);
    FindRange(rest, token);
    if k >= 0 {
      var tail := rest[k + |token|..];
      SplitIsSplit(tail, token);
      FindPrefix(rest, token, k, 0);
      FindRange(rest[..k], token);
      var pieces := SplitOf(rest, token);
      assert pieces[1..] == SplitOf(tail, token);
      assert rest == rest[..k] + rest[k..k + |token|] + tail;
    }
  }

  // ---- Searching ---------------------------------------------------------------------------------------

  /** The first place of a token from k on, or -1. */
  function Find(s: seq<byte>, token: seq<byte>, k: nat): (r: int)
    ensures r == -1 || (k <= r && r + |token| <= |s| && s[r..r + |token|] == token)
    decreases |s| - k
  {
    if k + |token| > |s| then -1
    else if s[k..k + |token|] == token then k
    else if k == |s| then -1
    else Find(s, token, k + 1)
  }

  /** The token is there at this place. */
  predicate Occurs(s: seq<byte>, token: seq<byte>, k: nat) { k + |token| <= |s| && s[k..k + |token|] == token }

  /** So it is found at the first place where it occurs, and not found if it occurs nowhere. */
  lemma {:induction false} FindFirst(s: seq<byte>, token: seq<byte>, k: nat)
    requires token != []
    ensures var r := Find(s, token, k);
            if r == -1 then forall j: nat :: j >= k ==> !Occurs(s, token, j)
            else r >= k && Occurs(s, token, r) && forall j: nat :: k <= j < r ==> !Occurs(s, token, j)
    decreases |s| - k
  {
    if k + |token| <= |s| && s[k..k + |token|] != token {
      FindFirst(s, token, k + 1);
      assert !Occurs(s, token, k);
    }
  }

  datatype Cutting = Piece(data: seq<byte>) | Last(data: seq<byte>) | TooLong

  /** The next piece of what is left, when at most cap bytes can be held at once. */
  function Cut(rest: seq<byte>, token: seq<byte>, cap: int): Cutting
  {
    var k := Find(rest, token, 0);
    if 0 <= k && k + |token| <= cap then Piece(rest[..k])
    else if |rest| < cap then Last(rest)
    else TooLong
  }

  /** Two neighbouring stretches that agree with the source agree as one. */
  lemma Joined(b: seq<byte>, p: nat, m: nat, e: nat, bytes: seq<byte>, o: nat, x: nat, y: nat)
    requires p <= m <= e <= |b| && o <= x <= y <= |bytes| && x - o == m - p
    requires b[p..m] == bytes[o..x] && b[m..e] == bytes[x..y]
    ensures b[p..e] == bytes[o..y]
  {
    assert b[p..e] == b[p..m] + b[m..e];
    assert bytes[o..y] == bytes[o..x] + bytes[x..y];
  }

  lemma PartOfHeld(b: seq<byte>, p: nat, e: nat, bytes: seq<byte>, pos: nat, len: nat)
    requires p + len <= e <= |b| && e - p <= pos <= |bytes| && b[p..e] == bytes[pos - (e - p)..pos]
    ensures var o := pos - (e - p);
            b[p..p + len] == bytes[o..o + len] && b[p + len..e] == bytes[o + len..pos]
  {
    var o := pos - (e - p);
    assert b[p..p + len] == b[p..e][..len];
    assert bytes[o..o + len] == bytes[o..pos][..len];
    assert b[p + len..e] == b[p..e][len..];
    assert bytes[o + len..pos] == bytes[o..pos][len..];
  }

  lemma PastAligned(p: int, o: int, r: int)
    ensures Sync(p, o) ==> Sync((p + r) % ALIGN_SYNC, o + r)
  {
  }

  lemma Appended(d: seq<byte>, done: nat, n: nat, bytes: seq<byte>, o: nat)
    requires done + n <= |d| && o + done + n <= |bytes|
    requires d[..done] == bytes[o..o + done] && d[done..done + n] == bytes[o + done..o + done + n]
    ensures d[..done + n] == bytes[o..o + done + n]
  {
    assert d[..done + n] == d[..done] + d[done..done + n];
    assert bytes[o..o + done + n] == bytes[o..o + done] + bytes[o + done..o + done + n];
  }

  lemma FindRange(s: seq<byte>, token: seq<byte>)
    ensures var k := Find(s, token, 0);
            k == -1 || (0 <= k && k + |token| <= |s| && s[k..k + |token|] == token)
  {
  }

  lemma TwoTaken(bytes: seq<byte>, o: nat, k: nat, n: nat, pos: nat)
    requires o + k + n <= pos <= |bytes|
    ensures bytes[o..o + k + n] == bytes[o..o + k] + bytes[o..pos][k..k + n]
  {
    SliceOfSlice(bytes, o, pos, k, k + n);
    assert bytes[o..o + k + n] == bytes[o..o + k] + bytes[o + k..o + k + n];
  }

  /** What is held, at its place in the buffer, decides the next piece of all that is
      left. */
  lemma CutDecided(bytes: seq<byte>, o: nat, pos: nat, limit: nat, token: seq<byte>, ptr: nat, end: nat, size: nat)
    requires o <= pos <= limit <= |bytes| && pos - o == end - ptr && end <= size && ALIGN_SYNC <= size && token != []
    requires Sync(ptr, o) || (ptr == end && pos == |bytes|)
    ensures var held, rest := bytes[o..pos], bytes[o..limit];
            var k, cut := Find(held, token, 0), Cut(rest, token, size - o % ALIGN_SYNC);
            && (k >= 0 ==> cut == Piece(held[..k]))
            && (k < 0 && pos == limit && ptr < ALIGN_SYNC && end < size ==> cut == Last(held))
            && (k < 0 && ptr < ALIGN_SYNC && end == size ==> cut == TooLong)
  {
    hide Find;
    var held, rest := bytes[o..pos], bytes[o..limit];
    assert rest[..pos - o] == held;
    FindPrefix(rest, token, pos - o, 0);
    FindRange(held, token);
    FindRange(rest, token);
    PlaceBound(ptr, o);
    var k := Find(held, token, 0);
    if k >= 0 {
      assert rest[..k] == held[..k];
    }
  }

  lemma PlaceBound(ptr: nat, o: nat)
    ensures Sync(ptr, o) ==> o % ALIGN_SYNC <= ptr && (ptr < ALIGN_SYNC ==> o % ALIGN_SYNC == ptr)
  {
  }

  lemma {:induction false} FindPrefix(s: seq<byte>, token: seq<byte>, n: nat, k: nat)
    requires n <= |s| && token != []
    ensures var f, g := Find(s[..n], token, k), Find(s, token, k);
            if f >= 0 then g == f else g == -1 || g + |token| > n
    decreases |s| - k
  {
    if k + |token| <= n {
      assert s[..n][k..k + |token|] == s[k..k + |token|];
      if s[k..k + |token|] != token {
        FindPrefix(s, token, n, k + 1);
      }
    }
  }

  lemma ConcatNone()
    ensures Concat([]) == []
  {
  }
}
