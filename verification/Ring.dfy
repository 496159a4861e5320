/**
  `circulation_buffer` (set/buffer/buffer.h) as a value: a byte array and two
  indices, with every operation written as the code computes it. Sizes are
  64-bit unsigned, so a subtraction that goes below zero wraps; an access
  outside the array is the outcome `OutOfBounds`, a failed `new` is `NoMemory`.
 */
module Ring {
  import opened Bytes

  const PADDING := 4

  /** One more than the largest `size_t`. */
  const WORD := 0x1_0000_0000_0000_0000

  /** The largest object a 47-bit user address space (x86-64) can hold; `new` throws beyond it. */
  const MAX_OBJECT := 0x8000_0000_0000

  datatype Ring = Ring(buf: seq<byte>, r: nat, w: nat)

  datatype Outcome = Done(ring: Ring) | OutOfBounds | NoMemory

  /** The `size_t` value of an integer expression that leaves the range at most once. */
  function Wrap(x: int): (u: nat)
    requires -WORD <= x < 2 * WORD
    ensures u < WORD && (u == x || u == x + WORD || u == x - WORD)
  {
    if x < 0 then x + WORD else if x >= WORD then x - WORD else x
  }

  /** Indices and array are what a running program can hold. */
  predicate Machine(s: Ring) {
    |s.buf| <= MAX_OBJECT && s.r <= 2 * MAX_OBJECT && s.w <= 2 * MAX_OBJECT
  }

  function Fresh(length: nat): Ring {
    Ring(seq(length, _ => 0), PADDING, PADDING)
  }

  function ReadedSize(s: Ring): nat
    requires Machine(s)
  {
    if s.w < s.r then Wrap(|s.buf| - s.r + s.w) else s.w - s.r
  }

  function WritedSize(s: Ring): nat
    requires Machine(s)
  {
    if s.w <= Wrap(s.r - PADDING) then Wrap(s.r - PADDING) - s.w
    else Wrap(|s.buf| - s.w + s.r - PADDING)
  }

  /** `std::copy_n(src, |src|, dst + at)`, all bytes read before any is written. */
  function Blit(dst: seq<byte>, at: nat, src: seq<byte>): (d: seq<byte>)
    requires at + |src| <= |dst|
    ensures |d| == |dst|
  {
    seq(|dst|, i requires 0 <= i < |dst| => if at <= i < at + |src| then src[i - at] else dst[i])
  }

  lemma BlitInside(dst: seq<byte>, at: nat, src: seq<byte>)
    requires at + |src| <= |dst|
    ensures Blit(dst, at, src)[at..at + |src|] == src
  {}

  lemma BlitOutside(dst: seq<byte>, at: nat, src: seq<byte>, lo: nat, hi: nat)
    requires at + |src| <= |dst| && lo <= hi <= |dst|
    requires hi <= at || at + |src| <= lo
    ensures Blit(dst, at, src)[lo..hi] == dst[lo..hi]
  {}

  lemma BlitAt(dst: seq<byte>, at: nat, src: seq<byte>, i: nat)
    requires at + |src| <= |dst| && i < |dst|
    ensures Blit(dst, at, src)[i] == if at <= i < at + |src| then src[i - at] else dst[i]
  {}

  lemma SplitSlice(s: seq<byte>, lo: nat, mid: nat, hi: nat)
    requires lo <= mid <= hi <= |s|
    ensures s[lo..hi] == s[lo..mid] + s[mid..hi]
  {}

  // ------------------------------------------------------------------------
  // The operations, branch by branch
  // ------------------------------------------------------------------------

  /** The copying half of `append` (buffer.h:73-86). */
  function Store(s: Ring, data: seq<byte>): Outcome
    requires Machine(s) && |data| <= MAX_OBJECT
  {
    var room := Wrap(|s.buf| - s.w);
    if s.w < s.r || room >= |data| then
      if data == [] then Done(s)
      else if s.w + |data| > |s.buf| then OutOfBounds
      else Done(Ring(Blit(s.buf, s.w, data), s.r, s.w + |data|))
    else if s.w > |s.buf| || |data| - room > |s.buf| then OutOfBounds
    else
      var tail := Blit(s.buf, s.w, data[..room]);
      Done(Ring(Blit(tail, 0, data[room..]), s.r, |data| - room))
  }

  /** `relocation_location` (buffer.h:153-175). */
  function Relocate(s: Ring): (out: Outcome)
    requires Machine(s)
    ensures out.Done? ==> Machine(out.ring)
  {
    var L := |s.buf|;
    if s.w >= s.r then Done(s)
    else if s.r < PADDING || s.r > L || s.r < s.w + PADDING then OutOfBounds
    else if L - s.r > s.w then
      // the new write index is computed after readindex_ was overwritten
      var moved := Blit(s.buf, 0, s.buf[s.r - PADDING..]);
      Done(Ring(Blit(moved, L - s.r + PADDING, s.buf[..s.w]), PADDING, L - PADDING + s.w))
    else
      var moved := Blit(s.buf, L - s.r + PADDING, s.buf[..s.w]);
      Done(Ring(Blit(moved, 0, s.buf[s.r - PADDING..]), PADDING, L - s.r + s.w + PADDING))
  }

  /** The size that line 145 computes. */
  function NewLength(s: Ring, n: nat): nat
    requires Machine(s) && n <= MAX_OBJECT
  {
    Wrap(|s.buf| + Wrap(2 * Wrap(n - WritedSize(s))))
  }

  /** `make_memory` (buffer.h:140-151); `junk` is what the uninitialised new block holds. */
  function MakeMemory(s: Ring, n: nat, junk: nat -> byte): (out: Outcome)
    requires Machine(s) && n <= MAX_OBJECT
    ensures out.Done? ==> Machine(out.ring)
  {
    if n < WritedSize(s) then Done(s)
    else match Relocate(s)
      case Done(t) =>
        var size := NewLength(t, n);
        if size > MAX_OBJECT then NoMemory
        else if t.r < PADDING || t.r - PADDING + t.w > |t.buf| || t.w > size then OutOfBounds
        else Done(Ring(Grown(t, size, junk), t.r, t.w))
      case failed => failed
  }

  /** The new block: writeindex_ bytes copied from padding before the read index, then whatever was there. */
  function Grown(t: Ring, size: nat, junk: nat -> byte): (b: seq<byte>)
    requires PADDING <= t.r && t.r - PADDING + t.w <= |t.buf| && t.w <= size
    ensures |b| == size
    ensures forall i :: 0 <= i < t.w ==> b[i] == t.buf[t.r - PADDING + i]
  {
    t.buf[t.r - PADDING..t.r - PADDING + t.w] + seq(size - t.w, i requires 0 <= i => junk(t.w + i))
  }

  /** `append` (buffer.h:67-87). */
  function Append(s: Ring, data: seq<byte>, junk: nat -> byte): Outcome
    requires Machine(s) && |data| <= MAX_OBJECT
  {
    if WritedSize(s) < |data| then
      match MakeMemory(s, |data|, junk)
      case Done(t) => Store(t, data)
      case failed => failed
    else Store(s, data)
  }

  /** `skip` (buffer.h:116-137). */
  function Skip(s: Ring, len: nat): Ring
    requires Machine(s) && len <= ReadedSize(s)
  {
    if len < ReadedSize(s) then
      if s.w < s.r && Wrap(|s.buf| - s.r) <= len then s.(r := Wrap(Wrap(len - |s.buf|) + s.r))
      else s.(r := s.r + len)
    else s.(r := PADDING, w := PADDING)
  }

  /** `peek<T>` for T of k bytes (buffer.h:91-114). */
  function Peek(s: Ring, k: nat): nat
    requires Indexed(s) && k <= ReadedSize(s)
  {
    var tail := |s.buf| - s.r;
    if s.w < s.r && tail <= k then
      ByteSwap(FromLE(s.buf[s.r..]) + ShiftLeft(FromLE(s.buf[..k - tail]), tail), k)
    else ByteSwap(FromLE(s.buf[s.r..s.r + k]), k)
  }

  // ------------------------------------------------------------------------
  // The queue a ring stands for, and what keeps it one
  // ------------------------------------------------------------------------

  predicate InRange(s: Ring) {
    Machine(s) && s.r <= |s.buf| && s.w <= |s.buf|
  }

  function Contents(s: Ring): seq<byte>
    requires InRange(s)
  {
    if s.w < s.r then s.buf[s.r..] + s.buf[..s.w] else s.buf[s.r..s.w]
  }

  /** The array has room for the gap and both indices lie in it: every read is inside the array. */
  predicate Indexed(s: Ring) {
    InRange(s) && PADDING <= |s.buf|
  }

  predicate ValidAt(r: nat, w: nat, length: nat) {
    && PADDING <= length <= MAX_OBJECT
    && (w < r < length || r < w <= length || r == w == PADDING)
  }

  /** What every correct operation keeps: equal indices only in the initial, empty state. */
  predicate Valid(s: Ring)
    ensures Valid(s) ==> Indexed(s)
  {
    ValidAt(s.r, s.w, |s.buf|)
  }

  /** A wrapped writer stays `padding` bytes short of the reader. */
  predicate HasGap(r: nat, w: nat) {
    w < r ==> w + PADDING <= r
  }

  function QueuedAt(r: nat, w: nat, length: nat): nat
    requires r <= length
  {
    if w < r then length - r + w else w - r
  }

  /** Bytes that fit without growth: capacity less what is queued. */
  function FreeAt(r: nat, w: nat, length: nat): nat
    requires r <= length
  {
    var queued := QueuedAt(r, w, length);
    if queued + PADDING <= length then length - PADDING - queued else 0
  }

  function Free(s: Ring): nat
    requires InRange(s)
  {
    FreeAt(s.r, s.w, |s.buf|)
  }

  /** The readable and the writable size, as the code computes them, account for the whole array. */
  lemma SizesAccountForArray(s: Ring)
    requires Indexed(s)
    ensures ReadedSize(s) == |Contents(s)|
    ensures s.r >= PADDING && HasGap(s.r, s.w) ==>
      WritedSize(s) == Free(s) && ReadedSize(s) + WritedSize(s) + PADDING == |s.buf|
    ensures s.r < PADDING ==> WritedSize(s) > MAX_OBJECT
  {}

  lemma SkipDropsPrefix(s: Ring, len: nat)
    requires Indexed(s) && len <= ReadedSize(s)
    ensures Indexed(Skip(s, len)) && |Skip(s, len).buf| == |s.buf|
    ensures len <= |Contents(s)| && Contents(Skip(s, len)) == Contents(s)[len..]
    ensures Valid(s) ==> Valid(Skip(s, len))
  {
    var q, tail := Contents(s), |s.buf| - s.r;
    if len < |q| && s.w < s.r {
      if tail <= len {
        assert q[len..] == s.buf[..s.w][len - tail..] == s.buf[len - tail..s.w];
      } else {
        assert q[len..] == s.buf[s.r + len..] + s.buf[..s.w];
      }
    }
  }

  /** Two partial loads, the second shifted past the first, swapped: the big-endian value of both. */
  lemma {:induction false} SplitLoad(l: seq<byte>, r: seq<byte>)
    ensures FromLE(l) + ShiftLeft(FromLE(r), |l|) < Pow256(|l| + |r|)
    ensures ByteSwap(FromLE(l) + ShiftLeft(FromLE(r), |l|), |l| + |r|) == FromBE(l + r)
  {
    FromLEConcat(l, r);
    FromLEBound(l + r);
    NetworkToHost(l + r);
  }

  /** Where the first k queued bytes lie in the array. */
  lemma PrefixOfContents(s: Ring, k: nat)
    requires Indexed(s) && k <= |Contents(s)|
    ensures var tail := |s.buf| - s.r;
      Contents(s)[..k] ==
        if s.w < s.r && tail <= k then s.buf[s.r..] + s.buf[..k - tail] else s.buf[s.r..s.r + k]
  {}

  lemma {:induction false} PeekWhole(s: Ring, k: nat)
    requires Indexed(s) && k <= ReadedSize(s) && (s.w < s.r ==> k < |s.buf| - s.r)
    ensures s.r + k <= |s.buf| && Peek(s, k) == FromBE(s.buf[s.r..s.r + k])
  {
    NetworkToHost(s.buf[s.r..s.r + k]);
  }

  lemma {:induction false} PeekSplit(s: Ring, k: nat)
    requires Indexed(s) && k <= ReadedSize(s) && s.w < s.r && |s.buf| - s.r <= k
    ensures Peek(s, k) == FromBE(s.buf[s.r..] + s.buf[..k - (|s.buf| - s.r)])
  {
    var l, r := s.buf[s.r..], s.buf[..k - (|s.buf| - s.r)];
    assert |l| == |s.buf| - s.r && |l| + |r| == k;
    SplitLoad(l, r);
  }

  /** Wherever the ring wraps, a typed peek is the big-endian value of the first k queued bytes. */
  lemma {:induction false} PeekIsBigEndian(s: Ring, k: nat)
    requires Indexed(s) && k <= |Contents(s)|
    ensures Peek(s, k) == FromBE(Contents(s)[..k]) < Pow256(k)
  {
    PrefixOfContents(s, k);
    FromBEBound(Contents(s)[..k]);
    if s.w < s.r && |s.buf| - s.r <= k {
      PeekSplit(s, k);
    } else {
      PeekWhole(s, k);
    }
  }
}
