/**
  When is `append` right? Exactly when it hands the queue on with the data
  behind it, stated as a condition on the indices a caller could compute,
  and what growth does to the room that is left.
 */
module RingAppend {
  import opened Bytes
  import opened Ring

  /** The append ended normally and the queue is the old one followed by the data. */
  predicate Appended(s: Ring, data: seq<byte>, out: Outcome)
    requires InRange(s)
  {
    out.Done? && InRange(out.ring) && Contents(out.ring) == Contents(s) + data
  }

  /** Growth keeps the queue only from these indices. */
  predicate GrowthSound(r: nat, w: nat, length: nat)
    requires ValidAt(r, w, length)
  {
    if w < r then w + PADDING <= r && (length - r <= w || r == 2 * PADDING) else r == PADDING
  }

  /** The indices from which appending n bytes is right, whatever the bytes are. */
  predicate AppendSound(r: nat, w: nat, length: nat, n: nat)
    requires ValidAt(r, w, length)
  {
    var free := FreeAt(r, w, length);
    if !HasGap(r, w) then w + n < r
    else if r < PADDING then n <= length - w || n < length - w + r
    else n <= free || (GrowthSound(r, w, length) && length + 2 * (n - free) <= MAX_OBJECT)
  }

  /** The code asks for growth. */
  predicate Grows(r: nat, w: nat, length: nat, n: nat)
    requires ValidAt(r, w, length)
  {
    HasGap(r, w) && PADDING <= r && n > FreeAt(r, w, length)
  }

  datatype Shape = Shape(r: nat, w: nat, length: nat)

  function ShapeOf(s: Ring): Shape {
    Shape(s.r, s.w, |s.buf|)
  }

  predicate ValidShape(x: Shape) {
    ValidAt(x.r, x.w, x.length)
  }

  /** Where a sound append of n bytes leaves the indices. */
  function ShapeAppend(x: Shape, n: nat): (y: Shape)
    requires ValidShape(x) && AppendSound(x.r, x.w, x.length, n)
    ensures ValidShape(y) && QueuedAt(y.r, y.w, y.length) == QueuedAt(x.r, x.w, x.length) + n
  {
    if Grows(x.r, x.w, x.length, n) then
      Shape(PADDING, PADDING + QueuedAt(x.r, x.w, x.length) + n, x.length + 2 * (n - FreeAt(x.r, x.w, x.length)))
    else if x.w < x.r || n <= x.length - x.w then x.(w := x.w + n)
    else x.(w := n - (x.length - x.w))
  }

  /** Where a skip leaves the indices. */
  function ShapeSkip(x: Shape, len: nat): (y: Shape)
    requires ValidShape(x) && len <= QueuedAt(x.r, x.w, x.length)
    ensures ValidShape(y) && y.length == x.length
    ensures QueuedAt(y.r, y.w, y.length) == QueuedAt(x.r, x.w, x.length) - len
  {
    if len == QueuedAt(x.r, x.w, x.length) then Shape(PADDING, PADDING, x.length)
    else if x.w < x.r && x.length - x.r <= len then x.(r := len - (x.length - x.r))
    else x.(r := x.r + len)
  }

  // ------------------------------------------------------------------------
  // Sound appends
  // ------------------------------------------------------------------------

  /** The data lands in one piece behind the slice from lo. */
  lemma BlitBehind(b: seq<byte>, lo: nat, w: nat, data: seq<byte>)
    requires lo <= w && w + |data| <= |b|
    ensures Blit(b, w, data)[lo..w + |data|] == b[lo..w] + data
  {
    BlitInside(b, w, data);
    BlitOutside(b, w, data, lo, w);
    SplitSlice(Blit(b, w, data), lo, w, w + |data|);
  }

  lemma StoreUnwrapped(s: Ring, data: seq<byte>)
    requires Valid(s) && s.r <= s.w && s.w + |data| <= |s.buf|
    ensures Appended(s, data, Store(s, data))
  {
    BlitBehind(s.buf, s.r, s.w, data);
    if data == [] { assert Contents(s) + data == Contents(s); }
  }

  lemma StoreWrapped(s: Ring, data: seq<byte>)
    requires Valid(s) && s.w + |data| < s.r
    ensures Appended(s, data, Store(s, data))
  {
    var q, p := s.buf[s.r..], s.buf[0..s.w];
    BlitBehind(s.buf, 0, s.w, data);
    BlitOutside(s.buf, s.w, data, s.r, |s.buf|);
    assert Contents(s) == q + p;
    assert q + (p + data) == q + p + data;
    if data == [] { assert Contents(s) + data == Contents(s); }
  }

  /** Copying d to the end of the array and e to its start continues the slice from r round the end. */
  lemma BlitsAcrossEnd(b: seq<byte>, r: nat, w: nat, d: seq<byte>, e: seq<byte>)
    requires r <= w && w + |d| == |b| && |e| <= r
    ensures var c := Blit(Blit(b, w, d), 0, e);
      c[r..] == b[r..w] + d && c[..|e|] == e
  {
    var a := Blit(b, w, d);
    BlitInside(b, w, d);
    BlitOutside(b, w, d, r, w);
    SplitSlice(a, r, w, |b|);
    BlitInside(a, 0, e);
    BlitOutside(a, 0, e, r, |b|);
    var c := Blit(a, 0, e);
    assert c[r..] == c[r..|b|] && c[..|e|] == c[0..|e|];
  }

  lemma Rejoin(q: seq<byte>, data: seq<byte>, k: nat)
    requires k <= |data|
    ensures q + data[..k] + data[k..] == q + data
  {
    assert data[..k] + data[k..] == data;
    assert q + data[..k] + data[k..] == q + (data[..k] + data[k..]);
  }

  /** The data runs on from the end of the array to its start, short of the reader. */
  lemma StoreAcrossEnd(s: Ring, data: seq<byte>)
    requires Valid(s) && s.r <= s.w && |data| <= MAX_OBJECT
    requires |s.buf| - s.w < |data| < |s.buf| - s.w + s.r
    ensures Appended(s, data, Store(s, data))
  {
    var room := |s.buf| - s.w;
    BlitsAcrossEnd(s.buf, s.r, s.w, data[..room], data[room..]);
    Rejoin(s.buf[s.r..s.w], data, room);
  }

  /** Without growth the queue gains the data, across the array's end if need be. */
  lemma StoreFits(s: Ring, data: seq<byte>)
    requires Valid(s) && |data| <= MAX_OBJECT
    requires AppendSound(s.r, s.w, |s.buf|, |data|) && !Grows(s.r, s.w, |s.buf|, |data|)
    ensures Appended(s, data, Store(s, data))
    ensures ShapeOf(Store(s, data).ring) == ShapeAppend(ShapeOf(s), |data|)
  {
    if s.w < s.r {
      StoreWrapped(s, data);
    } else if |s.buf| - s.w >= |data| {
      StoreUnwrapped(s, data);
    } else {
      StoreAcrossEnd(s, data);
    }
  }

  /** In either order, two copies side by side leave `back` at the start and `front` behind it. */
  lemma TwoBlits(b: seq<byte>, back: seq<byte>, front: seq<byte>)
    requires |back| + |front| <= |b|
    ensures var n, m := |back|, |back| + |front|;
      && (var c := Blit(Blit(b, 0, back), n, front); c[..n] == back && c[n..m] == front)
      && (var c := Blit(Blit(b, n, front), 0, back); c[..n] == back && c[n..m] == front)
  {
    var n, m := |back|, |back| + |front|;
    BlitInside(b, 0, back);
    BlitOutside(Blit(b, 0, back), n, front, 0, n);
    BlitInside(Blit(b, 0, back), n, front);
    BlitInside(b, n, front);
    BlitOutside(Blit(b, n, front), 0, back, n, m);
    BlitInside(Blit(b, n, front), 0, back);
  }

  /** Relocation lays the queue contiguously from `padding` and keeps the room that is left. */
  lemma RelocateKeepsQueue(s: Ring)
    requires Valid(s) && s.w < s.r && GrowthSound(s.r, s.w, |s.buf|)
    ensures Relocate(s).Done?
    ensures var t := Relocate(s).ring;
      && Valid(t) && t.r == PADDING && PADDING < t.w && |t.buf| == |s.buf|
      && Contents(t) == Contents(s)
      && Free(t) == Free(s)
  {
    var t, head := Relocate(s).ring, |s.buf| - s.r + PADDING;
    var back, front := s.buf[s.r - PADDING..], s.buf[..s.w];
    TwoBlits(s.buf, back, front);
    assert t.buf[..head] == back && t.buf[head..t.w] == front;
    assert t.buf[PADDING..head] == back[PADDING..] == s.buf[s.r..];
    SplitSlice(t.buf, PADDING, head, t.w);
  }

  /** Before growth the queue lies contiguously from `padding`; the new length counts the missing room twice. */
  lemma ReadyToGrow(s: Ring, n: nat)
    requires Valid(s) && n <= MAX_OBJECT && Grows(s.r, s.w, |s.buf|, n) && GrowthSound(s.r, s.w, |s.buf|)
    ensures WritedSize(s) == Free(s) && Relocate(s).Done?
    ensures var u := Relocate(s).ring;
      && Valid(u) && u.r == PADDING <= u.w && |u.buf| == |s.buf| && Contents(u) == Contents(s)
      && u.w == PADDING + |Contents(s)|
      && NewLength(u, n) == |s.buf| + 2 * (n - Free(s))
  {
    if s.w < s.r { RelocateKeepsQueue(s); }
  }

  /** Growth from a sound state keeps the queue and turns f free bytes into 2n - f. */
  lemma GrowthMakesRoom(s: Ring, n: nat, junk: nat -> byte)
    requires Valid(s) && n <= MAX_OBJECT && Grows(s.r, s.w, |s.buf|, n)
    requires AppendSound(s.r, s.w, |s.buf|, n)
    ensures MakeMemory(s, n, junk).Done?
    ensures var t := MakeMemory(s, n, junk).ring;
      && Valid(t) && t.r == PADDING <= t.w
      && Contents(t) == Contents(s)
      && |t.buf| == |s.buf| + 2 * (n - Free(s))
      && Free(t) == |t.buf| - t.w == 2 * n - Free(s) >= n
  {
    ReadyToGrow(s, n);
    var u, t := Relocate(s).ring, MakeMemory(s, n, junk).ring;
    assert t.buf[u.r..u.w] == u.buf[u.r..u.w];
  }

  lemma AppendByGrowing(s: Ring, data: seq<byte>, junk: nat -> byte)
    requires Valid(s) && |data| <= MAX_OBJECT && AppendSound(s.r, s.w, |s.buf|, |data|)
    requires Grows(s.r, s.w, |s.buf|, |data|)
    ensures Appended(s, data, Append(s, data, junk))
    ensures ShapeOf(Append(s, data, junk).ring) == ShapeAppend(ShapeOf(s), |data|)
  {
    GrowthMakesRoom(s, |data|, junk);
    ReadyToGrow(s, |data|);
    var t := MakeMemory(s, |data|, junk).ring;
    assert t.w == PADDING + |Contents(s)|;
    StoreUnwrapped(t, data);
  }

  lemma AppendInPlace(s: Ring, data: seq<byte>, junk: nat -> byte)
    requires Valid(s) && |data| <= MAX_OBJECT && AppendSound(s.r, s.w, |s.buf|, |data|)
    requires !Grows(s.r, s.w, |s.buf|, |data|)
    ensures Append(s, data, junk) == Store(s, data)
  {}

  /** From sound indices the queue gains the data, the indices stay valid and go where the lengths say. */
  lemma SoundAppend(s: Ring, data: seq<byte>, junk: nat -> byte)
    requires Valid(s) && |data| <= MAX_OBJECT && AppendSound(s.r, s.w, |s.buf|, |data|)
    ensures Appended(s, data, Append(s, data, junk))
    ensures var t := Append(s, data, junk).ring;
      Valid(t) && ShapeOf(t) == ShapeAppend(ShapeOf(s), |data|)
  {
    if Grows(s.r, s.w, |s.buf|, |data|) {
      AppendByGrowing(s, data, junk);
    } else {
      AppendInPlace(s, data, junk);
      StoreFits(s, data);
    }
  }

  // ------------------------------------------------------------------------
  // Unsound appends: some bytes at the same indices are lost or altered
  // ------------------------------------------------------------------------

  /** A ring whose first queued byte is the only non-zero one. */
  function Probe(r: nat, w: nat, length: nat): Ring {
    Ring(seq(length, i => if i == r then 1 else 0), r, w)
  }

  function Zeros(n: nat): seq<byte> {
    seq(n, _ => 0)
  }

  /** A wrapped writer already closer than `padding` to the reader: the code takes what lies behind it for room. */
  lemma OverrunWithoutGap(s: Ring, data: seq<byte>, junk: nat -> byte)
    requires Valid(s) && |data| <= MAX_OBJECT && !HasGap(s.r, s.w) && s.w + |data| >= s.r
    ensures !Appended(s, data, Append(s, data, junk))
  {}

  /** Reader below the gap: the wrapped writable size never asks for growth, and the writer runs over the reader. */
  lemma OverrunBelowPadding(s: Ring, data: seq<byte>, junk: nat -> byte)
    requires Valid(s) && |data| <= MAX_OBJECT
    requires s.r < PADDING && HasGap(s.r, s.w) && !AppendSound(s.r, s.w, |s.buf|, |data|)
    ensures !Appended(s, data, Append(s, data, junk))
  {}

  lemma ZerosStayZero(t: Ring, n: nat, i: nat)
    requires Machine(t) && n <= MAX_OBJECT && i < |t.buf| && t.buf[i] == 0
    ensures var out := Store(t, Zeros(n));
      out.Done? ==> out.ring.r == t.r && i < |out.ring.buf| && out.ring.buf[i] == 0
  {
    var data, room := Zeros(n), Wrap(|t.buf| - t.w);
    var out := Store(t, data);
    if out.Done? && data != [] {
      if t.w < t.r || room >= n {
        BlitAt(t.buf, t.w, data, i);
      } else {
        BlitAt(t.buf, t.w, data[..room], i);
        BlitAt(Blit(t.buf, t.w, data[..room]), 0, data[room..], i);
      }
    }
  }

  /** Growth of an unwrapped ring copies from the wrong place unless the reader is at `padding`. */
  lemma UnwrappedGrowthShifts(s: Ring, n: nat, junk: nat -> byte)
    requires Valid(s) && PADDING < s.r <= s.w && n <= MAX_OBJECT && Grows(s.r, s.w, |s.buf|, n)
    requires s.buf[s.r] == 1 && (2 * s.r - PADDING < |s.buf| ==> s.buf[2 * s.r - PADDING] == 0)
    ensures !Appended(s, Zeros(n), Append(s, Zeros(n), junk))
  {
    var grown := MakeMemory(s, n, junk);
    if grown.Done? {
      assert grown.ring.buf[s.r] == s.buf[2 * s.r - PADDING] == 0;
      ZerosStayZero(grown.ring, n, s.r);
      FirstByteDiffers(s, n, Store(grown.ring, Zeros(n)));
    }
  }

  lemma FirstByteDiffers(s: Ring, n: nat, out: Outcome)
    requires Valid(s) && s.r < s.w && s.buf[s.r] == 1
    requires out.Done? ==> out.ring.r == s.r < |out.ring.buf| && out.ring.buf[s.r] == 0
    ensures !Appended(s, Zeros(n), out)
  {
    assert (Contents(s) + Zeros(n))[0] == s.buf[s.r];
  }

  /** Storing changes the number of queued bytes by |data|, give or take the array's size. */
  lemma StoredSize(t: Ring, data: seq<byte>)
    requires Machine(t) && t.w <= |t.buf| && |data| <= MAX_OBJECT
    requires Store(t, data).Done? && InRange(Store(t, data).ring)
    ensures var excess := |Contents(Store(t, data).ring)| - |data| - (t.w - t.r);
      if t.w < t.r then excess == 0 || excess == |t.buf| else excess == 0 || excess == -|t.buf|
    ensures t.w < t.r && |Contents(Store(t, data).ring)| - |data| - (t.w - t.r) == |t.buf| ==>
      t.w + |data| < t.r
  {
    if data == [] { assert Store(t, data).ring == t; }
  }

  /** The size line 145 computes after the first relocation branch. */
  lemma MiscountedLength(u: Ring, w: nat, n: nat)
    requires PADDING < |u.buf| <= MAX_OBJECT && w <= MAX_OBJECT && n <= MAX_OBJECT
    requires u.r == PADDING && u.w == |u.buf| - PADDING + w
    ensures Machine(u) && NewLength(u, n) == Wrap(|u.buf| + 2 * (n + w - PADDING))
  {
    assert WritedSize(u) == Wrap(PADDING - w);
    assert Wrap(n - WritedSize(u)) == Wrap(n + w - PADDING);
  }

  /** The first relocation branch misplaces the write index unless the reader was at twice `padding`. */
  lemma RelocationMiscounts(s: Ring, data: seq<byte>, junk: nat -> byte)
    requires Valid(s) && s.w < s.r && |data| <= MAX_OBJECT && Grows(s.r, s.w, |s.buf|, |data|)
    requires !GrowthSound(s.r, s.w, |s.buf|)
    ensures !Appended(s, data, Append(s, data, junk))
  {
    var u := Relocate(s).ring;
    assert u.r == PADDING && u.w == |s.buf| - PADDING + s.w;
    MiscountedLength(u, s.w, |data|);
    var grown := MakeMemory(s, |data|, junk);
    if grown.Done? && Store(grown.ring, data).Done? && InRange(Store(grown.ring, data).ring) {
      assert grown.ring.r == PADDING && grown.ring.w == u.w;
      StoredSize(grown.ring, data);
      assert |Contents(s)| == |s.buf| - s.r + s.w;
    }
  }

  /** Growth the address space cannot hold. */
  lemma GrowthRefused(s: Ring, data: seq<byte>, junk: nat -> byte)
    requires Valid(s) && |data| <= MAX_OBJECT && Grows(s.r, s.w, |s.buf|, |data|)
    requires GrowthSound(s.r, s.w, |s.buf|)
    requires |s.buf| + 2 * (|data| - Free(s)) > MAX_OBJECT
    ensures Append(s, data, junk) == NoMemory
  {
    ReadyToGrow(s, |data|);
  }

  /** Unsound indices: the append fails if the first queued byte is 1 and the byte growth would put there is 0. */
  lemma UnsoundAppend(s: Ring, n: nat, junk: nat -> byte)
    requires Valid(s) && n <= MAX_OBJECT && !AppendSound(s.r, s.w, |s.buf|, n)
    requires PADDING < s.r < s.w ==>
      s.buf[s.r] == 1 && (2 * s.r - PADDING < |s.buf| ==> s.buf[2 * s.r - PADDING] == 0)
    ensures !Appended(s, Zeros(n), Append(s, Zeros(n), junk))
  {
    if !HasGap(s.r, s.w) { OverrunWithoutGap(s, Zeros(n), junk); }
    else if s.r < PADDING { OverrunBelowPadding(s, Zeros(n), junk); }
    else if GrowthSound(s.r, s.w, |s.buf|) { GrowthRefused(s, Zeros(n), junk); }
    else if s.w < s.r { RelocationMiscounts(s, Zeros(n), junk); }
    else { UnwrappedGrowthShifts(s, n, junk); }
  }

  /**
    The exact condition: from valid indices, an append of n bytes is right
    for every array, every data and every content of fresh memory if and only if
    AppendSound holds of the indices.
   */
  lemma AppendExact(r: nat, w: nat, length: nat, n: nat)
    requires ValidAt(r, w, length) && n <= MAX_OBJECT
    ensures AppendSound(r, w, length, n) <==>
      forall b: seq<byte>, data: seq<byte>, junk: nat -> byte | |b| == length && |data| == n ::
        Appended(Ring(b, r, w), data, Append(Ring(b, r, w), data, junk))
  {
    if AppendSound(r, w, length, n) {
      forall b: seq<byte>, data: seq<byte>, junk: nat -> byte | |b| == length && |data| == n
        ensures Appended(Ring(b, r, w), data, Append(Ring(b, r, w), data, junk))
      {
        SoundAppend(Ring(b, r, w), data, junk);
      }
    } else {
      var s := Probe(r, w, length);
      UnsoundAppend(s, n, _ => 0);
      assert !Appended(Ring(s.buf, r, w), Zeros(n), Append(Ring(s.buf, r, w), Zeros(n), _ => 0));
    }
  }

  /** A buffer shorter than the gap accepts no byte: its very first append writes outside the array. */
  lemma FreshAppendExact(length: nat, data: seq<byte>, junk: nat -> byte)
    requires length + 2 * |data| <= MAX_OBJECT
    ensures (Append(Fresh(length), data, junk) == OutOfBounds) <==> length < PADDING && data != []
    ensures length >= PADDING ==>
      Valid(Fresh(length)) && Appended(Fresh(length), data, Append(Fresh(length), data, junk))
  {
    if length >= PADDING { SoundAppend(Fresh(length), data, junk); }
  }

  /** Right or wrong, an append that ends normally leaves indices inside the array. */
  lemma DoneIsIndexed(s: Ring, data: seq<byte>, junk: nat -> byte)
    requires Indexed(s) && |data| <= MAX_OBJECT && Append(s, data, junk).Done?
    ensures Indexed(Append(s, data, junk).ring)
  {
    if WritedSize(s) < |data| {
      GrownIsIndexed(s, |data|, junk);
    }
  }

  lemma GrownIsIndexed(s: Ring, n: nat, junk: nat -> byte)
    requires Indexed(s) && n <= MAX_OBJECT && WritedSize(s) < n && MakeMemory(s, n, junk).Done?
    ensures var t := MakeMemory(s, n, junk).ring;
      t.w <= |t.buf| <= MAX_OBJECT && ((t.r <= |t.buf| && PADDING <= |t.buf|) || (t.w + n > |t.buf| && t.w < t.r))
  {
    var u := Relocate(s).ring;
    if s.w < s.r && |s.buf| - s.r > s.w {
      MiscountedLength(u, s.w, n);
    } else {
      assert WritedSize(u) <= n;
    }
  }
}
