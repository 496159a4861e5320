/**
  Which streams does the server serve right? A connection's chunk lengths decide
  it: from sound lengths every stream is served as a plain queue would be, from
  all others some stream is not, and streams that fail are given.
 */
module ReassemblyExact {
  import opened Bytes
  import opened Ring
  import opened RingAppend
  import opened RingRuns
  import opened Reassembly

  // ------------------------------------------------------------------------
  // Chunk lengths from which every event is right
  // ------------------------------------------------------------------------

  /** Lengths a read can have. */
  predicate Readable(ns: seq<nat>) {
    forall i :: 0 <= i < |ns| ==> ns[i] <= MAX_OBJECT
  }

  ghost function Lengths(cs: seq<Op>): seq<nat> {
    if cs == [] then [] else [|In(cs[0])|] + Lengths(cs[1..])
  }

  function Queued(x: Shape): nat
    requires x.r <= x.length
  {
    QueuedAt(x.r, x.w, x.length)
  }

  /** Where an event with n new bytes leaves the indices. */
  function ShapeReceive(x: Shape, n: nat): (y: Shape)
    requires ValidShape(x) && AppendSound(x.r, x.w, x.length, n)
    ensures ValidShape(y)
    ensures Queued(y) == if Queued(x) + n < PACKAGE_SIZE then Queued(x) + n else Queued(x) + n - PACKAGE_SIZE
  {
    var y := ShapeAppend(x, n);
    if Queued(y) < PACKAGE_SIZE then y
    else ShapeSkip(ShapeSkip(ShapeSkip(y, WORD_SIZE), WORD_SIZE), WORD_SIZE)
  }

  /** Every append on the way is sound; a matter of lengths alone. */
  predicate SoundLengths(x: Shape, ns: seq<nat>)
    requires ValidShape(x)
    decreases |ns|
  {
    ns == [] || (AppendSound(x.r, x.w, x.length, ns[0]) && SoundLengths(ShapeReceive(x, ns[0]), ns[1..]))
  }

  lemma {:induction false} TakingShape(t: Ring)
    requires Valid(t)
    ensures var (u, out) := Taking(t);
      Valid(u) && ShapeOf(u) == if Queued(ShapeOf(t)) < PACKAGE_SIZE then ShapeOf(t)
        else ShapeSkip(ShapeSkip(ShapeSkip(ShapeOf(t), WORD_SIZE), WORD_SIZE), WORD_SIZE)
  {
    if ReadedSize(t) >= PACKAGE_SIZE {
      TakeWordIsHead(t);
      SkipDropsPrefix(t, WORD_SIZE);
      var s1 := Skip(t, WORD_SIZE);
      SkipDropsPrefix(s1, WORD_SIZE);
      TakeWordIsHead(s1);
      var s2 := Skip(s1, WORD_SIZE);
      SkipDropsPrefix(s2, WORD_SIZE);
      SkipShape(t, WORD_SIZE);
      SkipShape(s1, WORD_SIZE);
      SkipShape(s2, WORD_SIZE);
    }
  }

  lemma SkipShape(s: Ring, len: nat)
    requires Valid(s) && len <= ReadedSize(s)
    ensures ShapeOf(Skip(s, len)) == ShapeSkip(ShapeOf(s), len)
  {}

  lemma {:induction false} SoundReceive(s: Ring, c: Op)
    requires Valid(s) && c.Put? && |c.data| <= MAX_OBJECT && AppendSound(s.r, s.w, |s.buf|, |c.data|)
    ensures ReceivedRight(s, c)
    ensures var t := Receive(s, c).value.0; Valid(t) && ShapeOf(t) == ShapeReceive(ShapeOf(s), |c.data|)
  {
    SoundAppend(s, c.data, c.junk);
    ReceivedRightExactly(s, c);
    TakingShape(Append(s, c.data, c.junk).ring);
  }

  /** From sound lengths the server decodes what cutting a plain queue would give, wherever the ring wraps or grows. */
  lemma {:induction false} SoundLengthsServeRight(s: Ring, cs: seq<Op>)
    requires Valid(s) && Chunks(cs) && SoundLengths(ShapeOf(s), Lengths(cs))
    ensures ServedRight(s, cs)
    decreases |cs|
  {
    if cs != [] {
      assert Lengths(cs)[1..] == Lengths(cs[1..]);
      SoundReceive(s, cs[0]);
      SoundLengthsServeRight(Receive(s, cs[0]).value.0, cs[1..]);
    }
  }

  // ------------------------------------------------------------------------
  // Other lengths: some stream is served wrong
  // ------------------------------------------------------------------------

  predicate InQueue(s: Ring, i: nat) {
    if s.w < s.r then i < s.w || s.r <= i else s.r <= i < s.w
  }

  /** Nothing but zeros outside the queue. */
  predicate Clean(s: Ring) {
    forall i :: 0 <= i < |s.buf| && !InQueue(s, i) ==> s.buf[i] == 0
  }

  const NO_JUNK: nat -> byte := _ => 0

  lemma CleanStore(s: Ring, data: seq<byte>)
    requires Valid(s) && |data| <= MAX_OBJECT && Clean(s)
    requires AppendSound(s.r, s.w, |s.buf|, |data|) && !Grows(s.r, s.w, |s.buf|, |data|)
    ensures Store(s, data).Done? && Clean(Store(s, data).ring)
  {
    StoreFits(s, data);
    var t, room := Store(s, data).ring, |s.buf| - s.w;
    forall i | 0 <= i < |t.buf| && !InQueue(t, i) ensures t.buf[i] == 0 {
      if data != [] {
        if s.w < s.r || room >= |data| {
          BlitAt(s.buf, s.w, data, i);
        } else {
          BlitAt(s.buf, s.w, data[..room], i);
          BlitAt(Blit(s.buf, s.w, data[..room]), 0, data[room..], i);
        }
      }
    }
  }

  lemma CleanGrowth(s: Ring, n: nat)
    requires Valid(s) && n <= MAX_OBJECT && Clean(s)
    requires AppendSound(s.r, s.w, |s.buf|, n) && Grows(s.r, s.w, |s.buf|, n)
    ensures MakeMemory(s, n, NO_JUNK).Done? && Clean(MakeMemory(s, n, NO_JUNK).ring)
  {
    ReadyToGrow(s, n);
    GrowthMakesRoom(s, n, NO_JUNK);
    var u, t := Relocate(s).ring, MakeMemory(s, n, NO_JUNK).ring;
    CleanGap(s);
    assert forall i :: 0 <= i < u.w ==> t.buf[i] == u.buf[i];
  }

  /** The gap before the reader moves with the queue. */
  lemma CleanGap(s: Ring)
    requires Valid(s) && Clean(s) && GrowthSound(s.r, s.w, |s.buf|) && Relocate(s).Done?
    ensures forall i :: 0 <= i < PADDING ==> Relocate(s).ring.buf[i] == 0
  {
    if s.w < s.r {
      var back, u := s.buf[s.r - PADDING..], Relocate(s).ring;
      TwoBlits(s.buf, back, s.buf[..s.w]);
      forall i | 0 <= i < PADDING ensures u.buf[i] == 0 {
        assert u.buf[i] == u.buf[..|back|][i] == back[i];
      }
    }
  }

  lemma CleanAppend(s: Ring, data: seq<byte>)
    requires Valid(s) && |data| <= MAX_OBJECT && Clean(s) && AppendSound(s.r, s.w, |s.buf|, |data|)
    ensures Append(s, data, NO_JUNK).Done? && Clean(Append(s, data, NO_JUNK).ring)
  {
    if Grows(s.r, s.w, |s.buf|, |data|) {
      CleanGrowth(s, |data|);
      ReadyToGrow(s, |data|);
      GrowthMakesRoom(s, |data|, NO_JUNK);
      CleanStore(MakeMemory(s, |data|, NO_JUNK).ring, data);
    } else {
      AppendInPlace(s, data, NO_JUNK);
      CleanStore(s, data);
    }
  }

  lemma CleanSkip(s: Ring, len: nat)
    requires Valid(s) && len <= ReadedSize(s) && Clean(s)
    requires forall j :: 0 <= j < len ==> Contents(s)[j] == 0
    ensures Clean(Skip(s, len))
  {
    var t, q, tail := Skip(s, len), Contents(s), |s.buf| - s.r;
    forall i | 0 <= i < |t.buf| && !InQueue(t, i) ensures t.buf[i] == 0 {
      if InQueue(s, i) {
        var j := if s.w < s.r && i < s.w then tail + i else i - s.r;
        assert q[j] == s.buf[i];
      }
    }
  }

  /** n zeros but for a one at the mark, if the mark is among them. */
  function Pattern(n: nat, mark: int): seq<byte> {
    seq(n, i => if i == mark then 1 else 0)
  }

  /** How far from the front of the queue the byte lies that will be first when the first unsound append comes. */
  function Mark(x: Shape, ns: seq<nat>): nat
    requires ValidShape(x) && !SoundLengths(x, ns)
    decreases |ns|
  {
    if !AppendSound(x.r, x.w, x.length, ns[0]) then 0
    else (if Queued(x) + ns[0] < PACKAGE_SIZE then 0 else PACKAGE_SIZE) + Mark(ShapeReceive(x, ns[0]), ns[1..])
  }

  ghost function Blank(ns: seq<nat>): seq<Op> {
    if ns == [] then [] else [Put(Zeros(ns[0]), NO_JUNK)] + Blank(ns[1..])
  }

  lemma {:induction false} BlankHasLengths(ns: seq<nat>)
    requires Readable(ns)
    ensures Chunks(Blank(ns)) && Lengths(Blank(ns)) == ns
  {
    if ns != [] {
      BlankHasLengths(ns[1..]);
      ChunksCons(Put(Zeros(ns[0]), NO_JUNK), Blank(ns[1..]));
      assert ns == [ns[0]] + ns[1..];
    }
  }

  lemma {:induction false} ChunksCons(c: Op, cs: seq<Op>)
    requires c.Put? && |c.data| <= MAX_OBJECT && Chunks(cs)
    ensures Chunks([c] + cs) && Lengths([c] + cs) == [|c.data|] + Lengths(cs)
  {
    assert ([c] + cs)[1..] == cs;
  }

  /** A marked, otherwise blank queue: the unsound append is seen to go wrong. */
  lemma {:induction false} MarkedAppendFails(s: Ring, n: nat)
    requires Valid(s) && n <= MAX_OBJECT && Clean(s) && !AppendSound(s.r, s.w, |s.buf|, n)
    requires Contents(s) == Pattern(|Contents(s)|, 0)
    ensures !ReceivedRight(s, Put(Zeros(n), NO_JUNK))
  {
    if PADDING < s.r < s.w {
      var i := 2 * s.r - PADDING;
      assert Contents(s)[0] == s.buf[s.r];
      if i < |s.buf| && InQueue(s, i) { assert Contents(s)[i - s.r] == s.buf[i]; }
    }
    UnsoundAppend(s, n, NO_JUNK);
    ReceivedRightExactly(s, Put(Zeros(n), NO_JUNK));
  }

  /** A sound event on a marked queue leaves a marked queue, the mark nearer by what was decoded. */
  lemma {:induction false} MarkedReceive(s: Ring, n: nat, mark: nat)
    requires Valid(s) && n <= MAX_OBJECT && Clean(s) && AppendSound(s.r, s.w, |s.buf|, n)
    requires Contents(s) == Pattern(|Contents(s)|, mark)
    requires |Contents(s)| + n >= PACKAGE_SIZE ==> mark >= PACKAGE_SIZE
    ensures var r := Receive(s, Put(Pattern(n, mark - |Contents(s)|), NO_JUNK));
      r.Some? && Indexed(r.value.0) && Clean(r.value.0)
      && Contents(r.value.0) == Pattern(|Contents(r.value.0)|,
           mark - if |Contents(s)| + n < PACKAGE_SIZE then 0 else PACKAGE_SIZE)
  {
    MarkedAppend(s, n, mark);
    MarkedTaking(Append(s, Pattern(n, mark - |Contents(s)|), NO_JUNK).ring, mark);
  }

  lemma {:induction false} MarkedAppend(s: Ring, n: nat, mark: nat)
    requires Valid(s) && n <= MAX_OBJECT && Clean(s) && AppendSound(s.r, s.w, |s.buf|, n)
    requires Contents(s) == Pattern(|Contents(s)|, mark)
    ensures var out := Append(s, Pattern(n, mark - |Contents(s)|), NO_JUNK);
      && out.Done? && Valid(out.ring) && Clean(out.ring)
      && Contents(out.ring) == Pattern(|Contents(s)| + n, mark)
  {
    var data := Pattern(n, mark - |Contents(s)|);
    SoundAppend(s, data, NO_JUNK);
    CleanAppend(s, data);
  }

  lemma {:induction false} MarkedTaking(t: Ring, mark: nat)
    requires Valid(t) && Clean(t) && Contents(t) == Pattern(|Contents(t)|, mark)
    requires |Contents(t)| >= PACKAGE_SIZE ==> mark >= PACKAGE_SIZE
    ensures var u := Taking(t).0;
      Indexed(u) && Clean(u)
      && Contents(u) == Pattern(|Contents(u)|, mark - if |Contents(t)| < PACKAGE_SIZE then 0 else PACKAGE_SIZE)
  {
    QueuedSize(t);
    if ReadedSize(t) >= PACKAGE_SIZE { MarkedTake(t, mark); }
  }

  lemma {:induction false} MarkedTake(t: Ring, mark: nat)
    requires Valid(t) && Clean(t) && ReadedSize(t) >= PACKAGE_SIZE && mark >= PACKAGE_SIZE
    requires Contents(t) == Pattern(|Contents(t)|, mark)
    ensures var u := TakePackage(t).1;
      Indexed(u) && Clean(u) && Contents(u) == Pattern(|Contents(u)|, mark - PACKAGE_SIZE)
  {
    MarkedSkip(t, mark);
    var s1 := Skip(t, WORD_SIZE);
    MarkedSkip(s1, mark - 8);
    var s2 := Skip(s1, WORD_SIZE);
    MarkedSkip(s2, mark - 16);
  }

  lemma MarkedSkip(t: Ring, mark: nat)
    requires Valid(t) && Clean(t) && ReadedSize(t) >= WORD_SIZE && mark >= WORD_SIZE
    requires Contents(t) == Pattern(|Contents(t)|, mark)
    ensures var u := Skip(t, WORD_SIZE);
      && Valid(u) && Clean(u) && ReadedSize(u) == ReadedSize(t) - WORD_SIZE
      && Contents(u) == Pattern(|Contents(u)|, mark - WORD_SIZE)
  {
    CleanSkip(t, WORD_SIZE);
    SkipDropsPrefix(t, WORD_SIZE);
  }

  /** The queue holds the mark at the distance at which the first unsound append of ns will find it. */
  ghost predicate Marked(s: Ring, ns: seq<nat>) {
    && Valid(s) && Clean(s) && !SoundLengths(ShapeOf(s), ns)
    && Contents(s) == Pattern(|Contents(s)|, Mark(ShapeOf(s), ns))
  }

  lemma {:induction false} WrongNow(s: Ring, ns: seq<nat>)
    requires Marked(s, ns) && Readable(ns) && !AppendSound(s.r, s.w, |s.buf|, ns[0])
    ensures Chunks(Blank(ns)) && Lengths(Blank(ns)) == ns && !ServedRight(s, Blank(ns))
  {
    MarkedAppendFails(s, ns[0]);
    BlankHasLengths(ns);
    assert Blank(ns)[0] == Put(Zeros(ns[0]), NO_JUNK);
  }

  lemma {:induction false} MarkedStep(s: Ring, ns: seq<nat>) returns (c: Op)
    requires Marked(s, ns) && Readable(ns) && AppendSound(s.r, s.w, |s.buf|, ns[0])
    ensures c.Put? && |c.data| == ns[0] <= MAX_OBJECT && ReceivedRight(s, c)
    ensures Marked(Receive(s, c).value.0, ns[1..])
  {
    var n, mark := ns[0], Mark(ShapeOf(s), ns);
    QueuedSize(s);
    MarkedReceive(s, n, mark);
    SoundReceive(s, Put(Pattern(n, mark - |Contents(s)|), NO_JUNK));
    c := Put(Pattern(n, mark - |Contents(s)|), NO_JUNK);
  }

  /** The bytes of a stream with these lengths that is served wrong. */
  lemma {:induction false} WrongStream(s: Ring, ns: seq<nat>) returns (cs: seq<Op>)
    requires Marked(s, ns) && Readable(ns)
    ensures Chunks(cs) && Lengths(cs) == ns && !ServedRight(s, cs)
    decreases |ns|
  {
    if !AppendSound(s.r, s.w, |s.buf|, ns[0]) {
      WrongNow(s, ns);
      cs := Blank(ns);
    } else {
      var c := MarkedStep(s, ns);
      var rest := WrongStream(Receive(s, c).value.0, ns[1..]);
      WrongLater(s, c, rest);
      assert ns == [ns[0]] + ns[1..];
      cs := [c] + rest;
    }
  }

  lemma {:induction false} WrongLater(s: Ring, c: Op, cs: seq<Op>)
    requires Indexed(s) && c.Put? && |c.data| <= MAX_OBJECT && Chunks(cs)
    requires ReceivedRight(s, c) && !ServedRight(Receive(s, c).value.0, cs)
    ensures Chunks([c] + cs) && Lengths([c] + cs) == [|c.data|] + Lengths(cs)
    ensures !ServedRight(s, [c] + cs)
  {
    ChunksCons(c, cs);
    assert ([c] + cs)[1..] == cs;
  }

  /**
    The exact condition, in chunk lengths: on a new connection every stream cut into chunks of these
    lengths is served right if and only if SoundLengths holds of them.
   */
  lemma {:induction false} ServerExact(length: nat, ns: seq<nat>)
    requires PADDING <= length <= MAX_OBJECT && Readable(ns)
    ensures SoundLengths(Shape(PADDING, PADDING, length), ns) <==>
      forall cs: seq<Op> | Chunks(cs) && Lengths(cs) == ns :: ServedRight(Fresh(length), cs)
  {
    var s := Fresh(length);
    if SoundLengths(ShapeOf(s), ns) {
      forall cs: seq<Op> | Chunks(cs) && Lengths(cs) == ns ensures ServedRight(s, cs) {
        SoundLengthsServeRight(s, cs);
      }
    } else {
      var cs := WrongStream(s, ns);
    }
  }

  /** However a stream of sent packages is cut into chunks of sound lengths, what is decoded is a prefix of what was sent. */
  lemma {:induction false} DecodedIsPrefixOfSent(s: Ring, cs: seq<Op>, sent: seq<Package>)
    requires Valid(s) && Contents(s) == [] && Chunks(cs) && SoundLengths(ShapeOf(s), Lengths(cs))
    requires forall p :: p in sent ==> Sendable(p)
    requires Input(cs) <= WireAll(sent)
    ensures var r := Serve(s, cs);
      && r.Some? && r.value.1 <= sent
      && Indexed(r.value.0) && Input(cs) == WireAll(r.value.1) + Contents(r.value.0)
  {
    SoundLengthsServeRight(s, cs);
    ServeRefines(s, cs);
    QueueReceivesConserve([], cs);
    var (rest, out) := QueueReceives([], cs);
    assert [] + Input(cs) == Input(cs);
    WirePrefix(out, rest, sent);
  }

  /** Chunks that fit the capacity beside what is pending are sound: no growth, nothing to know about the ring. */
  predicate FittingLengths(pending: nat, capacity: nat, ns: seq<nat>)
    decreases |ns|
  {
    ns == [] ||
    (pending + ns[0] <= capacity &&
     FittingLengths(if pending + ns[0] < PACKAGE_SIZE then pending + ns[0] else pending + ns[0] - PACKAGE_SIZE,
                    capacity, ns[1..]))
  }

  lemma FittingEvent(x: Shape, n: nat)
    requires ValidShape(x) && Queued(x) + n <= x.length - PADDING
    ensures AppendSound(x.r, x.w, x.length, n) && ShapeReceive(x, n).length == x.length
  {
    assert ShapeAppend(x, n).length == x.length;
  }

  lemma {:induction false} FittingIsSound(x: Shape, ns: seq<nat>)
    requires ValidShape(x) && FittingLengths(Queued(x), x.length - PADDING, ns)
    ensures SoundLengths(x, ns)
    decreases |ns|
  {
    if ns != [] {
      FittingEvent(x, ns[0]);
      FittingIsSound(ShapeReceive(x, ns[0]), ns[1..]);
    }
  }

  // ------------------------------------------------------------------------
  // Streams that a new connection serves wrong
  // ------------------------------------------------------------------------

  /** Reads of 48 and then 45 bytes: the second append reads outside the buffer. */
  lemma {:induction false} SecondReadFaults(a: seq<byte>, b: seq<byte>, junk: nat -> byte)
    requires |a| == 48 && |b| == 45
    ensures var s, c, d := Fresh(RBUFFER_SIZE), Put(a, junk), Put(b, junk);
      && ReceivedRight(s, c) && Append(Receive(s, c).value.0, b, junk) == OutOfBounds
      && Chunks([c, d]) && Serve(s, [c, d]) == None
  {
    var s, c, d := Fresh(RBUFFER_SIZE), Put(a, junk), Put(b, junk);
    FirstRead(a, junk);
    var t := Receive(s, c).value.0;
    GrowthReadsOutside(t, b, junk);
    assert [c, d][1..] == [d];
    assert Serve(t, [d]) == None;
  }

  /** The first read of two packages or less, but at least one: it is served right and leaves the reader at 28. */
  lemma {:induction false} FirstRead(a: seq<byte>, junk: nat -> byte)
    requires PACKAGE_SIZE < |a| <= 48
    ensures var s, c := Fresh(RBUFFER_SIZE), Put(a, junk);
      && ReceivedRight(s, c) && Receive(s, c).value.1 == [Parse(a)]
      && (var t := Receive(s, c).value.0;
          Valid(t) && ShapeOf(t) == Shape(28, 4 + |a|, RBUFFER_SIZE) && Contents(t) == a[PACKAGE_SIZE..])
  {
    var s, c := Fresh(RBUFFER_SIZE), Put(a, junk);
    SoundReceive(s, c);
    FirstShape(|a|);
    assert Contents(s) == [] && [] + a == a;
  }

  lemma FirstShape(n: nat)
    requires PACKAGE_SIZE < n <= 48
    ensures ShapeReceive(Shape(PADDING, PADDING, RBUFFER_SIZE), n) == Shape(28, 4 + n, RBUFFER_SIZE)
  {}

  lemma GrowthReadsOutside(t: Ring, b: seq<byte>, junk: nat -> byte)
    requires ShapeOf(t) == Shape(28, 52, RBUFFER_SIZE) && |b| == 45
    ensures Append(t, b, junk) == OutOfBounds
  {}

  /** Reads of 44 and then 49 bytes: the second package decoded begins with twenty zeros, whatever was sent. */
  lemma {:induction false} SecondPackageIsMadeUp(a: seq<byte>, b: seq<byte>, junk: nat -> byte)
    requires |a| == 44 && |b| == 49
    ensures var s := Fresh(RBUFFER_SIZE);
      && ReceivedRight(s, Put(a, junk))
      && (var t := Receive(s, Put(a, junk)).value.0;
          && Indexed(t) && Contents(t) == a[24..]
          && Receive(t, Put(b, junk)).Some?
          && Receive(t, Put(b, junk)).value.1 == [Parse(Zeros(20) + b)])
  {
    FirstRead(a, junk);
    FirstReadLeavesZeros(a, junk);
    var t := Receive(Fresh(RBUFFER_SIZE), Put(a, junk)).value.0;
    MadeUpQueue(t, b, junk);
    var u := Append(t, b, junk).ring;
    TakingIsCut(u);
  }

  lemma {:induction false} MadeUpQueue(t: Ring, b: seq<byte>, junk: nat -> byte)
    requires ShapeOf(t) == Shape(28, 48, RBUFFER_SIZE) && t.buf[52..72] == Zeros(20) && |b| == 49
    ensures var out := Append(t, b, junk);
      out.Done? && Indexed(out.ring) && Contents(out.ring) == Zeros(20) + b
  {
    var g := MakeMemory(t, 49, junk).ring;
    assert g.r == 28 && g.w == 48 && |g.buf| == 74;
    assert g.buf[28..48] == t.buf[52..72];
    BlitsAcrossEnd(g.buf, 28, 48, b[..26], b[26..]);
    Rejoin(g.buf[28..48], b, 26);
  }

  lemma {:induction false} FirstReadLeavesZeros(a: seq<byte>, junk: nat -> byte)
    requires |a| == 44
    ensures var r := Receive(Fresh(RBUFFER_SIZE), Put(a, junk));
      r.Some? && |r.value.0.buf| == 72 && r.value.0.buf[52..72] == Zeros(20)
  {
    var s := Fresh(RBUFFER_SIZE);
    FirstRead(a, junk);
    AppendInPlace(s, a, junk);
    BlitOutside(s.buf, 4, a, 52, 72);
    TakingKeepsArray(Append(s, a, junk).ring);
  }

  lemma {:induction false} TakingKeepsArray(t: Ring)
    requires Indexed(t)
    ensures Taking(t).0.buf == t.buf
  {
    if ReadedSize(t) >= PACKAGE_SIZE {
      var s1 := Skip(t, WORD_SIZE);
      TakeWordIsHead(t);
      TakeWordIsHead(s1);
      var s2 := Skip(s1, WORD_SIZE);
      assert s2.buf == s1.buf == t.buf;
      assert Skip(s2, WORD_SIZE).buf == s2.buf;
    }
  }
}
