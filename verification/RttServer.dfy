/**
  The server on one connection: it decodes one package per readable event
  (set/rtt/rtt_server.cpp:113-134), so it keeps up with some clients and falls
  behind others; a client that waits for its replies is always served.
 */
module RttServer {
  import opened Bytes
  import opened Ring
  import opened RingAppend
  import opened RingRuns
  import opened Reassembly
  import opened ReassemblyExact
  import CB = CirculationBuffer

  // ------------------------------------------------------------------------
  // One package per event: when the server keeps up
  // ------------------------------------------------------------------------

  /** After every event fewer bytes than a package are left queued. */
  ghost predicate KeepsUp(q: seq<byte>, cs: seq<Op>)
    decreases |cs|
  {
    cs == [] ||
    (var p := QueueReceive(q, In(cs[0])).0; |p| < PACKAGE_SIZE && KeepsUp(p, cs[1..]))
  }

  /** In the stream, of which `total` bytes came before, no chunk reaches past the end of a second package. */
  ghost predicate OneEndPerChunk(total: nat, cs: seq<Op>)
    decreases |cs|
  {
    cs == [] ||
    (&& (total + |In(cs[0])|) / PACKAGE_SIZE <= total / PACKAGE_SIZE + 1
     && OneEndPerChunk(total + |In(cs[0])|, cs[1..]))
  }

  lemma NextTotal(total: nat, n: nat)
    ensures (total + n) / PACKAGE_SIZE <= total / PACKAGE_SIZE + 1 <==>
      total % PACKAGE_SIZE + n < 2 * PACKAGE_SIZE
    ensures total % PACKAGE_SIZE + n < PACKAGE_SIZE ==> (total + n) % PACKAGE_SIZE == total % PACKAGE_SIZE + n
    ensures PACKAGE_SIZE <= total % PACKAGE_SIZE + n < 2 * PACKAGE_SIZE ==>
      (total + n) % PACKAGE_SIZE == total % PACKAGE_SIZE + n - PACKAGE_SIZE
  {}

  /** The server never falls behind if and only if no chunk of the stream completes two packages. */
  lemma {:induction false} KeepsUpExactly(q: seq<byte>, total: nat, cs: seq<Op>)
    requires |q| == total % PACKAGE_SIZE
    ensures KeepsUp(q, cs) <==> OneEndPerChunk(total, cs)
    decreases |cs|
  {
    if cs != [] {
      NextTotal(total, |In(cs[0])|);
      var p := QueueReceive(q, In(cs[0])).0;
      if |p| < PACKAGE_SIZE { KeepsUpExactly(p, total + |In(cs[0])|, cs[1..]); }
    }
  }

  lemma {:induction false} KeepingUpLeavesLittle(q: seq<byte>, cs: seq<Op>)
    requires |q| < PACKAGE_SIZE && KeepsUp(q, cs)
    ensures |QueueReceives(q, cs).0| < PACKAGE_SIZE
    decreases |cs|
  {
    if cs != [] { KeepingUpLeavesLittle(QueueReceive(q, In(cs[0])).0, cs[1..]); }
  }

  /** Two packages in one read: one is decoded, the other waits complete in the buffer, however long nothing comes. */
  lemma {:induction false} SecondPackageWaits(a: seq<byte>, junk: nat -> byte)
    requires |a| == 48
    ensures var r := Serve(Fresh(RBUFFER_SIZE), [Put(a, junk)]);
      && r.Some? && r.value.1 == [Parse(a)]
      && Indexed(r.value.0) && Contents(r.value.0) == a[24..] && !KeepsUp([], [Put(a, junk)])
  {
    FirstRead(a, junk);
    var s, c := Fresh(RBUFFER_SIZE), Put(a, junk);
    assert [] + a == a;
    assert [c][1..] == [];
    assert Serve(s, [c]) == Some((Receive(s, c).value.0, Receive(s, c).value.1 + []));
  }

  /**
    The client waits: of `total` bytes received, no byte belongs to a package after the first
    one that has not been decoded yet.
   */
  ghost predicate Waits(q: seq<byte>, total: nat, decoded: nat, cs: seq<Op>)
    decreases |cs|
  {
    cs == [] ||
    (&& total + |In(cs[0])| <= PACKAGE_SIZE * (decoded + 1)
     && (var (p, out) := QueueReceive(q, In(cs[0]));
         Waits(p, total + |In(cs[0])|, decoded + |out|, cs[1..])))
  }

  lemma WaitingStep(queued: nat, total: nat, decoded: nat, n: nat, left: nat, now: nat)
    requires queued == total - PACKAGE_SIZE * decoded && total + n <= PACKAGE_SIZE * (decoded + 1)
    requires now == (if queued + n < PACKAGE_SIZE then 0 else 1) && left == queued + n - PACKAGE_SIZE * now
    ensures queued + n <= PACKAGE_SIZE && left < PACKAGE_SIZE
    ensures left == total + n - PACKAGE_SIZE * (decoded + now)
  {}

  /** A waiting client's chunks fit a connection's 72-byte buffer. */
  lemma {:induction false} WaitingFits(q: seq<byte>, total: nat, decoded: nat, cs: seq<Op>)
    requires |q| == total - PACKAGE_SIZE * decoded < PACKAGE_SIZE && Waits(q, total, decoded, cs)
    ensures FittingLengths(|q|, RBUFFER_SIZE - PADDING, Lengths(cs))
    decreases |cs|
  {
    if cs != [] {
      var (p, out) := QueueReceive(q, In(cs[0]));
      WaitingStep(|q|, total, decoded, |In(cs[0])|, |p|, |out|);
      WaitingFits(p, total + |In(cs[0])|, decoded + |out|, cs[1..]);
      assert Lengths(cs)[1..] == Lengths(cs[1..]);
    }
  }

  /** And complete one package at most. */
  lemma {:induction false} WaitingKeepsUp(q: seq<byte>, total: nat, decoded: nat, cs: seq<Op>)
    requires |q| == total - PACKAGE_SIZE * decoded < PACKAGE_SIZE && Waits(q, total, decoded, cs)
    ensures KeepsUp(q, cs)
    decreases |cs|
  {
    if cs != [] {
      var (p, out) := QueueReceive(q, In(cs[0]));
      WaitingStep(|q|, total, decoded, |In(cs[0])|, |p|, |out|);
      WaitingKeepsUp(p, total + |In(cs[0])|, decoded + |out|, cs[1..]);
    }
  }

  /** For a client that waits for replies, a new connection decodes every complete package in order, however the stream is cut. */
  lemma {:induction false} WaitingClientIsServed(cs: seq<Op>, sent: seq<Package>)
    requires Chunks(cs) && Waits([], 0, 0, cs)
    requires forall p :: p in sent ==> Sendable(p)
    requires Input(cs) <= WireAll(sent)
    ensures var r := Serve(Fresh(RBUFFER_SIZE), cs);
      && |Input(cs)| / PACKAGE_SIZE <= |sent|
      && r.Some? && r.value.1 == sent[..|Input(cs)| / PACKAGE_SIZE]
  {
    var s := Fresh(RBUFFER_SIZE);
    WaitingFits([], 0, 0, cs);
    WaitingKeepsUp([], 0, 0, cs);
    FittingIsSound(ShapeOf(s), Lengths(cs));
    SoundLengthsServeRight(s, cs);
    ServeRefines(s, cs);
    KeepingUpLeavesLittle([], cs);
    DecodedIsPrefixOfSent(s, cs, sent);
    var (t, out) := Serve(s, cs).value;
    CompletePackages(|Input(cs)|, |out|, |Contents(t)|);
  }

  lemma CompletePackages(bytes: nat, packages: nat, rest: nat)
    requires bytes == PACKAGE_SIZE * packages + rest && rest < PACKAGE_SIZE
    ensures bytes / PACKAGE_SIZE == packages
  {}

  // ------------------------------------------------------------------------
  // The code itself
  // ------------------------------------------------------------------------

  /** What the event came to: an access outside the buffer or refused memory, too few bytes yet, or a reply. */
  datatype Reply = Failed | TooShort | Answer(bytes: seq<byte>)

  /** On a queue: the reply, and what is left. */
  ghost function ReplyTo(q: seq<byte>, recvClock: nat, sendClock: nat): (Reply, seq<byte>) {
    if |q| < PACKAGE_SIZE then (TooShort, q)
    else (Answer(q[..WORD_SIZE] + Word(recvClock) + Word(sendClock)), q[PACKAGE_SIZE..])
  }

  ghost function ReplyWith(out: seq<Package>, recvClock: nat, sendClock: nat): Reply {
    if out == [] then TooShort else Answer(Wire(Package(out[0].cSendTs, recvClock, sendClock)))
  }

  /** Decoding and encoding again gives back the bytes of the first word. */
  lemma {:induction false} CutInBytes(q: seq<byte>, recvClock: nat, sendClock: nat)
    ensures var (rest, out) := Cut(q);
      (ReplyWith(out, recvClock, sendClock), rest) == ReplyTo(q, recvClock, sendClock)
  {
    if |q| >= PACKAGE_SIZE { WordOfBytes(q[..WORD_SIZE]); }
  }

  /** An event of the model in bytes, and from sound indices in bytes of the old queue. */
  lemma {:induction false} EventInBytes(s: Ring, data: seq<byte>, junk: nat -> byte, recvClock: nat, sendClock: nat)
    requires Indexed(s) && |data| <= MAX_OBJECT
    ensures Receive(s, Put(data, junk)).Some? ==>
      (var (t, out) := Receive(s, Put(data, junk)).value;
       && InRange(Append(s, data, junk).ring) && Indexed(t)
       && (ReplyWith(out, recvClock, sendClock), Contents(t)) ==
          ReplyTo(Contents(Append(s, data, junk).ring), recvClock, sendClock))
    ensures Valid(s) && AppendSound(s.r, s.w, |s.buf|, |data|) ==>
      && Receive(s, Put(data, junk)).Some?
      && Contents(Append(s, data, junk).ring) == Contents(s) + data
      && (var t := Receive(s, Put(data, junk)).value.0;
          Valid(t) && ShapeOf(t) == ShapeReceive(ShapeOf(s), |data|))
  {
    var out := Append(s, data, junk);
    if Valid(s) && AppendSound(s.r, s.w, |s.buf|, |data|) {
      SoundAppend(s, data, junk);
      SoundReceive(s, Put(data, junk));
    }
    if out.Done? {
      DoneIsIndexed(s, data, junk);
      TakingIsCut(out.ring);
      CutInBytes(Contents(out.ring), recvClock, sendClock);
    }
  }

  /** Three peek/skip pairs (lines 124-129). */
  method ReadPackage(rbuffer: CB.CirculationBuffer) returns (pkg: Package)
    requires rbuffer.Indexed() && rbuffer.ReadedSize() >= PACKAGE_SIZE
    modifies rbuffer
    ensures rbuffer.buf == old(rbuffer.buf) && rbuffer.Indexed()
    ensures (pkg, rbuffer.State()) == TakePackage(old(rbuffer.State()))
    ensures pkg == Parse(old(rbuffer.Contents())) && rbuffer.Contents() == old(rbuffer.Contents())[PACKAGE_SIZE..]
  {
    TakePackageIsParse(rbuffer.State());
    TakeWordIsHead(rbuffer.State());
    pkg := Package(0, 0, 0);
    var ts := rbuffer.PeekInt(WORD_SIZE);
    pkg := pkg.(cSendTs := ts);
    rbuffer.SkipBytes(WORD_SIZE);
    TakeWordIsHead(rbuffer.State());
    ts := rbuffer.PeekInt(WORD_SIZE);
    pkg := pkg.(sRecvTs := ts);
    rbuffer.SkipBytes(WORD_SIZE);
    ts := rbuffer.PeekInt(WORD_SIZE);
    pkg := pkg.(sSendTs := ts);
    rbuffer.SkipBytes(WORD_SIZE);
  }

  /**
    Lines 113-135, from any state: one event of the model, answered with the timestamp decoded from
    the queue and the two readings of the server's clock. On the wire the first word of the answer
    is the first word of the queue byte for byte.
   */
  method OnReadable(rbuffer: CB.CirculationBuffer, data: seq<byte>, recvClock: nat, sendClock: nat)
    returns (reply: Reply, ghost junk: nat -> byte)
    requires rbuffer.Indexed() && |data| <= MAX_OBJECT
    modifies rbuffer, rbuffer.buf
    ensures rbuffer.buf == old(rbuffer.buf) || fresh(rbuffer.buf)
    ensures reply == Failed <==> Receive(old(rbuffer.State()), Put(data, junk)) == None
    ensures reply != Failed ==>
      (var (t, out) := Receive(old(rbuffer.State()), Put(data, junk)).value;
       rbuffer.Indexed() && rbuffer.State() == t && reply == ReplyWith(out, recvClock, sendClock))
    ensures reply != Failed ==>
      (var t := Append(old(rbuffer.State()), data, junk).ring;
       && rbuffer.Indexed() && InRange(t)
       && ReplyTo(Contents(t), recvClock, sendClock) == (reply, rbuffer.Contents()))
    ensures old(rbuffer.Valid() && AppendSound(rbuffer.readIndex, rbuffer.writeIndex, rbuffer.buf.Length, |data|)) ==>
      && rbuffer.Valid()
      && ShapeOf(rbuffer.State()) == ShapeReceive(ShapeOf(old(rbuffer.State())), |data|)
      && ReplyTo(old(rbuffer.Contents()) + data, recvClock, sendClock) == (reply, rbuffer.Contents())
  {
    ghost var s := rbuffer.State();
    var status;
    status, junk := rbuffer.Append(data);
    EventInBytes(s, data, junk, recvClock, sendClock);
    if status != CB.Completed {
      return Failed, junk;
    }
    if rbuffer.ReadedSize() < PACKAGE_SIZE {
      return TooShort, junk;
    }
    var pkg := ReadPackage(rbuffer);
    reply := Answer(Wire(Package(pkg.cSendTs, recvClock, sendClock)));
  }
}
