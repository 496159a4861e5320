/**
  The client's side of the RTT exchange (set/rtt/rtt_client.cpp): what the two
  results mean in terms of network delays and clock offset. Clocks are
  microsecond counters of 64 bits, so every difference is taken modulo 2^64.
 */
module Rtt {
  import opened Bytes
  import opened Ring
  import opened RingAppend
  import opened Reassembly
  import opened ReassemblyExact
  import opened RttServer
  import CB = CirculationBuffer

  /** The reading of a 64-bit counter at time t. */
  function Clock(t: int): (u: nat)
    ensures u < WORD
  {
    t % WORD
  }

  /** `a - b` on `uint64_t`. */
  function Minus(a: nat, b: nat): (d: nat)
    requires a < WORD && b < WORD
    ensures d < WORD
  {
    Wrap(a - b)
  }

  function Field(image: seq<byte>, at: nat): (x: nat)
    requires at + WORD_SIZE <= |image|
  {
    ByteSwap(FromLE(image[at..at + WORD_SIZE]), WORD_SIZE)
  }

  /** Lines 58-70: the fields of the reply in host order, the round trip and the clock difference. */
  function Results(cSend: nat, sRecv: nat, sSend: nat, recvTime: nat): (nat, nat)
    requires cSend < WORD && sRecv < WORD && sSend < WORD && recvTime < WORD
  {
    (Minus(Minus(recvTime, cSend), Minus(sSend, sRecv)),
     HalfGap(Minus(recvTime, sSend), Minus(sRecv, cSend)))
  }

  /** `(std::max(a, b) - std::min(a, b)) / 2`. */
  function HalfGap(a: nat, b: nat): nat {
    ((if a < b then b else a) - (if b < a then b else a)) / 2
  }

  lemma {:induction false} FieldOfWord(image: seq<byte>, at: nat, x: nat)
    requires at + WORD_SIZE <= |image| && x < Pow256(WORD_SIZE)
    requires image[at..at + WORD_SIZE] == Word(x)
    ensures Field(image, at) == x
  {
    NetworkToHost(Word(x));
    BytesOfWord(x);
  }

  lemma {:induction false} FieldsOfWire(p: Package)
    requires Sendable(p)
    ensures Field(Wire(p), 0) == p.cSendTs && Field(Wire(p), 8) == p.sRecvTs && Field(Wire(p), 16) == p.sSendTs
  {
    var image := Wire(p);
    assert image[0..8] == Word(p.cSendTs) && image[8..16] == Word(p.sRecvTs) && image[16..24] == Word(p.sSendTs);
    FieldOfWord(image, 0, p.cSendTs);
    FieldOfWord(image, 8, p.sRecvTs);
    FieldOfWord(image, 16, p.sSendTs);
  }

  /**
    A request at the front of the queue, wherever the ring wraps: what the server decodes, fills in and encodes
    again is read back by the client as its own timestamp and the two readings of the server's clock.
   */
  lemma {:induction false} ReplyReadBack(s: Ring, request: Package, sRecv: nat, sSend: nat)
    requires Indexed(s) && Sendable(request) && Wire(request) <= Contents(s)
    requires sRecv < Pow256(WORD_SIZE) && sSend < Pow256(WORD_SIZE)
    ensures ReadedSize(s) >= PACKAGE_SIZE
    ensures var reply := Wire(Package(TakePackage(s).0.cSendTs, sRecv, sSend));
      Field(reply, 0) == request.cSendTs && Field(reply, 8) == sRecv && Field(reply, 16) == sSend
  {
    QueuedSize(s);
    TakePackageIsParse(s);
    ParseOfFront(Contents(s), request);
    FieldsOfWire(Package(request.cSendTs, sRecv, sSend));
  }

  lemma {:induction false} ParseOfFront(q: seq<byte>, p: Package)
    requires Sendable(p) && Wire(p) <= q
    ensures Parse(q) == p
  {
    WireParsed(p);
    var w := Wire(p);
    assert q[..8] == w[..8] && q[8..16] == w[8..16] && q[16..24] == w[16..24];
  }

  /** Modular differences of clock readings are readings of the difference. */
  lemma MinusClock(s: int, t: int)
    ensures Minus(Clock(s), Clock(t)) == Clock(s - t)
  {
    var k := s / WORD - t / WORD;
    assert s - t == k * WORD + (Clock(s) - Clock(t));
    ModUnique(s - t, k, Clock(s) - Clock(t));
  }

  lemma ModUnique(x: int, k: int, d: int)
    requires x == k * WORD + d && -WORD < d < WORD
    ensures x % WORD == if d < 0 then d + WORD else d
  {}

  /**
    The exchange: sent at client time t, delay d1, processing p on a server whose clock is
    theta ahead, delay d2. The client's results for it.
   */
  function Exchange(t: int, theta: int, d1: nat, p: nat, d2: nat): (nat, nat) {
    Results(Clock(t), Clock(t + d1 + theta), Clock(t + d1 + theta + p), Clock(t + d1 + p + d2))
  }

  lemma ResultsOfReadings(sent: int, srecv: int, ssend: int, recv: int)
    ensures Results(Clock(sent), Clock(srecv), Clock(ssend), Clock(recv)) ==
      (Clock((recv - sent) - (ssend - srecv)), HalfGap(Clock(recv - ssend), Clock(srecv - sent)))
  {
    MinusClock(recv, sent);
    MinusClock(ssend, srecv);
    MinusClock(recv - sent, ssend - srecv);
    MinusClock(recv, ssend);
    MinusClock(srecv, sent);
  }

  /** Time of day and processing time cancel out. */
  lemma ExchangeDifferences(t: int, theta: int, d1: nat, p: nat, d2: nat)
    ensures Exchange(t, theta, d1, p, d2) ==
      (Clock(d1 + d2), HalfGap(Clock(d2 - theta), Clock(d1 + theta)))
  {
    var sent, srecv, ssend, recv := t, t + d1 + theta, t + d1 + theta + p, t + d1 + p + d2;
    ResultsOfReadings(sent, srecv, ssend, recv);
    assert (recv - sent) - (ssend - srecv) == d1 + d2;
    assert recv - ssend == d2 - theta && srecv - sent == d1 + theta;
  }

  /**
    The first result is the sum of the two delays, for every clock offset, every processing
    time and every position of the counters, exactly when that sum fits in 64 bits.
   */
  lemma RoundTripIsDelay(t: int, theta: int, d1: nat, p: nat, d2: nat)
    ensures Exchange(t, theta, d1, p, d2).0 == d1 + d2 <==> d1 + d2 < WORD
  {
    ExchangeDifferences(t, theta, d1, p, d2);
  }

  function Abs(x: int): nat {
    if x < 0 then -x else x
  }

  /** The second result always fits the signed 64-bit integer it is returned as. */
  lemma DifferenceFitsSigned(cSend: nat, sRecv: nat, sSend: nat, recvTime: nat)
    requires cSend < WORD && sRecv < WORD && sSend < WORD && recvTime < WORD
    ensures Results(cSend, sRecv, sSend, recvTime).1 < WORD / 2
  {}

  lemma WrappedGap(a: int, b: int)
    ensures HalfGap(Clock(a), Clock(b)) == Abs(b - a) / 2 <==>
      a / WORD == b / WORD || Abs(b - a) == WORD / 2
  {
    var m, d := b / WORD - a / WORD, Clock(b) - Clock(a);
    assert b - a == m * WORD + d;
    assert HalfGap(Clock(a), Clock(b)) == Abs(d) / 2;
    if m != 0 { WrapsApart(m, d); }
  }

  lemma WrapsApart(m: int, d: int)
    requires m != 0 && -WORD < d < WORD
    ensures Abs(d) / 2 == Abs(m * WORD + d) / 2 <==> Abs(m * WORD + d) == WORD / 2
  {
    if m >= 2 { assert m * WORD >= 2 * WORD; } else if m <= -2 { assert m * WORD <= -2 * WORD; }
  }

  /**
    The second result is half of |2 theta + d1 - d2| if and only if the two one-way differences,
    d2 - theta and d1 + theta, lie in the same turn of the 64-bit counter (or, by coincidence of
    the wrapped values, |2 theta + d1 - d2| is 2^63).
   */
  lemma DifferenceExact(t: int, theta: int, d1: nat, p: nat, d2: nat)
    ensures Exchange(t, theta, d1, p, d2).1 == Abs(2 * theta + d1 - d2) / 2 <==>
      (d2 - theta) / WORD == (d1 + theta) / WORD || Abs(2 * theta + d1 - d2) == WORD / 2
  {
    ExchangeDifferences(t, theta, d1, p, d2);
    WrappedGap(d2 - theta, d1 + theta);
  }

  /**
    For delays and offsets within the counter's range and short of the coincidence: exactly when
    the server's clock is at most d1 behind and at most d2 ahead of the client's.
   */
  lemma DifferenceWithinDelays(t: int, theta: int, d1: nat, p: nat, d2: nat)
    requires Abs(d2 - theta) < WORD && Abs(d1 + theta) < WORD && Abs(2 * theta + d1 - d2) != WORD / 2
    ensures Exchange(t, theta, d1, p, d2).1 == Abs(2 * theta + d1 - d2) / 2 <==> 0 - d1 <= theta <= d2
  {
    DifferenceExact(t, theta, d1, p, d2);
    SameTurn(d2 - theta, d1 + theta);
  }

  lemma SameTurn(a: int, b: int)
    requires Abs(a) < WORD && Abs(b) < WORD && a + b >= 0
    ensures a / WORD == b / WORD <==> a >= 0 && b >= 0
  {}

  /**
    Whenever the one-way differences lie in the same turn, the result misses the offset by no more than half
    the asymmetry of the delays, rounded up.
   */
  lemma DifferenceNearOffset(t: int, theta: int, d1: nat, p: nat, d2: nat)
    requires (d2 - theta) / WORD == (d1 + theta) / WORD || Abs(2 * theta + d1 - d2) == WORD / 2
    ensures Exchange(t, theta, d1, p, d2).1 == Abs(2 * theta + d1 - d2) / 2
    ensures Abs(Exchange(t, theta, d1, p, d2).1 - Abs(theta)) <= (Abs(d1 - d2) + 1) / 2
  {
    DifferenceExact(t, theta, d1, p, d2);
  }

  /** A server clock one second behind across a one-millisecond link: the estimate is off by almost 2^63. */
  lemma OffsetBeyondDelay(t: int, p: nat)
    ensures Exchange(t, -1_000_000, 1_000, p, 1_000).1 == WORD / 2 - 1_000_000
  {
    ExchangeDifferences(t, -1_000_000, 1_000, p, 1_000);
  }

  /** The bytes of successive reads. */
  ghost function Joined(chunks: seq<seq<byte>>): seq<byte> {
    if chunks == [] then [] else chunks[0] + Joined(chunks[1..])
  }

  /** A request reaches an idle connection in any pieces; the event that completes it answers. */
  method Deliver(rbuffer: CB.CirculationBuffer, chunks: seq<seq<byte>>, sRecv: nat, sSend: nat, ghost request: seq<byte>)
    returns (answer: seq<byte>)
    requires rbuffer.Valid() && rbuffer.Contents() == [] && rbuffer.buf.Length >= PADDING + PACKAGE_SIZE
    requires Joined(chunks) == request && |request| == PACKAGE_SIZE
    modifies rbuffer, rbuffer.buf
    ensures rbuffer.Valid() && rbuffer.Contents() == []
    ensures answer == request[..WORD_SIZE] + Word(sRecv) + Word(sSend)
  {
    var i, reply := 0, TooShort;
    while reply == TooShort
      invariant i <= |chunks| && rbuffer.Valid()
      invariant rbuffer.buf == old(rbuffer.buf) || fresh(rbuffer.buf)
      invariant rbuffer.buf.Length >= PADDING + PACKAGE_SIZE
      invariant reply == TooShort ==>
        rbuffer.Contents() + Joined(chunks[i..]) == request && |rbuffer.Contents()| < |request|
      invariant reply != TooShort ==>
        rbuffer.Contents() == [] && reply == Answer(request[..WORD_SIZE] + Word(sRecv) + Word(sSend))
      decreases |chunks| - i
    {
      NextPiece(rbuffer.Contents(), chunks, i, request);
      PieceFits(rbuffer.State(), |chunks[i]|);
      ghost var junk;
      reply, junk := OnReadable(rbuffer, chunks[i], sRecv, sSend);
      i := i + 1;
    }
    answer := reply.bytes;
  }

  lemma PieceFits(s: Ring, n: nat)
    requires Valid(s) && |Contents(s)| + n <= PACKAGE_SIZE && |s.buf| >= PADDING + PACKAGE_SIZE
    ensures AppendSound(s.r, s.w, |s.buf|, n) && ShapeReceive(ShapeOf(s), n).length == |s.buf|
  {
    QueuedSize(s);
    FittingEvent(ShapeOf(s), n);
  }

  /**
    End to end, with the server's own code in between: what the client computes from the answer to a
    request written at its time t are the results of the exchange.
   */
  method EndToEnd(rbuffer: CB.CirculationBuffer, chunks: seq<seq<byte>>, t: int, theta: int, d1: nat, p: nat, d2: nat)
    returns (roundTrip: nat, difference: nat)
    requires rbuffer.Valid() && rbuffer.Contents() == [] && rbuffer.buf.Length >= PADDING + PACKAGE_SIZE
    requires Joined(chunks) == Wire(Package(Clock(t), 0, 0))
    modifies rbuffer, rbuffer.buf
    ensures rbuffer.Valid() && rbuffer.Contents() == []
    ensures (roundTrip, difference) == Exchange(t, theta, d1, p, d2)
  {
    var sRecv, sSend := Clock(t + d1 + theta), Clock(t + d1 + theta + p);
    var pck := Deliver(rbuffer, chunks, sRecv, sSend, Joined(chunks));
    Pow256Eight();
    AnswerFields(Clock(t), sRecv, sSend);
    var r := Results(Field(pck, 0), Field(pck, 8), Field(pck, 16), Clock(t + d1 + p + d2));
    roundTrip, difference := r.0, r.1;
  }

  lemma NextPiece(q: seq<byte>, chunks: seq<seq<byte>>, i: nat, request: seq<byte>)
    requires i <= |chunks| && q + Joined(chunks[i..]) == request && |q| < |request|
    ensures i < |chunks|
    ensures (q + chunks[i]) + Joined(chunks[i + 1..]) == request
    ensures |q| + |chunks[i]| <= |request|
    ensures |q| + |chunks[i]| == |request| ==> q + chunks[i] == request
  {
    assert chunks[i..][1..] == chunks[i + 1..];
    Associate(q, chunks[i], Joined(chunks[i + 1..]));
  }

  lemma {:induction false} AnswerFields(cSend: nat, sRecv: nat, sSend: nat)
    requires cSend < Pow256(WORD_SIZE) && sRecv < Pow256(WORD_SIZE) && sSend < Pow256(WORD_SIZE)
    ensures var image := Wire(Package(cSend, 0, 0))[..WORD_SIZE] + Word(sRecv) + Word(sSend);
      Field(image, 0) == cSend && Field(image, 8) == sRecv && Field(image, 16) == sSend
  {
    assert Wire(Package(cSend, 0, 0))[..WORD_SIZE] == Word(cSend);
    assert Wire(Package(cSend, sRecv, sSend)) == Word(cSend) + Word(sRecv) + Word(sSend);
    FieldsOfWire(Package(cSend, sRecv, sSend));
  }
}
