/**
  The server's side of the RTT exchange (set/rtt/rtt_server.cpp:113-134):
  bytes arrive in chunks of any size, go through the ring buffer, and are read
  back as 24-byte packages, one per readable event.
 */
module Reassembly {
  import opened Bytes
  import opened Ring
  import opened RingAppend
  import opened RingRuns

  /** `rtt_package` (set/rtt/rtt_common.h:7-12): three 64-bit timestamps. */
  datatype Package = Package(cSendTs: nat, sRecvTs: nat, sSendTs: nat)

  datatype Option<T> = None | Some(value: T)

  const WORD_SIZE := 8
  const PACKAGE_SIZE := 24

  /** `3 * sizeof(rtt_package)`, the size of a connection's read buffer (set/rtt/rtt_server.h:21-22). */
  const RBUFFER_SIZE := 72

  predicate Sendable(p: Package) {
    p.cSendTs < Pow256(WORD_SIZE) && p.sRecvTs < Pow256(WORD_SIZE) && p.sSendTs < Pow256(WORD_SIZE)
  }

  /** The memory image of `host2network(x)`. */
  function Word(x: nat): (s: seq<byte>)
    ensures |s| == WORD_SIZE
  {
    ToLE(ByteSwap(x, WORD_SIZE), WORD_SIZE)
  }

  /** The 24 bytes of a package whose fields were each put in network order. */
  function Wire(p: Package): (s: seq<byte>)
    ensures |s| == PACKAGE_SIZE
  {
    Word(p.cSendTs) + Word(p.sRecvTs) + Word(p.sSendTs)
  }

  ghost function WireAll(ps: seq<Package>): (s: seq<byte>)
    ensures |s| == PACKAGE_SIZE * |ps|
  {
    if ps == [] then [] else Wire(ps[0]) + WireAll(ps[1..])
  }

  // ------------------------------------------------------------------------
  // The reference: packages cut from a plain byte queue
  // ------------------------------------------------------------------------

  /** The package in the first 24 bytes of q, fields in network order. */
  ghost function Parse(q: seq<byte>): Package
    requires |q| >= PACKAGE_SIZE
  {
    Package(FromBE(q[..8]), FromBE(q[8..16]), FromBE(q[16..24]))
  }

  /** At most one package cut off the front of a queue. */
  ghost function Cut(q: seq<byte>): (r: (seq<byte>, seq<Package>))
    ensures |r.0| == |q| - PACKAGE_SIZE * |r.1|
    ensures |r.1| == if |q| < PACKAGE_SIZE then 0 else 1
  {
    if |q| < PACKAGE_SIZE then (q, []) else (q[PACKAGE_SIZE..], [Parse(q)])
  }

  /** A readable event on a queue: new bytes go behind, then a package is cut off if there is one. */
  ghost function QueueReceive(q: seq<byte>, data: seq<byte>): (seq<byte>, seq<Package>) {
    Cut(q + data)
  }

  ghost function QueueReceives(q: seq<byte>, cs: seq<Op>): (seq<byte>, seq<Package>)
    decreases |cs|
  {
    if cs == [] then (q, [])
    else
      var (p, now) := QueueReceive(q, In(cs[0]));
      var (rest, later) := QueueReceives(p, cs[1..]);
      (rest, now + later)
  }

  lemma {:induction false} WordOfBytes(s: seq<byte>)
    requires |s| == WORD_SIZE
    ensures FromBE(s) < Pow256(WORD_SIZE) && Word(FromBE(s)) == s
  {
    BigEndianImage(s);
  }

  lemma {:induction false} BytesOfWord(x: nat)
    requires x < Pow256(WORD_SIZE)
    ensures FromBE(Word(x)) == x
  {
    HostToNetwork(x, WORD_SIZE);
  }

  lemma Split24(q: seq<byte>)
    requires |q| >= PACKAGE_SIZE
    ensures q[..8] + q[8..16] + q[16..24] == q[..PACKAGE_SIZE]
  {}

  /** Parsing is undone by the wire form. */
  lemma {:induction false} ParsedHead(q: seq<byte>)
    requires |q| >= PACKAGE_SIZE
    ensures Sendable(Parse(q)) && Wire(Parse(q)) == q[..PACKAGE_SIZE]
  {
    WordOfBytes(q[..8]);
    WordOfBytes(q[8..16]);
    WordOfBytes(q[16..24]);
    Split24(q);
  }

  /** The wire form is undone by parsing, so it determines the package. */
  lemma {:induction false} WireParsed(p: Package)
    requires Sendable(p)
    ensures Parse(Wire(p)) == p
  {
    var w := Wire(p);
    assert w[..8] == Word(p.cSendTs) && w[8..16] == Word(p.sRecvTs) && w[16..24] == Word(p.sSendTs);
    BytesOfWord(p.cSendTs);
    BytesOfWord(p.sRecvTs);
    BytesOfWord(p.sSendTs);
  }

  lemma Associate(a: seq<byte>, b: seq<byte>, c: seq<byte>)
    ensures a + b + c == a + (b + c)
  {}

  lemma PrefixOfConcat(a: seq<byte>, x: seq<byte>, b: seq<byte>, y: seq<byte>)
    requires |a| == |b| && a + x <= b + y
    ensures a == b && x <= y
  {
    assert a == (a + x)[..|a|] && b == (b + y)[..|a|];
    assert x == (a + x)[|a|..] && y == (b + y)[|a|..];
  }

  lemma {:induction false} WireAllConcat(a: seq<Package>, b: seq<Package>)
    ensures WireAll(a + b) == WireAll(a) + WireAll(b)
  {
    if a == [] {
      assert a + b == b;
    } else {
      WireAllConcat(a[1..], b);
      assert (a + b)[0] == a[0] && (a + b)[1..] == a[1..] + b;
      Associate(Wire(a[0]), WireAll(a[1..]), WireAll(b));
    }
  }

  lemma {:induction false} WireAllOne(p: Package)
    ensures WireAll([p]) == Wire(p)
  {
    assert [p][1..] == [];
  }

  lemma {:induction false} QueueReceiveConserves(q: seq<byte>, data: seq<byte>)
    ensures var (p, out) := QueueReceive(q, data);
      q + data == WireAll(out) + p && (forall x :: x in out ==> Sendable(x))
  {
    if |q + data| >= PACKAGE_SIZE { CutConserves(q + data); }
  }

  lemma {:induction false} CutConserves(all: seq<byte>)
    requires |all| >= PACKAGE_SIZE
    ensures Sendable(Parse(all)) && all == WireAll([Parse(all)]) + all[PACKAGE_SIZE..]
  {
    ParsedHead(all);
    WireAllOne(Parse(all));
    assert all == all[..PACKAGE_SIZE] + all[PACKAGE_SIZE..];
  }

  lemma Reassociate(q: seq<byte>, data: seq<byte>, more: seq<byte>, w: seq<byte>, p: seq<byte>, w': seq<byte>, r: seq<byte>)
    requires q + data == w + p && p + more == w' + r
    ensures q + (data + more) == (w + w') + r
  {
    assert q + (data + more) == (q + data) + more == w + (p + more);
  }

  /** No byte is lost, duplicated or reordered: the stream is the packages decoded, then what is still queued. */
  lemma {:induction false} QueueReceivesConserve(q: seq<byte>, cs: seq<Op>)
    ensures var (rest, out) := QueueReceives(q, cs);
      q + Input(cs) == WireAll(out) + rest && (forall x :: x in out ==> Sendable(x))
    decreases |cs|
  {
    if cs != [] {
      var data := In(cs[0]);
      QueueReceiveConserves(q, data);
      var (p, now) := QueueReceive(q, data);
      QueueReceivesConserve(p, cs[1..]);
      var (rest, later) := QueueReceives(p, cs[1..]);
      WireAllConcat(now, later);
      Reassociate(q, data, Input(cs[1..]), WireAll(now), p, WireAll(later), rest);
    }
  }

  lemma {:induction false} WirePrefix(out: seq<Package>, rest: seq<byte>, sent: seq<Package>)
    requires forall p :: p in out ==> Sendable(p)
    requires forall p :: p in sent ==> Sendable(p)
    requires WireAll(out) + rest <= WireAll(sent)
    ensures out <= sent
  {
    if out != [] {
      var a, b := WireAll(out[1..]) + rest, WireAll(sent[1..]);
      Associate(Wire(out[0]), WireAll(out[1..]), rest);
      PrefixOfConcat(Wire(out[0]), a, Wire(sent[0]), b);
      WireParsed(out[0]);
      WireParsed(sent[0]);
      WirePrefix(out[1..], rest, sent[1..]);
      assert out == [out[0]] + out[1..] && sent == [sent[0]] + sent[1..];
    }
  }

  /** What was cut and what is left determine the queue. */
  lemma {:induction false} CutInjective(p: seq<byte>, q: seq<byte>)
    requires Cut(p) == Cut(q)
    ensures p == q
  {
    if |p| >= PACKAGE_SIZE {
      ParsedHead(p);
      ParsedHead(q);
      assert Cut(p).1[0] == Parse(p) && Cut(q).1[0] == Parse(q);
      assert p == p[..PACKAGE_SIZE] + p[PACKAGE_SIZE..];
      assert q == q[..PACKAGE_SIZE] + q[PACKAGE_SIZE..];
    }
  }

  // ------------------------------------------------------------------------
  // The server: packages read through the ring
  // ------------------------------------------------------------------------

  /** One peek/skip pair. */
  ghost function TakeWord(s: Ring): (nat, Ring)
    requires Indexed(s) && ReadedSize(s) >= WORD_SIZE
  {
    (Peek(s, WORD_SIZE), Skip(s, WORD_SIZE))
  }

  lemma {:induction false} TakeWordIsHead(s: Ring)
    requires Indexed(s) && ReadedSize(s) >= WORD_SIZE
    ensures var (x, t) := TakeWord(s);
      && Indexed(t) && x == FromBE(Contents(s)[..WORD_SIZE]) && Contents(t) == Contents(s)[WORD_SIZE..]
      && ReadedSize(t) == ReadedSize(s) - WORD_SIZE
  {
    QueuedSize(s);
    PeekIsBigEndian(s, WORD_SIZE);
    SkipDropsPrefix(s, WORD_SIZE);
    QueuedSize(Skip(s, WORD_SIZE));
  }

  lemma QueuedSize(s: Ring)
    requires Indexed(s)
    ensures ReadedSize(s) == |Contents(s)|
  {}

  /** Three peek/skip pairs (lines 124-129). */
  ghost function TakePackage(s: Ring): (Package, Ring)
    requires Indexed(s) && ReadedSize(s) >= PACKAGE_SIZE
  {
    TakeWordIsHead(s);
    var (c, s1) := TakeWord(s);
    TakeWordIsHead(s1);
    var (r, s2) := TakeWord(s1);
    var (x, s3) := TakeWord(s2);
    (Package(c, r, x), s3)
  }

  lemma ThreeWords(q: seq<byte>)
    requires |q| >= PACKAGE_SIZE
    ensures q[8..][..8] == q[8..16] && q[8..][8..][..8] == q[16..24] && q[8..][8..][8..] == q[24..]
  {}

  /** Wherever the ring wraps, they read the first package of the queue and consume exactly it. */
  lemma {:induction false} TakePackageIsParse(s: Ring)
    requires Indexed(s) && ReadedSize(s) >= PACKAGE_SIZE
    ensures var (p, t) := TakePackage(s);
      Indexed(t) && p == Parse(Contents(s)) && Contents(t) == Contents(s)[PACKAGE_SIZE..]
  {
    TakeWordIsHead(s);
    var s1 := TakeWord(s).1;
    TakeWordIsHead(s1);
    TakeWordIsHead(TakeWord(s1).1);
    ThreeWords(Contents(s));
  }

  /** The data of readable events. */
  ghost predicate Chunks(cs: seq<Op>) {
    forall c :: c in cs ==> c.Put? && |c.data| <= MAX_OBJECT
  }

  ghost function Taking(t: Ring): (Ring, seq<Package>)
    requires Indexed(t)
  {
    if ReadedSize(t) < PACKAGE_SIZE then (t, [])
    else var (p, u) := TakePackage(t); (u, [p])
  }

  /**
    One readable event, whatever the state of the buffer (lines 113-129): append what was read,
    then decode at most one package; None if the append touches memory outside the buffer or is refused it.
   */
  ghost function Receive(s: Ring, c: Op): Option<(Ring, seq<Package>)>
    requires Indexed(s) && c.Put? && |c.data| <= MAX_OBJECT
  {
    match Append(s, c.data, c.junk)
    case Done(t) => DoneIsIndexed(s, c.data, c.junk); Some(Taking(t))
    case _ => None
  }

  lemma {:induction false} TakingIsCut(t: Ring)
    requires Indexed(t)
    ensures var (u, out) := Taking(t); Indexed(u) && (Contents(u), out) == Cut(Contents(t))
  {
    if ReadedSize(t) >= PACKAGE_SIZE { TakePackageIsParse(t); }
  }

  /** The event did what it does on a plain queue. */
  ghost predicate ReceivedRight(s: Ring, c: Op)
    requires Indexed(s) && c.Put? && |c.data| <= MAX_OBJECT
  {
    var r := Receive(s, c);
    r.Some? && Indexed(r.value.0) && (Contents(r.value.0), r.value.1) == QueueReceive(Contents(s), c.data)
  }

  /** That is so exactly when the append was right: decoding hides no damage. */
  lemma {:induction false} ReceivedRightExactly(s: Ring, c: Op)
    requires Indexed(s) && c.Put? && |c.data| <= MAX_OBJECT
    ensures ReceivedRight(s, c) <==> Appended(s, c.data, Append(s, c.data, c.junk))
  {
    var out := Append(s, c.data, c.junk);
    if out.Done? {
      DoneIsIndexed(s, c.data, c.junk);
      TakingIsCut(out.ring);
      if ReceivedRight(s, c) { CutInjective(Contents(out.ring), Contents(s) + c.data); }
    }
  }

  /** All readable events of a connection, each of them right. */
  ghost predicate ServedRight(s: Ring, cs: seq<Op>)
    requires Indexed(s) && Chunks(cs)
    decreases |cs|
  {
    cs == [] || (ReceivedRight(s, cs[0]) && ServedRight(Receive(s, cs[0]).value.0, cs[1..]))
  }

  /** The events as they come, and the packages decoded; None from the first event that fails. */
  ghost function Serve(s: Ring, cs: seq<Op>): Option<(Ring, seq<Package>)>
    requires Indexed(s) && Chunks(cs)
    decreases |cs|
  {
    if cs == [] then Some((s, []))
    else
      match Receive(s, cs[0])
      case None => None
      case Some((t, now)) =>
        ReceiveIsIndexed(s, cs[0]);
        match Serve(t, cs[1..])
        case None => None
        case Some((u, later)) => Some((u, now + later))
  }

  lemma ReceiveIsIndexed(s: Ring, c: Op)
    requires Indexed(s) && c.Put? && |c.data| <= MAX_OBJECT
    ensures var r := Receive(s, c); r.Some? ==> Indexed(r.value.0)
  {
    var out := Append(s, c.data, c.junk);
    if out.Done? {
      DoneIsIndexed(s, c.data, c.junk);
      TakingIsCut(out.ring);
    }
  }

  /** If each event was right, the server decoded what cutting a plain queue would give. */
  lemma {:induction false} ServeRefines(s: Ring, cs: seq<Op>)
    requires Indexed(s) && Chunks(cs) && ServedRight(s, cs)
    ensures var r := Serve(s, cs);
      r.Some? && Indexed(r.value.0) && (Contents(r.value.0), r.value.1) == QueueReceives(Contents(s), cs)
    decreases |cs|
  {
    if cs != [] {
      ReceiveIsIndexed(s, cs[0]);
      ServeRefines(Receive(s, cs[0]).value.0, cs[1..]);
    }
  }
}
