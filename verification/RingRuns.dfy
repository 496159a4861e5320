/**
  Whole runs of the ring: any sequence of sound appends and legal skips leaves
  exactly the bytes a plain first-in-first-out queue would hold.
 */
module RingRuns {
  import opened Bytes
  import opened Ring
  import opened RingAppend

  /** An append carries what fresh memory holds, should it grow the array. */
  datatype Op = Put(data: seq<byte>, junk: nat -> byte) | Take(len: nat)

  /** A caller can decide from the indices that the operation is sound. */
  ghost predicate Admissible(s: Ring, op: Op)
    requires Valid(s)
  {
    match op
    case Put(data, _) =>
      |data| <= MAX_OBJECT && AppendSound(s.r, s.w, |s.buf|, |data|)
    case Take(len) => len <= ReadedSize(s)
  }

  ghost function Step(s: Ring, op: Op): (t: Ring)
    requires Valid(s) && Admissible(s, op)
    ensures Valid(t)
  {
    match op
    case Put(data, junk) => SoundAppend(s, data, junk); Append(s, data, junk).ring
    case Take(len) => SkipDropsPrefix(s, len); Skip(s, len)
  }

  ghost predicate AdmissibleRun(s: Ring, ops: seq<Op>)
    requires Valid(s)
    decreases |ops|
  {
    ops == [] || (Admissible(s, ops[0]) && AdmissibleRun(Step(s, ops[0]), ops[1..]))
  }

  ghost function Run(s: Ring, ops: seq<Op>): (t: Ring)
    requires Valid(s) && AdmissibleRun(s, ops)
    ensures Valid(t)
    decreases |ops|
  {
    if ops == [] then s else Run(Step(s, ops[0]), ops[1..])
  }

  ghost function In(op: Op): seq<byte> {
    match op case Put(data, _) => data case Take(_) => []
  }

  ghost function Out(op: Op): nat {
    match op case Put(_, _) => 0 case Take(len) => len
  }

  /** All bytes the run puts in. */
  ghost function Input(ops: seq<Op>): seq<byte> {
    if ops == [] then [] else In(ops[0]) + Input(ops[1..])
  }

  /** How many bytes the run takes out. */
  ghost function Taken(ops: seq<Op>): nat {
    if ops == [] then 0 else Out(ops[0]) + Taken(ops[1..])
  }

  lemma StepIsQueue(s: Ring, op: Op)
    requires Valid(s) && Admissible(s, op)
    ensures Out(op) <= |Contents(s)|
    ensures Contents(Step(s, op)) == Contents(s)[Out(op)..] + In(op)
  {
    match op
    case Put(data, junk) => SoundAppend(s, data, junk);
    case Take(len) =>
      SkipDropsPrefix(s, len);
      assert Contents(s)[len..] + [] == Contents(s)[len..];
  }

  lemma DropThenExtend(q: seq<byte>, k: nat, d: seq<byte>, rest: seq<byte>, n: nat)
    requires k <= |q| && n <= |q[k..] + d + rest|
    ensures (q[k..] + d + rest)[n..] == (q + (d + rest))[k + n..]
  {
    assert q[k..] + d + rest == (q + (d + rest))[k..];
  }

  /** First in, first out: the ring holds the bytes ever queued less the number taken, in order. */
  lemma {:induction false} RunIsQueue(s: Ring, ops: seq<Op>)
    requires Valid(s) && AdmissibleRun(s, ops)
    ensures Taken(ops) <= |Contents(s) + Input(ops)|
    ensures Contents(Run(s, ops)) == (Contents(s) + Input(ops))[Taken(ops)..]
    decreases |ops|
  {
    if ops == [] {
      assert Contents(s) + Input(ops) == Contents(s);
    } else {
      StepIsQueue(s, ops[0]);
      RunIsQueue(Step(s, ops[0]), ops[1..]);
      DropThenExtend(Contents(s), Out(ops[0]), In(ops[0]), Input(ops[1..]), Taken(ops[1..]));
    }
  }

  /** No operation asks for more room than the capacity leaves, or for more bytes than are queued. */
  ghost predicate FittingRun(queued: nat, capacity: nat, ops: seq<Op>)
    decreases |ops|
  {
    ops == [] ||
    (&& Out(ops[0]) <= queued && queued + |In(ops[0])| <= capacity
     && FittingRun(queued - Out(ops[0]) + |In(ops[0])|, capacity, ops[1..]))
  }

  lemma FittingStep(s: Ring, op: Op)
    requires Valid(s) && Out(op) <= |Contents(s)| && |Contents(s)| + |In(op)| <= |s.buf| - PADDING
    ensures Admissible(s, op) && |Step(s, op).buf| == |s.buf|
  {
    if op.Put? { SoundAppend(s, op.data, op.junk); }
  }

  /** Fitting runs never grow the array and are sound throughout, also where the reader wrapped below `padding`. */
  lemma {:induction false} FittingRunIsAdmissible(s: Ring, ops: seq<Op>)
    requires Valid(s) && FittingRun(|Contents(s)|, |s.buf| - PADDING, ops)
    ensures AdmissibleRun(s, ops) && |Run(s, ops).buf| == |s.buf|
    decreases |ops|
  {
    if ops != [] {
      FittingStep(s, ops[0]);
      StepIsQueue(s, ops[0]);
      FittingRunIsAdmissible(Step(s, ops[0]), ops[1..]);
    }
  }

  /** The plain reading of both: a buffer of any length from `padding` up, used within its capacity, is a queue. */
  lemma {:induction false} FittingRunIsQueue(length: nat, ops: seq<Op>)
    requires PADDING <= length <= MAX_OBJECT && FittingRun(0, length - PADDING, ops)
    ensures AdmissibleRun(Fresh(length), ops)
    ensures Taken(ops) <= |Input(ops)|
    ensures Contents(Run(Fresh(length), ops)) == Input(ops)[Taken(ops)..]
  {
    var s := Fresh(length);
    FittingRunIsAdmissible(s, ops);
    RunIsQueue(s, ops);
    assert Contents(s) + Input(ops) == Input(ops);
  }

  // ------------------------------------------------------------------------
  // Beyond the sound cases: reachable from a new buffer
  // ------------------------------------------------------------------------

  /** Twelve bytes in, two out, then an append that needs growth: the queue silently loses its first two bytes. */
  lemma GrowthAltersQueue(a: seq<byte>, b: seq<byte>, junk: nat -> byte)
    requires |a| == 12 && |b| == 27
    ensures var first := Append(Fresh(40), a, junk);
      && first.Done? && Valid(first.ring) && Contents(first.ring) == a
      && (var s := Skip(first.ring, 2);
          && Valid(s) && Contents(s) == a[2..]
          && (var out := Append(s, b, junk);
              out.Done? && InRange(out.ring) && |Contents(out.ring)| == 37
              && Contents(out.ring)[..8] == a[4..]))
  {
    var s0 := Fresh(40);
    SoundAppend(s0, a, junk);
    assert Contents(s0) + a == a;
    var s1 := Append(s0, a, junk).ring;
    SkipDropsPrefix(s1, 2);
    var s := Skip(s1, 2);
    assert s.r == 6 && s.w == 16;
    var t := MakeMemory(s, 27, junk).ring;
    assert t.r == 6 && t.w == 16 && |t.buf| == 42;
    assert t.buf[6..14] == s.buf[8..16] == Contents(s)[2..];
    var u := Store(t, b).ring;
    BlitOutside(t.buf, 16, b[..26], 6, 14);
    BlitOutside(Blit(t.buf, 16, b[..26]), 0, b[26..], 6, 14);
    assert u.buf[6..14] == t.buf[6..14];
    assert Contents(u)[..8] == u.buf[6..14];
  }

  /** After a skip that wrapped below `padding`, nine more bytes make a twelve-byte buffer look empty. */
  lemma {:induction false} OverrunEmptiesQueue(a: seq<byte>, b: seq<byte>, c: seq<byte>, junk: nat -> byte)
    requires |a| == 8 && |b| == 4 && |c| == 9
    ensures var ops := [Put(a, junk), Take(4), Put(b, junk), Take(5)];
      && AdmissibleRun(Fresh(12), ops)
      && (var s := Run(Fresh(12), ops);
          && |Contents(s)| == 3
          && (var out := Append(s, c, junk);
              out.Done? && InRange(out.ring) && Contents(out.ring) == []))
  {
    var s0 := Fresh(12);
    SoundAppend(s0, a, junk);
    var s1 := Step(s0, Put(a, junk));
    assert s1.r == 4 && s1.w == 12;
    var s2 := Step(s1, Take(4));
    assert s2.r == 8 && s2.w == 12;
    SoundAppend(s2, b, junk);
    var s3 := Step(s2, Put(b, junk));
    assert s3.r == 8 && s3.w == 4;
    var s4 := Step(s3, Take(5));
    assert s4.r == 1 && s4.w == 4;
    RunCons(s3, Take(5), []);
    RunCons(s2, Put(b, junk), [Take(5)]);
    RunCons(s1, Take(4), [Put(b, junk), Take(5)]);
    RunCons(s0, Put(a, junk), [Take(4), Put(b, junk), Take(5)]);
  }

  lemma {:induction false} RunCons(s: Ring, op: Op, ops: seq<Op>)
    requires Valid(s) && Admissible(s, op) && AdmissibleRun(Step(s, op), ops)
    ensures AdmissibleRun(s, [op] + ops) && Run(s, [op] + ops) == Run(Step(s, op), ops)
  {
    assert ([op] + ops)[1..] == ops;
  }
}
