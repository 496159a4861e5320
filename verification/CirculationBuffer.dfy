/**
  `circulation_buffer` (set/buffer/buffer.h) in its own form: an object that
  updates its array and indices in place. Every method is proved against the
  value model in Ring, on every state and every input: where the code would
  touch memory outside its array the method reports a fault.
 */
module CirculationBuffer {
  import opened Bytes
  import R = Ring
  import opened RingAppend

  /** The operation ended, touched memory outside the array, or was refused the memory it asked for. */
  datatype Status = Completed | Fault | Refused

  /** The status, and the state where there is one, are those of the value model. */
  ghost predicate Matches(out: R.Outcome, status: Status, now: R.Ring) {
    match out
    case Done(t) => status == Completed && now == t
    case OutOfBounds => status == Fault
    case NoMemory => status == Refused
  }

  /** `std::copy_n(src, |src|, dst + at)`; src is a snapshot, so the ranges may overlap. */
  method CopyN(src: seq<byte>, dst: array<byte>, at: nat)
    requires at + |src| <= dst.Length
    modifies dst
    ensures dst[..] == R.Blit(old(dst[..]), at, src)
  {
    ghost var was := dst[..];
    for i := 0 to |src|
      invariant dst[..at] == was[..at]
      invariant dst[at..at + i] == src[..i]
      invariant dst[at + i..] == was[at + i..]
    {
      dst[at + i] := src[i];
    }
    assert dst[..] == dst[..at] + dst[at..at + |src|] + dst[at + |src|..];
  }

  /** Two copies in a row. */
  method CopyTwice(dst: array<byte>, at: nat, src: seq<byte>, at': nat, src': seq<byte>)
    requires at + |src| <= dst.Length && at' + |src'| <= dst.Length
    modifies dst
    ensures dst[..] == R.Blit(R.Blit(old(dst[..]), at, src), at', src')
  {
    CopyN(src, dst, at);
    CopyN(src', dst, at');
  }

  /** The copy into a new block leaves the rest of the block as it was. */
  lemma GrownIsCopy(t: R.Ring, block: seq<byte>, junk: nat -> byte)
    requires R.PADDING <= t.r && t.r - R.PADDING + t.w <= |t.buf| && t.w <= |block|
    requires forall i: nat :: i < |block| ==> junk(i) == block[i]
    ensures var from := t.r - R.PADDING;
      R.Blit(block, 0, t.buf[from..from + t.w]) == R.Grown(t, |block|, junk)
  {}

  /** What an append that ended means for the queue. */
  lemma AppendMeans(s: R.Ring, data: seq<byte>, junk: nat -> byte)
    requires R.Machine(s) && |data| <= R.MAX_OBJECT
    ensures R.Indexed(s) && R.Append(s, data, junk).Done? ==> R.Indexed(R.Append(s, data, junk).ring)
    ensures R.Valid(s) && AppendSound(s.r, s.w, |s.buf|, |data|) ==>
      Appended(s, data, R.Append(s, data, junk)) && R.Valid(R.Append(s, data, junk).ring)
  {
    if R.Indexed(s) && R.Append(s, data, junk).Done? { DoneIsIndexed(s, data, junk); }
    if R.Valid(s) && AppendSound(s.r, s.w, |s.buf|, |data|) { SoundAppend(s, data, junk); }
  }

  class CirculationBuffer {
    var buf: array<byte>
    var readIndex: nat
    var writeIndex: nat

    ghost function State(): R.Ring
      reads this, buf
    {
      R.Ring(buf[..], readIndex, writeIndex)
    }

    /** Both indices lie in the array. */
    ghost predicate Indexed()
      reads this, buf
    {
      R.Indexed(State())
    }

    /** The buffer is a queue, and empty only at its initial indices. */
    ghost predicate Valid()
      reads this, buf
    {
      R.Valid(State())
    }

    /** The bytes still to be read, oldest first. */
    ghost function Contents(): seq<byte>
      reads this, buf
      requires Indexed()
    {
      R.Contents(State())
    }

    constructor (length: nat)
      requires length <= R.MAX_OBJECT
      ensures fresh(buf) && State() == R.Fresh(length)
      ensures Valid() <==> length >= R.PADDING
      ensures Valid() ==> Contents() == []
    {
      buf := new byte[length](_ => 0);
      readIndex, writeIndex := R.PADDING, R.PADDING;
    }

    function ReadedSize(): (n: nat)
      reads this, buf
      requires Indexed()
      ensures n == |Contents()|
    {
      if writeIndex < readIndex then R.Wrap(buf.Length - readIndex + writeIndex)
      else writeIndex - readIndex
    }

    function WritedSize(): (n: nat)
      reads this, buf
      requires R.Machine(State())
      ensures n == R.WritedSize(State())
    {
      if writeIndex <= R.Wrap(readIndex - R.PADDING) then R.Wrap(readIndex - R.PADDING) - writeIndex
      else R.Wrap(buf.Length - writeIndex + readIndex - R.PADDING)
    }

    /** Lines 67-87. What the uninitialised part of a grown array holds is returned as a ghost. */
    method Append(data: seq<byte>) returns (status: Status, ghost junk: nat -> byte)
      requires R.Machine(State()) && |data| <= R.MAX_OBJECT
      modifies this, buf
      ensures buf == old(buf) || fresh(buf)
      ensures Matches(R.Append(old(State()), data, junk), status, State())
      ensures old(Indexed()) && status == Completed ==> Indexed()
      ensures old(Valid() && AppendSound(readIndex, writeIndex, buf.Length, |data|)) ==>
        status == Completed && Valid() && Contents() == old(Contents()) + data
    {
      junk := _ => 0;
      status := Completed;
      if WritedSize() < |data| {
        status, junk := MakeMemory(|data|);
      }
      if status == Completed {
        status := Store(data);
      }
      AppendMeans(old(State()), data, junk);
    }

    /** Lines 73-86. */
    method Store(data: seq<byte>) returns (status: Status)
      requires R.Machine(State()) && |data| <= R.MAX_OBJECT
      modifies this, buf
      ensures buf == old(buf)
      ensures Matches(R.Store(old(State()), data), status, State())
    {
      var room := R.Wrap(buf.Length - writeIndex);
      if data == [] {
        // nothing to copy and no index to move
      } else if (writeIndex >= readIndex && room >= |data|) || writeIndex < readIndex {
        if writeIndex + |data| > buf.Length {
          return Fault;
        }
        CopyN(data, buf, writeIndex);
        writeIndex := writeIndex + |data|;
      } else {
        if writeIndex > buf.Length || |data| - room > buf.Length {
          return Fault;
        }
        CopyTwice(buf, writeIndex, data[..room], 0, data[room..]);
        writeIndex := |data| - room;
      }
      status := Completed;
    }

    /** Lines 140-151. */
    method MakeMemory(n: nat) returns (status: Status, ghost junk: nat -> byte)
      requires R.Machine(State()) && n <= R.MAX_OBJECT
      modifies this, buf
      ensures buf == old(buf) || fresh(buf)
      ensures Matches(R.MakeMemory(old(State()), n, junk), status, State())
      ensures status == Completed ==> R.Machine(State())
    {
      junk := _ => 0;
      if n < WritedSize() {
        return Completed, junk;
      }
      status := RelocationLocation();
      if status != Completed {
        return;
      }
      var newLength := R.Wrap(buf.Length + R.Wrap(2 * R.Wrap(n - WritedSize())));
      if newLength > R.MAX_OBJECT {
        return Refused, junk;
      }
      if readIndex < R.PADDING || readIndex - R.PADDING + writeIndex > buf.Length || writeIndex > newLength {
        return Fault, junk;
      }
      junk := Reallocate(newLength);
    }

    /** Lines 146-150. */
    method Reallocate(newLength: nat) returns (ghost junk: nat -> byte)
      requires R.PADDING <= readIndex && readIndex - R.PADDING + writeIndex <= buf.Length
      requires writeIndex <= newLength
      modifies this
      ensures fresh(buf) && buf.Length == newLength
      ensures State() == R.Ring(R.Grown(old(State()), newLength, junk), old(readIndex), old(writeIndex))
    {
      var newBuf := new byte[newLength];
      ghost var block := newBuf[..];
      junk := (i: nat) => if i < |block| then block[i] else 0;
      var bytes := buf[..];
      CopyN(bytes[readIndex - R.PADDING..readIndex - R.PADDING + writeIndex], newBuf, 0);
      GrownIsCopy(State(), block, junk);
      buf := newBuf;
    }

    /** Lines 153-175. */
    method RelocationLocation() returns (status: Status)
      requires R.Machine(State())
      modifies this, buf
      ensures buf == old(buf)
      ensures Matches(R.Relocate(old(State())), status, State())
    {
      if writeIndex < readIndex {
        if readIndex < R.PADDING || readIndex > buf.Length || readIndex < writeIndex + R.PADDING {
          return Fault;
        }
        var bytes := buf[..];
        var back, head := bytes[readIndex - R.PADDING..], buf.Length - readIndex + R.PADDING;
        if buf.Length - readIndex > writeIndex {
          CopyTwice(buf, 0, back, head, bytes[..writeIndex]);
          readIndex := R.PADDING;
          writeIndex := buf.Length - readIndex + writeIndex;
        } else {
          CopyTwice(buf, head, bytes[..writeIndex], 0, back);
          writeIndex := buf.Length - readIndex + writeIndex + R.PADDING;
          readIndex := R.PADDING;
        }
      }
      status := Completed;
    }

    /** Lines 91-114, for T of k bytes; `memcpy` loads on a little-endian host. */
    method PeekInt(k: nat) returns (x: nat)
      requires Indexed() && k <= ReadedSize()
      ensures x == R.Peek(State(), k)
      ensures x == FromBE(Contents()[..k]) < Pow256(k)
    {
      var bytes := buf[..];
      if writeIndex < readIndex {
        var reSize := buf.Length - readIndex;
        if reSize > k {
          x := ByteSwap(FromLE(bytes[readIndex..readIndex + k]), k);
        } else {
          var l, r := FromLE(bytes[readIndex..]), FromLE(bytes[..k - reSize]);
          x := ByteSwap(l + ShiftLeft(r, reSize), k);
        }
      } else {
        x := ByteSwap(FromLE(bytes[readIndex..readIndex + k]), k);
      }
      R.PeekIsBigEndian(State(), k);
    }

    /** Lines 116-132. */
    method SkipBytes(len: nat)
      requires Indexed() && len <= ReadedSize()
      modifies this
      ensures buf == old(buf) && Indexed() && (old(Valid()) ==> Valid())
      ensures State() == R.Skip(old(State()), len)
      ensures Contents() == old(Contents())[len..]
    {
      R.SkipDropsPrefix(State(), len);
      if len < ReadedSize() {
        if writeIndex < readIndex {
          if buf.Length - readIndex > len {
            readIndex := readIndex + len;
          } else {
            readIndex := R.Wrap(R.Wrap(len - buf.Length) + readIndex);
          }
        } else {
          readIndex := readIndex + len;
        }
      } else {
        RetrieveAll();
      }
    }

    /** Lines 134-137. */
    method RetrieveAll()
      requires Indexed()
      modifies this
      ensures buf == old(buf) && Valid() && Contents() == []
      ensures readIndex == writeIndex == R.PADDING
    {
      readIndex := R.PADDING;
      writeIndex := R.PADDING;
    }
  }
}
