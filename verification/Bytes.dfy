/**
  Byte order: the object representation of an unsigned integer on a
  little-endian host, and the byte swap behind `host2network` and
  `network2host` (set/buffer/yendian.h).
 */
module Bytes {

  type byte = b: int | 0 <= b < 256

  /** 256 to the power k: the number of values of a k-byte unsigned integer. */
  function Pow256(k: nat): (p: nat)
    ensures p > 0
  {
    if k == 0 then 1 else 256 * Pow256(k - 1)
  }

  /** x << 8 * k, where no bit is lost. */
  function ShiftLeft(x: nat, k: nat): nat {
    if k == 0 then x else 256 * ShiftLeft(x, k - 1)
  }

  /** What `memcpy` into a zeroed integer yields on a little-endian host. */
  function FromLE(s: seq<byte>): (x: nat) {
    if s == [] then 0 else s[0] + 256 * FromLE(s[1..])
  }

  /** The k bytes that hold x in the memory of a little-endian host. */
  function ToLE(x: nat, k: nat): (s: seq<byte>)
    ensures |s| == k
  {
    if k == 0 then [] else [x % 256] + ToLE(x / 256, k - 1)
  }

  /** The value network byte order gives to s: first byte most significant. */
  function FromBE(s: seq<byte>): (x: nat) {
    if s == [] then 0 else 256 * FromBE(s[..|s| - 1]) + s[|s| - 1]
  }

  function Reverse(s: seq<byte>): (t: seq<byte>)
    ensures |t| == |s|
  {
    if s == [] then [] else Reverse(s[1..]) + [s[0]]
  }

  /** htobe16/32/64 and be16/32/64toh on a little-endian host: the bytes of the k-byte object, reversed. */
  function ByteSwap(x: nat, k: nat): nat {
    FromLE(Reverse(ToLE(x, k)))
  }

  lemma {:induction false} FromLEBound(s: seq<byte>)
    ensures FromLE(s) < Pow256(|s|)
  {
    if s != [] { FromLEBound(s[1..]); }
  }

  lemma {:induction false} FromLEConcat(a: seq<byte>, b: seq<byte>)
    ensures FromLE(a + b) == FromLE(a) + ShiftLeft(FromLE(b), |a|)
  {
    if a == [] {
      assert a + b == b;
    } else {
      assert (a + b)[1..] == a[1..] + b;
      FromLEConcat(a[1..], b);
    }
  }

  lemma {:induction false} FromToLE(x: nat, k: nat)
    requires x < Pow256(k)
    ensures FromLE(ToLE(x, k)) == x
  {
    if k != 0 {
      FromToLE(x / 256, k - 1);
      assert ToLE(x, k)[1..] == ToLE(x / 256, k - 1);
    }
  }

  lemma {:induction false} ToFromLE(s: seq<byte>)
    ensures ToLE(FromLE(s), |s|) == s
  {
    if s != [] {
      ToFromLE(s[1..]);
      assert FromLE(s) % 256 == s[0] && FromLE(s) / 256 == FromLE(s[1..]);
      assert s == [s[0]] + s[1..];
    }
  }

  lemma {:induction false} ReverseAt(s: seq<byte>, i: nat)
    requires i < |s|
    ensures Reverse(s)[i] == s[|s| - 1 - i]
  {
    if i < |s| - 1 { ReverseAt(s[1..], i); }
  }

  lemma {:induction false} ReverseTwice(s: seq<byte>)
    ensures Reverse(Reverse(s)) == s
  {
    forall i | 0 <= i < |s| ensures Reverse(Reverse(s))[i] == s[i] {
      ReverseAt(Reverse(s), i);
      ReverseAt(s, |s| - 1 - i);
    }
  }

  /** Reading reversed bytes in little-endian order is reading them in network order. */
  lemma {:induction false} ReversedIsBigEndian(s: seq<byte>)
    ensures FromLE(Reverse(s)) == FromBE(s)
  {
    if s != [] {
      var init, last := s[..|s| - 1], s[|s| - 1];
      ReversedIsBigEndian(init);
      forall i | 0 <= i < |s| ensures Reverse(s)[i] == ([last] + Reverse(init))[i] {
        ReverseAt(s, i);
        if i > 0 { ReverseAt(init, i - 1); }
      }
      assert Reverse(s) == [last] + Reverse(init);
      assert Reverse(s)[1..] == Reverse(init);
    }
  }

  lemma {:induction false} FromBEBound(s: seq<byte>)
    ensures FromBE(s) < Pow256(|s|)
  {
    ReversedIsBigEndian(s);
    FromLEBound(Reverse(s));
  }

  /** `network2host` of the memory image of s is the big-endian value of s. */
  lemma {:induction false} NetworkToHost(s: seq<byte>)
    ensures ByteSwap(FromLE(s), |s|) == FromBE(s)
  {
    ToFromLE(s);
    ReversedIsBigEndian(s);
  }

  /** What `host2network` leaves in memory is x in network order, most significant byte first. */
  lemma {:induction false} HostToNetwork(x: nat, k: nat)
    requires x < Pow256(k)
    ensures ByteSwap(x, k) < Pow256(k)
    ensures ToLE(ByteSwap(x, k), k) == Reverse(ToLE(x, k))
    ensures FromBE(ToLE(ByteSwap(x, k), k)) == x
  {
    var m := Reverse(ToLE(x, k));
    FromLEBound(m);
    ToFromLE(m);
    ReversedIsBigEndian(m);
    ReverseTwice(ToLE(x, k));
    FromToLE(x, k);
  }

  /** network2host after host2network (and the other way round) is the identity, for every width. */
  lemma {:induction false} SwapTwice(x: nat, k: nat)
    requires x < Pow256(k)
    ensures ByteSwap(ByteSwap(x, k), k) == x
  {
    HostToNetwork(x, k);
    ReverseTwice(ToLE(x, k));
    FromToLE(x, k);
  }

  /** The one-byte specialisation returns its argument unchanged, as the general swap does. */
  lemma {:induction false} SwapOneByte(x: byte)
    ensures ByteSwap(x, 1) == x
  {
    assert ToLE(x, 1) == [x];
    NetworkToHost([x]);
    assert FromLE([x]) == x == FromBE([x]);
  }

  /** A big-endian reading determines the bytes it was made from. */
  lemma {:induction false} BigEndianImage(s: seq<byte>)
    ensures FromBE(s) < Pow256(|s|)
    ensures ToLE(ByteSwap(FromBE(s), |s|), |s|) == s
  {
    NetworkToHost(s);
    FromLEBound(s);
    FromLEBound(Reverse(ToLE(FromLE(s), |s|)));
    SwapTwice(FromLE(s), |s|);
    ToFromLE(s);
  }

  lemma {:induction false} Pow256Eight()
    ensures Pow256(8) == 0x1_0000_0000_0000_0000
  {
    assert Pow256(4) == 0x1_0000_0000;
    assert Pow256(6) == 256 * Pow256(5) && Pow256(5) == 256 * Pow256(4);
  }
}
