/** The typed encodings of `ByteArray`: variable-length and fixed-width integers. */
module Codec {
  import opened Base
  import opened Blocks

  function Pow2(n: nat): (r: nat)
    ensures r >= 1
  {
    if n == 0 then 1 else 2 * Pow2(n - 1)
  }

  lemma SevenMore(n: nat)
    ensures Pow2(n + 7) == 128 * Pow2(n)
  {
    assert Pow2(n + 7) == 2 * Pow2(n + 6) == 4 * Pow2(n + 5) == 8 * Pow2(n + 4);
    assert Pow2(n + 4) == 2 * Pow2(n + 3) == 4 * Pow2(n + 2) == 8 * Pow2(n + 1);
  }

  lemma {:induction false} Pow2Grows(m: nat, n: nat)
    requires m <= n
    ensures Pow2(m) <= Pow2(n)
  {
    if m < n { Pow2Grows(m, n - 1); }
  }

  // --- varint ---

  /** Seven bits a byte, lowest first; the top bit says that more follow. */
  function Varint(v: nat): (r: Bytes)
    ensures |r| > 0
  {
    if v < 128 then [v] else [128 + v % 128] + Varint(v / 128)
  }

  /** The loops of `writeUint32` and `writeUint64`: `tmp` is the buffer, whose size in
      bytes is `room`. */
  method VarintBytes(value: nat, room: nat) returns (tmp: Bytes)
    requires room > 0 && value < Pow2(7 * room)
    ensures tmp == Varint(value) && |tmp| <= room
  {
    var v := value;
    tmp := [];
    while v >= 128
      invariant tmp + Varint(v) == Varint(value)
    {
      assert tmp + ([128 + v % 128] + Varint(v / 128)) == (tmp + [128 + v % 128]) + Varint(v / 128);
      tmp := tmp + [v % 128 + 128];
      v := v / 128;
    }
    tmp := tmp + [v];
    VarintFits(value, room);
  }

  lemma Quotient7(v: nat, p: nat)
    requires v < 128 * p
    ensures v / 128 < p
  {}

  lemma {:induction false} VarintFits(v: nat, n: nat)
    requires n > 0 && v < Pow2(7 * n)
    ensures |Varint(v)| <= n
  {
    if v >= 128 {
      if n == 1 {
        SevenMore(0);
      } else {
        SevenMore(7 * (n - 1));
        Quotient7(v, Pow2(7 * (n - 1)));
        VarintFits(v / 128, n - 1);
      }
    }
  }

  /** A `uint32_t` takes at most five bytes, a `uint64_t` at most ten. */
  lemma VarintBounds(v: nat)
    ensures v < Pow2(32) ==> |Varint(v)| <= 5
    ensures v < Pow2(64) ==> |Varint(v)| <= 10
  {
    if v < Pow2(32) { Pow2Grows(32, 35); VarintFits(v, 5); }
    if v < Pow2(64) { Pow2Grows(64, 70); VarintFits(v, 10); }
  }

  /** What a byte string with seven bits a byte stands for. */
  function Digits(bs: Bytes): nat {
    if bs == [] then 0 else bs[0] % 128 + 128 * Digits(bs[1..])
  }

  /** The top bit is set on every byte but the last. */
  predicate Terminated(bs: Bytes) {
    bs != [] && bs[|bs| - 1] < 128 && forall i :: 0 <= i < |bs| - 1 ==> bs[i] >= 128
  }

  lemma {:induction false} VarintTerminated(v: nat)
    ensures Terminated(Varint(v)) && Digits(Varint(v)) == v
  {
    if v >= 128 {
      VarintTerminated(v / 128);
      assert Varint(v)[1..] == Varint(v / 128);
    } else {
      assert Varint(v)[1..] == [];
    }
  }

  /** No terminated byte string for the same value is shorter than the one written. */
  lemma {:induction false} VarintMinimal(bs: Bytes)
    requires Terminated(bs)
    ensures |Varint(Digits(bs))| <= |bs|
  {
    if |bs| == 1 {
      assert bs[1..] == [];
    } else if Digits(bs) >= 128 {
      assert bs[0] >= 128;
      VarintMinimal(bs[1..]);
      assert Digits(bs) / 128 == Digits(bs[1..]);
    }
  }

  /** No encoding is a proper prefix of another. */
  lemma {:induction false} VarintPrefixFree(v: nat, w: nat)
    requires Varint(v) <= Varint(w)
    ensures v == w
  {
    VarintTerminated(v);
    VarintTerminated(w);
    var x, y := Varint(v), Varint(w);
    assert x[|x| - 1] == y[|x| - 1];
    assert x == y;
  }

  // --- fixed width ---

  datatype Order = Little | Big

  function Pow256(k: nat): (r: nat)
    ensures r >= 1
  {
    if k == 0 then 1 else 256 * Pow256(k - 1)
  }

  /** The low `k` bytes of `v`, lowest first. */
  function ToBytes(v: nat, k: nat): (r: Bytes)
    ensures |r| == k
  {
    if k == 0 then [] else [v % 256] + ToBytes(v / 256, k - 1)
  }

  function FromBytes(bs: Bytes): (r: nat)
    ensures r < Pow256(|bs|)
  {
    if bs == [] then 0 else bs[0] + 256 * FromBytes(bs[1..])
  }

  function Reverse(bs: Bytes): (r: Bytes)
    ensures |r| == |bs| && forall i :: 0 <= i < |bs| ==> r[i] == bs[|bs| - 1 - i]
  {
    seq(|bs|, i requires 0 <= i < |bs| => bs[|bs| - 1 - i])
  }

  lemma Quotient8(v: nat, p: nat)
    requires v < 256 * p
    ensures v / 256 < p && v == v % 256 + 256 * (v / 256)
  {}

  lemma {:induction false} FromTo(v: nat, k: nat)
    requires v < Pow256(k)
    ensures FromBytes(ToBytes(v, k)) == v
  {
    if k > 0 {
      Quotient8(v, Pow256(k - 1));
      FromTo(v / 256, k - 1);
      assert ToBytes(v, k)[1..] == ToBytes(v / 256, k - 1);
    }
  }

  lemma LowByte(x: nat, q: nat)
    requires x < 256
    ensures (x + 256 * q) % 256 == x && (x + 256 * q) / 256 == q
  {}

  lemma {:induction false} ToFrom(bs: Bytes)
    ensures ToBytes(FromBytes(bs), |bs|) == bs
  {
    if bs != [] {
      LowByte(bs[0], FromBytes(bs[1..]));
      ToFrom(bs[1..]);
    }
  }

  /** The bytes of a `k`-byte integer in the memory of a machine of this byte order. */
  function InMemory(v: nat, k: nat, order: Order): (r: Bytes)
    ensures |r| == k
  {
    if order.Little? then ToBytes(v, k) else Reverse(ToBytes(v, k))
  }

  function FromMemory(bs: Bytes, order: Order): (r: nat)
    ensures r < Pow256(|bs|)
  {
    FromBytes(if order.Little? then bs else Reverse(bs))
  }

  function Byteswap(v: nat, k: nat): (r: nat)
    ensures r < Pow256(k)
  {
    FromBytes(Reverse(ToBytes(v, k)))
  }

  /** `writeFint16` and its like: swapped when the two orders differ, then copied from memory. */
  function WriteFixed(v: nat, k: nat, endian: Order, host: Order): (r: Bytes)
    ensures |r| == k
  {
    InMemory(if endian != host then Byteswap(v, k) else v, k, host)
  }

  /** `readFint16` and its like. */
  function ReadFixed(bs: Bytes, endian: Order, host: Order): nat {
    var v := FromMemory(bs, host);
    if endian == host then v else Byteswap(v, |bs|)
  }

  lemma ReverseTwice(bs: Bytes)
    ensures Reverse(Reverse(bs)) == bs
  {}

  /** The bytes in the stream depend on the chosen order alone, not on the machine. */
  lemma WireFormat(v: nat, k: nat, endian: Order, host: Order)
    ensures WriteFixed(v, k, endian, host) == InMemory(v, k, endian)
  {
    if endian != host {
      ToFrom(Reverse(ToBytes(v, k)));
      ReverseTwice(ToBytes(v, k));
    }
  }

  /** The same for the reader. */
  lemma WireValue(bs: Bytes, endian: Order, host: Order)
    ensures ReadFixed(bs, endian, host) == FromMemory(bs, endian)
  {
    if endian != host {
      ReverseTwice(bs);
      ToFrom(if host.Little? then bs else Reverse(bs));
    }
  }

  /** A value written on one machine is read back on any other. */
  lemma FixedRoundTrip(v: nat, k: nat, endian: Order, host: Order, other: Order)
    requires v < Pow256(k)
    ensures ReadFixed(WriteFixed(v, k, endian, host), endian, other) == v
  {
    WireFormat(v, k, endian, host);
    WireValue(InMemory(v, k, endian), endian, other);
    ReverseTwice(ToBytes(v, k));
    FromTo(v, k);
  }

  /** A signed integer as the unsigned one with the same bits, and back. */
  function ToUnsigned(i: int, k: nat): (r: nat)
    requires InSigned(i, k)
    ensures r < Pow256(k)
  {
    if i < 0 then i + Pow256(k) else i
  }

  function ToSigned(u: nat, k: nat): int {
    if 2 * u >= Pow256(k) then u - Pow256(k) else u
  }

  predicate InSigned(i: int, k: nat) {
    0 <= 2 * i + Pow256(k) && 2 * i < Pow256(k)
  }

  /** The ranges of the four signed types. */
  lemma SignedRange(i: int)
    ensures InSigned(i, 1) <==> -128 <= i <= 127
    ensures InSigned(i, 2) <==> -0x8000 <= i <= 0x7FFF
    ensures InSigned(i, 4) <==> -0x8000_0000 <= i <= 0x7FFF_FFFF
    ensures InSigned(i, 8) <==> -0x8000_0000_0000_0000 <= i <= 0x7FFF_FFFF_FFFF_FFFF
  {
    assert Pow256(2) == 0x1_0000;
    assert Pow256(4) == 0x1_0000 * Pow256(2);
    assert Pow256(6) == 0x1_0000 * Pow256(4);
    assert Pow256(8) == 0x1_0000 * Pow256(6);
  }
}
