/** `readFloat`, `readDouble` and `readStringFVint` take a variable-length integer where the
    writers put one of fixed width. */
module Mismatch {
  import opened Base
  import opened Blocks
  import opened BlockRead
  import opened Codec
  import opened Stream

  // --- seven bits against eight ---

  lemma {:induction false} DigitsBelow(bs: Bytes)
    ensures Digits(bs) < Pow2(7 * |bs|)
  {
    if bs != [] {
      DigitsBelow(bs[1..]);
      SevenMore(7 * |bs[1..]|);
    }
  }

  /** Read lowest byte first, eight bits a byte stand for more than seven do. */
  lemma {:induction false} LittleAbove(bs: Bytes)
    ensures Digits(bs) <= FromBytes(bs)
    ensures bs != [] && bs[0] >= 128 ==> Digits(bs) < FromBytes(bs)
  {
    if bs != [] { LittleAbove(bs[1..]); }
  }

  lemma {:induction false} PrefixBelow(bs: Bytes, n: nat)
    requires n <= |bs|
    ensures FromBytes(bs[..n]) <= FromBytes(bs)
  {
    if n > 0 {
      assert bs[..n][1..] == bs[1..][..n - 1];
      PrefixBelow(bs[1..], n - 1);
    }
  }

  lemma Scale(q: nat, p: nat, x: nat)
    requires x >= q * p
    ensures 256 * x >= q * (256 * p)
  {}

  lemma {:induction false} LastByte(bs: Bytes)
    requires bs != []
    ensures FromBytes(bs) >= bs[|bs| - 1] * Pow256(|bs| - 1)
  {
    if |bs| > 1 {
      LastByte(bs[1..]);
      Scale(bs[|bs| - 1], Pow256(|bs| - 2), FromBytes(bs[1..]));
    } else {
      assert bs[1..] == [];
      assert Pow256(0) == 1;
    }
  }

  lemma EightMore(n: nat)
    ensures Pow2(n + 8) == 256 * Pow2(n)
  {
    SevenMore(n + 1);
  }

  lemma {:induction false} Pow256Is(k: nat)
    ensures Pow256(k) == Pow2(8 * k)
  {
    if k > 0 {
      Pow256Is(k - 1);
      EightMore(8 * (k - 1));
    }
  }

  lemma AtLeast(q: nat, m: nat, p: nat)
    requires q >= m
    ensures q * p >= m * p
  {}

  /** With the highest byte first, more than one byte of seven bits is less than the whole. */
  lemma BigAbove(bs: Bytes, n: nat)
    requires 1 <= n <= |bs| && bs[0] >= 128
    ensures Digits(bs[..n]) < FromBytes(Reverse(bs))
  {
    var k := |bs|;
    DigitsBelow(bs[..n]);
    LastByte(Reverse(bs));
    AtLeast(bs[0], 128, Pow256(k - 1));
    Pow256Is(k - 1);
    SevenMore(8 * (k - 1));
    Pow2Grows(7 * n, 8 * (k - 1) + 7);
  }

  lemma OneByte(bs: Bytes)
    requires bs != [] && bs[0] < 128
    ensures Digits(bs[..1]) == bs[0]
  {
    assert bs[..1][1..] == [];
  }

  lemma {:induction false} ZeroBytes(k: nat)
    ensures forall i :: 0 <= i < k ==> ToBytes(0, k)[i] == 0
  {
    if k > 0 { ZeroBytes(k - 1); }
  }

  lemma FirstOf(bs: Bytes, n: nat)
    requires 1 <= n <= |bs| && Terminated(bs[..n])
    ensures if n == 1 then bs[0] < 128 else bs[0] >= 128 && bs[..n][0] == bs[0]
  {
    var piece := bs[..n];
    assert piece[0] == bs[0];
  }

  /** The first terminated piece of an integer's bytes stands for the integer only if it is
      one byte long: the lowest one, and all that is left is zero, or the highest one of 0. */
  lemma PieceLittle(bs: Bytes, n: nat)
    requires 1 <= n <= |bs| && Terminated(bs[..n])
    ensures Digits(bs[..n]) == FromBytes(bs) <==> n == 1 && FromBytes(bs) < 128
  {
    FirstOf(bs, n);
    if n == 1 { LowestAlone(bs); } else { MoreThanLowest(bs, bs[..n], n); }
  }

  lemma LowestAlone(bs: Bytes)
    requires bs != [] && bs[0] < 128
    ensures Digits(bs[..1]) == FromBytes(bs) <==> FromBytes(bs) < 128
  {
    OneByte(bs);
    assert FromBytes(bs) == bs[0] + 256 * FromBytes(bs[1..]);
  }

  lemma MoreThanLowest(bs: Bytes, piece: Bytes, n: nat)
    requires 1 < n <= |bs| && piece == bs[..n] && piece[0] >= 128
    ensures Digits(piece) < FromBytes(bs)
  {
    LittleAbove(piece);
    PrefixBelow(bs, n);
  }

  lemma PieceBig(bs: Bytes, n: nat)
    requires 1 <= n <= |bs| && |bs| > 1 && Terminated(bs[..n])
    ensures Digits(bs[..n]) == FromBytes(Reverse(bs)) <==> n == 1 && FromBytes(Reverse(bs)) == 0
  {
    FirstOf(bs, n);
    if n == 1 { HighestAlone(bs); } else { BigAbove(bs, n); }
  }

  lemma HighestAlone(bs: Bytes)
    requires |bs| > 1 && bs[0] < 128
    ensures Digits(bs[..1]) == FromBytes(Reverse(bs)) <==> FromBytes(Reverse(bs)) == 0
  {
    OneByte(bs);
    LastByte(Reverse(bs));
    assert Pow256(|bs| - 1) == 256 * Pow256(|bs| - 2);
    AtLeast(Pow256(|bs| - 1), 256, bs[0]);
  }

  // --- the reader ---

  lemma {:induction false} VarintAdvances(data: Bytes, c: Cursor, bits: nat, shift: nat, acc: nat)
    requires acc < Pow2(bits) && ReadVarint(Flat(data), c, bits, shift, acc).Parsed?
    ensures var end := ReadVarint(Flat(data), c, bits, shift, acc).next.position;
      c.position <= end && (shift < bits ==> c.position < end <= |data|)
    decreases bits - shift
  {
    if shift < bits {
      var t := Take(Flat(data), c, 1);
      var byte := t.outcome.data[0];
      var more := (acc + byte % 128 * Pow2(shift)) % Pow2(bits);
      if byte >= 128 { VarintAdvances(data, t.next, bits, shift + 7, more); }
    }
  }

  lemma MoreBits(acc: nat, d: nat, shift: nat, bits: nat)
    requires acc < Pow2(shift) && d < 128 && shift + 7 <= bits
    ensures acc + d * Pow2(shift) < Pow2(shift + 7) <= Pow2(bits)
  {
    SevenMore(shift);
    Pow2Grows(shift + 7, bits);
    AtLeast(127, d, Pow2(shift));
  }

  /** The first round of the loop: the byte is the last one, or more follow. */
  lemma Round(data: Bytes, c: Cursor, bits: nat, shift: nat, acc: nat, d: Byte) returns (more: nat)
    requires acc < Pow2(shift) && acc < Pow2(bits) && shift + 7 <= bits && c.position < |data| && data[c.position] == d
    ensures more == acc + d % 128 * Pow2(shift) && more < Pow2(shift + 7) && more < Pow2(bits)
    ensures ReadVarint(Flat(data), c, bits, shift, acc) == var next := Cursor(c.position + 1, c.at);
      if d < 128 then Parsed(more, next) else ReadVarint(Flat(data), next, bits, shift + 7, more)
  {
    more := acc + d % 128 * Pow2(shift);
    MoreBits(acc, d % 128, shift, bits);
    Small(more, Pow2(bits));
    assert Take(Flat(data), c, 1).outcome.data[0] == d;
  }

  lemma OneMore(bs: Bytes)
    requires bs != [] && if bs[0] < 128 then |bs| == 1 else Terminated(bs[1..])
    ensures Terminated(bs)
  {
    if bs[0] >= 128 {
      var rest := bs[1..];
      assert forall i :: 1 <= i < |bs| ==> bs[i] == rest[i - 1];
    }
  }

  lemma DigitsStep(bs: Bytes, acc: nat, shift: nat)
    requires bs != []
    ensures acc + bs[0] % 128 * Pow2(shift) + Digits(bs[1..]) * Pow2(shift + 7) == acc + Digits(bs) * Pow2(shift)
  {
    SevenMore(shift);
    Digit(bs[0] % 128, Digits(bs[1..]), Pow2(shift));
  }

  /** A reader that stops at `end`, before its shift runs out, has read a terminated string
      and returns what it stands for. */
  lemma {:induction false} StopsAt(data: Bytes, c: Cursor, bits: nat, shift: nat, acc: nat, end: nat)
    requires acc < Pow2(shift) && acc < Pow2(bits) && c.position <= end && shift + 7 * (end - c.position) < bits
    requires ReadVarint(Flat(data), c, bits, shift, acc).Parsed?
    requires ReadVarint(Flat(data), c, bits, shift, acc).next.position == end
    ensures c.position < end <= |data| && Terminated(data[c.position..end])
    ensures ReadVarint(Flat(data), c, bits, shift, acc).value == acc + Digits(data[c.position..end]) * Pow2(shift)
    decreases end - c.position
  {
    VarintAdvances(data, c, bits, shift, acc);
    var bs, d := data[c.position..end], data[c.position];
    var more := Round(data, c, bits, shift, acc, d);
    DigitsStep(bs, acc, shift);
    if d >= 128 {
      StopsAt(data, Cursor(c.position + 1, c.at), bits, shift + 7, more, end);
      assert bs[1..] == data[c.position + 1..end];
    } else {
      assert bs[1..] == [];
    }
    OneMore(bs);
  }

  /** The bytes of an integer of `width` bytes, at `p`, read by the loop for as many bits. */
  function ReadBack(data: Bytes, p: nat, width: nat): Parsed<nat> {
    ReadVarint(Flat(data), Cursor(p, 0), 8 * width, 0, 0)
  }

  lemma Piece(bs: Bytes, endian: Order, v: nat, n: nat)
    requires 1 <= n <= |bs| && |bs| > 1 && Terminated(bs[..n]) && FromMemory(bs, endian) == v
    ensures Digits(bs[..n]) == v <==> n == 1 && (v == 0 || (endian.Little? && v < 128))
  {
    if endian.Little? { PieceLittle(bs, n); } else { PieceBig(bs, n); }
  }

  lemma StopsInside(data: Bytes, p: nat, width: nat, n: nat)
    requires n <= width && width > 0
    requires ReadBack(data, p, width).Parsed? && ReadBack(data, p, width).next.position == p + n
    ensures n > 0 && p + n <= |data| && Terminated(data[p..p + n])
    ensures ReadBack(data, p, width).value == Digits(data[p..p + n])
  {
    assert Pow2(0) == 1;
    StopsAt(data, Cursor(p, 0), 8 * width, 0, 0, p + n);
  }

  lemma Meaning(v: nat, width: nat, endian: Order, host: Order)
    requires v < Pow256(width)
    ensures FromMemory(WriteFixed(v, width, endian, host), endian) == v
  {
    FixedRoundTrip(v, width, endian, host, host);
    WireValue(WriteFixed(v, width, endian, host), endian, host);
  }

  lemma Front(data: Bytes, p: nat, bs: Bytes, n: nat)
    requires Holds(data, p, bs) && n <= |bs|
    ensures data[p..p + n] == bs[..n]
  {
    assert data[p..p + n] == data[p..p + |bs|][..n];
  }

  /** If the reader stops inside the integer, it returns the value exactly when it read one
      byte and the value is 0, or below 128 and its lowest byte comes first. */
  lemma ValueBack(v: nat, width: nat, endian: Order, host: Order, data: Bytes, p: nat, n: nat)
    requires width > 1 && v < Pow256(width) && Holds(data, p, WriteFixed(v, width, endian, host)) && n <= width
    requires ReadBack(data, p, width).Parsed? && ReadBack(data, p, width).next.position == p + n
    ensures ReadBack(data, p, width).value == v <==> n == 1 && (v == 0 || (endian.Little? && v < 128))
  {
    var bs := WriteFixed(v, width, endian, host);
    Meaning(v, width, endian, host);
    StopsInside(data, p, width, n);
    Front(data, p, bs, n);
    Piece(bs, endian, v, n);
  }

  /** `readFloat` after `writeFloat`, and `readDouble` after `writeDouble`: never both the
      value and the place behind it. */
  lemma NeverBack(v: nat, width: nat, endian: Order, host: Order, data: Bytes, p: nat)
    requires width > 1 && v < Pow256(width) && Holds(data, p, WriteFixed(v, width, endian, host))
    ensures var r := ReadBack(data, p, width); !(r.Parsed? && r.value == v && r.next.position == p + width)
  {
    var r := ReadBack(data, p, width);
    if r.Parsed? && r.next.position == p + width { ValueBack(v, width, endian, host, data, p, width); }
  }

  lemma ZeroFirst(bs: Bytes, width: nat, endian: Order, host: Order)
    requires width > 1 && bs == WriteFixed(0, width, endian, host)
    ensures bs[0] == 0
  {
    WireFormat(0, width, endian, host);
    ZeroBytes(width);
  }

  lemma StopsAtZero(data: Bytes, c: Cursor, bits: nat)
    requires bits >= 7 && c.position < |data| && data[c.position] == 0
    ensures ReadVarint(Flat(data), c, bits, 0, 0) == Parsed(0, Cursor(c.position + 1, c.at))
  {
    assert Pow2(0) == 1;
    var more := Round(data, c, bits, 0, 0, 0);
  }

  /** 0 does come back, and all but its first byte is left to read. */
  lemma ZeroBack(width: nat, endian: Order, host: Order, data: Bytes, p: nat)
    requires width > 1 && Holds(data, p, WriteFixed(0, width, endian, host))
    ensures ReadBack(data, p, width) == Parsed(0, Cursor(p + 1, 0))
  {
    var bs := WriteFixed(0, width, endian, host);
    ZeroFirst(bs, width, endian, host);
    Front(data, p, bs, 1);
    assert data[p] == data[p..p + 1][0];
    StopsAtZero(data, Cursor(p, 0), 8 * width);
  }

  /** `readStringFVint` after `writeStringVint`: never both the string and the place behind
      it, for no string. */
  lemma VintNeverBack(s: Bytes, endian: Order, host: Order, data: Bytes, p: nat)
    requires |s| < Pow256(8) && Holds(data, p, WriteFixed(|s|, 8, endian, host))
    ensures var length := ReadBack(data, p, 8);
      var r := if length.Parsed? then DecodeText(8, length.value, Flat(data), length.next) else Failed(length.why);
      !(r.Parsed? && r.value == Text(8, s) && r.next.position == p + 8 + |s|)
  {
    NeverBack(|s|, 8, endian, host, data, p);
  }
}
