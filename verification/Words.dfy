/** Machine words and the numbers they stand for, bit by bit. */
module Words {
  import opened Codec
  import opened Zigzag

  function Bit(b: bool): bv64 {
    if b then 1 else 0
  }

  lemma Halving(v: bv64)
    ensures v != 0 ==> v >> 1 < v
    ensures ((v >> 1) << 1) | Bit(v & 1 == 1) == v
  {}

  /** The number that the word stands for. */
  function Number(v: bv64): nat
    decreases v
  {
    if v == 0 then 0
    else
      Halving(v);
      2 * Number(v >> 1) + if v & 1 == 1 then 1 else 0
  }

  /** The low 64 bits of the number. */
  function Word(u: nat): bv64 {
    if u == 0 then 0 else (Word(u / 2) << 1) | Bit(u % 2 == 1)
  }

  lemma NumberHalf(v: bv64)
    requires v != 0
    ensures Number(v) / 2 == Number(v >> 1) && (Number(v) % 2 == 1 <==> v & 1 == 1)
  {}

  lemma NumberZero(v: bv64)
    requires v != 0 && Number(v) == 0
    ensures v & 1 != 1 && Number(v >> 1) == 0
  {}

  lemma WordStep(v: bv64, n: nat, h: bv64, low: bool)
    requires h == v >> 1 && (low <==> v & 1 == 1) && Word(n / 2) == h && (n % 2 == 1 <==> low)
    ensures n != 0 ==> Word(n) == v
  {
    Halving(v);
  }

  lemma Nothing(v: bv64)
    requires v >> 1 == 0 && v & 1 != 1
    ensures v == 0
  {}

  lemma {:induction false} WordOfNumber(v: bv64)
    ensures Word(Number(v)) == v
    decreases v
  {
    if v != 0 {
      Halving(v);
      var h := v >> 1;
      WordOfNumber(h);
      NumberHalf(v);
      WordStep(v, Number(v), h, v & 1 == 1);
      if Number(v) == 0 {
        NumberZero(v);
        Nothing(v);
      }
    }
  }

  /** All bits from bit `n` on. */
  function High(n: nat): bv64 {
    if n == 0 then 0xFFFF_FFFF_FFFF_FFFF else High(n - 1) << 1
  }

  lemma MaskShift(mask: bv64)
    requires UpTo(mask)
    ensures UpTo(mask << 1)
  {}

  lemma {:induction false} HighUpTo(n: nat)
    ensures UpTo(High(n))
  {
    if n > 0 {
      HighUpTo(n - 1);
      MaskShift(High(n - 1));
    }
  }

  /** No bit of the word from bit `n` on. */
  predicate Within(v: bv64, n: nat) {
    v & High(n) == 0
  }

  lemma ShiftDown(v: bv64, mask: bv64)
    requires v & (mask << 1) == 0
    ensures (v >> 1) & mask == 0
  {}

  lemma WithinHalf(v: bv64, n: nat)
    requires n > 0 && Within(v, n)
    ensures Within(v >> 1, n - 1)
  {
    ShiftDown(v, High(n - 1));
  }

  lemma WithinNothing(v: bv64)
    requires Within(v, 0)
    ensures v == 0
  {}

  lemma NumberStep(v: bv64, h: bv64)
    requires h == v >> 1
    ensures Number(v) <= 2 * Number(h) + 1
  {}

  lemma {:induction false} NumberBelow(v: bv64, n: nat)
    requires Within(v, n)
    ensures Number(v) < Pow2(n)
    decreases n
  {
    if n == 0 {
      WithinNothing(v);
    } else {
      WithinHalf(v, n);
      var h := v >> 1;
      NumberBelow(h, n - 1);
      NumberStep(v, h);
    }
  }

  lemma ShiftUp(v: bv64, mask: bv64, low: bv64, w: bv64, up: bv64)
    requires v & mask == 0 && low <= 1 && w == (v << 1) | low && up == mask << 1
    ensures w & up == 0
  {}

  lemma WithinTwice(v: bv64, n: nat, low: bv64, w: bv64)
    requires n > 0 && Within(v, n - 1) && low <= 1 && w == (v << 1) | low
    ensures Within(w, n)
  {
    ShiftUp(v, High(n - 1), low, w, High(n));
  }

  lemma ZeroWithin(n: nat)
    ensures Within(0, n)
  {}

  lemma {:induction false} WordBelow(u: nat, n: nat)
    requires u < Pow2(n)
    ensures Within(Word(u), n)
    decreases n
  {
    if u == 0 || n == 0 {
      ZeroWithin(n);
    } else {
      WordBelow(u / 2, n - 1);
      WithinTwice(Word(u / 2), n, Bit(u % 2 == 1), Word(u));
    }
  }

  lemma WrittenWithin(d: bv64, w: bv64, n: nat)
    requires w == Zigzag64(d) && Within(w, n)
    ensures Within(EncodeZigzag64(d), n)
  {
    HighUpTo(n);
    SameLength(d, w, High(n));
  }

  /** What lies below `2^n` when the intended encoding does. */
  lemma WrittenBelow(d: bv64, u: nat, n: nat)
    requires u < Pow2(n) && Word(u) == Zigzag64(d)
    ensures Number(EncodeZigzag64(d)) < Pow2(n)
  {
    WordBelow(u, n);
    WrittenWithin(d, Word(u), n);
    NumberBelow(EncodeZigzag64(d), n);
  }

  lemma HighEnds()
    ensures High(64) == 0
    ensures High(32) == 0xFFFF_FFFF_0000_0000
  {
    assert High(8) == 0xFFFF_FFFF_FFFF_FF00;
    assert High(16) == 0xFFFF_FFFF_FFFF_0000;
    assert High(24) == 0xFFFF_FFFF_FF00_0000;
    assert High(32) == 0xFFFF_FFFF_0000_0000;
    assert High(40) == 0xFFFF_FF00_0000_0000;
    assert High(48) == 0xFFFF_0000_0000_0000;
    assert High(56) == 0xFF00_0000_0000_0000;
  }

  lemma NumberRange(v: bv64)
    ensures Number(v) < Pow2(64)
  {
    HighEnds();
    NumberBelow(v, 64);
  }

  lemma HalfMask(v: bv64)
    ensures Half(v) <==> v & 0xFFFF_FFFF_0000_0000 == 0
  {}

  lemma WithinHalfWord(v: bv64)
    ensures Half(v) <==> Within(v, 32)
  {
    HighEnds();
    HalfMask(v);
  }

  lemma EncodedHalf(v: bv64, u: bv64)
    requires u == EncodeZigzag32(v)
    ensures Half(u)
  {}

  /** A 32-bit zigzag integer through its number and back. */
  lemma Trip32(v: bv64, x: bv64, u: nat)
    requires Half(v) && x == EncodeZigzag32(v) && u == Number(x)
    ensures u < Pow2(32) && DecodeZigzag32(Word(u)) == v
  {
    EncodedHalf(v, x);
    WithinHalfWord(x);
    NumberBelow(x, 32);
    WordOfNumber(x);
    Zigzag32RoundTrip(v, x);
  }

  /** The number written for `v` is no longer than one that reads as `v`. */
  lemma NoLonger32(v: bv64, x: bv64, u: nat, n: nat)
    requires u < Pow2(n) && u < Pow2(32) && x == Word(u) && DecodeZigzag32(x) == v
    ensures Number(EncodeZigzag32(v)) < Pow2(n)
  {
    WordBelow(u, 32);
    WithinHalfWord(x);
    Zigzag32Inverse(x, v);
    WordBelow(u, n);
    NumberBelow(x, n);
  }

  lemma Trip64(v: bv64, x: bv64, u: nat)
    requires x == EncodeZigzag64(v) && u == Number(x)
    ensures u < Pow2(64) && (DecodeZigzag64(Word(u)) == v <==> InInt32(v))
  {
    NumberRange(x);
    WordOfNumber(x);
    Zigzag64RoundTrip(v, x, Zigzag64(v));
  }

  lemma NoLonger64(v: bv64, x: bv64, u: nat, n: nat)
    requires u < Pow2(n) && x == Word(u) && DecodeZigzag64(x) == v
    ensures Number(EncodeZigzag64(v)) < Pow2(n)
  {
    Zigzag64Inverse(x, v);
    WrittenBelow(v, u, n);
  }
}
