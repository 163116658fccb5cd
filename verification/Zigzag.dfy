/** Zigzag: signed integers as unsigned ones with the small absolute values first. */
module Zigzag {
  /** A 32-bit word, held in the low half. */
  predicate Half(v: bv64) {
    v < 0x1_0000_0000
  }

  predicate Negative64(v: bv64) {
    v >= 0x8000_0000_0000_0000
  }

  /** `(v << 1) ^ (v >> 31)` on an `int32_t`; the right shift copies the sign. */
  function EncodeZigzag32(v: bv64): bv64 {
    ((v << 1) ^ (if v & 0x8000_0000 == 0 then 0 else 0xFFFF_FFFF)) & 0xFFFF_FFFF
  }

  /** `(v >> 1) ^ -(v & 1)` on a `uint32_t`. */
  function DecodeZigzag32(u: bv64): bv64 {
    (u >> 1) ^ (if u & 1 == 0 then 0 else 0xFFFF_FFFF)
  }

  /** `(v << 1) ^ (v >> 31)`, as written, on an `int64_t`. */
  function EncodeZigzag64(v: bv64): bv64 {
    (v << 1) ^ (if Negative64(v) then !(!v >> 31) else v >> 31)
  }

  /** `(v << 1) ^ (v >> 63)`, the function that `DecodeZigzag64` inverts. */
  function Zigzag64(v: bv64): bv64 {
    (v << 1) ^ (if Negative64(v) then 0xFFFF_FFFF_FFFF_FFFF else 0)
  }

  function DecodeZigzag64(u: bv64): bv64 {
    (u >> 1) ^ (if u & 1 == 0 then 0 else 0xFFFF_FFFF_FFFF_FFFF)
  }

  lemma Zigzag32Positive(v: bv64)
    requires Half(v) && v & 0x8000_0000 == 0
    ensures DecodeZigzag32(EncodeZigzag32(v)) == v
  {}

  lemma Zigzag32Negative(v: bv64)
    requires Half(v) && v & 0x8000_0000 != 0
    ensures DecodeZigzag32(EncodeZigzag32(v)) == v
  {}

  lemma Zigzag32RoundTrip(v: bv64, u: bv64)
    requires Half(v) && u == EncodeZigzag32(v)
    ensures DecodeZigzag32(u) == v
  {
    if v & 0x8000_0000 == 0 { Zigzag32Positive(v); } else { Zigzag32Negative(v); }
  }

  lemma Zigzag32Odd(u: bv64)
    requires Half(u) && u & 1 != 0
    ensures EncodeZigzag32(DecodeZigzag32(u)) == u
  {}

  lemma Zigzag32Even(u: bv64)
    requires Half(u) && u & 1 == 0
    ensures EncodeZigzag32(DecodeZigzag32(u)) == u
  {}

  /** Only `EncodeZigzag32(v)` decodes to `v`. */
  lemma Zigzag32Inverse(u: bv64, v: bv64)
    requires Half(u) && v == DecodeZigzag32(u)
    ensures EncodeZigzag32(v) == u
  {
    if u & 1 == 0 { Zigzag32Even(u); } else { Zigzag32Odd(u); }
  }

  /** The absolute value of a word read as an `int32_t`. */
  function Magnitude32(v: bv64): bv64 {
    if v < 0x8000_0000 then v else 0x1_0000_0000 - v
  }

  /** The numbers behind the encoding: 0, -1, 1, -2, 2, ... become 0, 1, 2, 3, 4, ... */
  lemma Zigzag32Is(v: bv64)
    requires Half(v)
    ensures v < 0x8000_0000 ==> EncodeZigzag32(v) == v + v
    ensures v >= 0x8000_0000 ==> EncodeZigzag32(v) == Magnitude32(v) + Magnitude32(v) - 1
  {}

  /** The `int64_t` values that an `int32_t` can hold. */
  predicate InInt32(v: bv64) {
    v < 0x8000_0000 || v >= 0xFFFF_FFFF_8000_0000
  }

  lemma SmallPositive(v: bv64)
    requires v < 0x8000_0000
    ensures DecodeZigzag64(EncodeZigzag64(v)) == v
  {}

  lemma LargePositive(v: bv64)
    requires !Negative64(v) && v >= 0x8000_0000
    ensures DecodeZigzag64(EncodeZigzag64(v)) != v
  {}

  lemma SmallNegative(v: bv64)
    requires v >= 0xFFFF_FFFF_8000_0000
    ensures DecodeZigzag64(EncodeZigzag64(v)) == v
  {}

  lemma LargeNegative(v: bv64)
    requires Negative64(v) && v < 0xFFFF_FFFF_8000_0000
    ensures DecodeZigzag64(EncodeZigzag64(v)) != v
  {}

  lemma Shift63Positive(v: bv64)
    requires !Negative64(v)
    ensures DecodeZigzag64(Zigzag64(v)) == v
  {}

  lemma Shift63Negative(v: bv64)
    requires Negative64(v)
    ensures DecodeZigzag64(Zigzag64(v)) == v
  {}

  /** The encoder as written is inverted exactly on the `int32_t` range; with a shift
      by 63 it would be inverted everywhere. */
  lemma Zigzag64RoundTrip(v: bv64, u: bv64, w: bv64)
    requires u == EncodeZigzag64(v) && w == Zigzag64(v)
    ensures DecodeZigzag64(u) == v <==> InInt32(v)
    ensures DecodeZigzag64(w) == v
  {
    if Negative64(v) {
      Shift63Negative(v);
      if InInt32(v) { SmallNegative(v); } else { LargeNegative(v); }
    } else {
      Shift63Positive(v);
      if InInt32(v) { SmallPositive(v); } else { LargePositive(v); }
    }
  }

  /** The absolute value of a word read as an `int64_t`. */
  function Magnitude64(v: bv64): bv64 {
    if v < 0x8000_0000_0000_0000 then v else 0 - v
  }

  /** The same for 64 bits, with the shift by 63. */
  lemma Zigzag64Is(v: bv64)
    ensures v < 0x8000_0000_0000_0000 ==> Zigzag64(v) == v + v
    ensures v >= 0x8000_0000_0000_0000 ==> Zigzag64(v) == Magnitude64(v) + Magnitude64(v) - 1
  {}

  /** Only `Zigzag64(v)` decodes to `v`. */
  lemma Zigzag64Inverse(u: bv64, v: bv64)
    requires v == DecodeZigzag64(u)
    ensures Zigzag64(v) == u
  {
    if u & 1 == 0 { Zigzag64Even(u); } else { Zigzag64Odd(u); }
  }

  lemma Zigzag64Odd(u: bv64)
    requires u & 1 != 0
    ensures Zigzag64(DecodeZigzag64(u)) == u
  {}

  lemma Zigzag64Even(u: bv64)
    requires u & 1 == 0
    ensures Zigzag64(DecodeZigzag64(u)) == u
  {}

  /** A mask that has, with any bit, all higher ones. */
  predicate UpTo(mask: bv64) {
    (mask << 1) & !mask == 0
  }

  lemma SameLengthPositive(v: bv64, mask: bv64)
    requires UpTo(mask) && Zigzag64(v) & mask == 0 && !Negative64(v)
    ensures EncodeZigzag64(v) & mask == 0
  {}

  lemma SameLengthNegative(v: bv64, mask: bv64)
    requires UpTo(mask) && Zigzag64(v) & mask == 0 && Negative64(v)
    ensures EncodeZigzag64(v) & mask == 0
  {}

  /** The encoding as written has no higher bit than the intended one, so it is not longer. */
  lemma SameLength(v: bv64, u: bv64, mask: bv64)
    requires u == Zigzag64(v) && UpTo(mask) && u & mask == 0
    ensures EncodeZigzag64(v) & mask == 0
  {
    if Negative64(v) { SameLengthNegative(v, mask); } else { SameLengthPositive(v, mask); }
  }
}
