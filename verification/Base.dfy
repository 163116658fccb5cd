/** Types, and functions on texts, shared by the other modules. */
module Base {
  datatype Option<+T> = None | Some(value: T)

  datatype Result<+T, +E> = Ok(value: T) | Err(error: E)

  /** One past the largest `uint64_t`. */
  const TWO64: nat := 0x1_0000_0000_0000_0000

  function One(b: bool): nat {
    if b then 1 else 0
  }

  type Byte = x: nat | x < 256

  predicate IsDigit(c: char) {
    '0' <= c <= '9'
  }

  function DigitChar(d: nat): (c: char)
    requires d < 10
    ensures IsDigit(c) && (c - '0') as nat == d
  {
    '0' + d as char
  }

  /** A number printed in base ten. */
  function Decimal(n: nat): (s: string)
    ensures s != "" && (|s| > 1 ==> s[0] != '0')
    ensures forall i :: 0 <= i < |s| ==> IsDigit(s[i])
  {
    if n < 10 then [DigitChar(n)] else Decimal(n / 10) + [DigitChar(n % 10)]
  }

  /** The text has "::" at this place. */
  predicate Gap(s: string, i: nat) {
    i + 1 < |s| && s[i] == ':' && s[i + 1] == ':'
  }

  /** The first place of "::", the length if there is none. */
  function FirstGap(s: string): (k: nat)
    ensures k <= |s| && (forall i :: 0 <= i < k ==> !Gap(s, i)) && (k < |s| ==> Gap(s, k))
  {
    if s == "" || Gap(s, 0) then 0
    else
      var k := FirstGap(s[1..]);
      assert forall i :: 0 < i <= k ==> (Gap(s, i) <==> Gap(s[1..], i - 1));
      1 + k
  }
}
