/** Equal blocks standing for one flat byte sequence, and the cursor that walks them. */
module Blocks {
  import opened Base

  type Bytes = seq<Byte>

  function Flatten(blocks: seq<Bytes>): Bytes {
    if blocks == [] then [] else blocks[0] + Flatten(blocks[1..])
  }

  /** Where block `i` starts: `i` blocks of `b` bytes. */
  function Start(i: nat, b: nat): nat {
    if i == 0 then 0 else Start(i - 1, b) + b
  }

  predicate Uniform(blocks: seq<Bytes>, b: nat) {
    forall i :: 0 <= i < |blocks| ==> |blocks[i]| == b
  }

  /** `f` with the bytes from `p` on replaced by `xs`. */
  function Overwrite(f: Bytes, p: nat, xs: Bytes): (r: Bytes)
    requires p + |xs| <= |f|
    ensures |r| == |f|
  {
    seq(|f|, i requires 0 <= i < |f| => if p <= i < p + |xs| then xs[i - p] else f[i])
  }

  lemma {:induction false} FlattenLength(blocks: seq<Bytes>, b: nat)
    requires Uniform(blocks, b)
    ensures |Flatten(blocks)| == Start(|blocks|, b)
  {
    if blocks != [] { FlattenLength(blocks[1..], b); }
  }

  lemma {:induction false} FlattenConcat(x: seq<Bytes>, y: seq<Bytes>)
    ensures Flatten(x + y) == Flatten(x) + Flatten(y)
  {
    if x == [] {
      assert x + y == y;
    } else {
      assert (x + y)[1..] == x[1..] + y;
      FlattenConcat(x[1..], y);
    }
  }

  lemma Associate(x: Bytes, y: Bytes, z: Bytes)
    ensures x + (y + z) == x + y + z
  {}

  lemma FlattenSplit(blocks: seq<Bytes>, i: nat)
    requires i < |blocks|
    ensures Flatten(blocks) == Flatten(blocks[..i]) + blocks[i] + Flatten(blocks[i + 1..])
  {
    var x, y := blocks[..i], blocks[i..];
    assert blocks == x + y;
    FlattenConcat(x, y);
    assert y[0] == blocks[i] && y[1..] == blocks[i + 1..];
    Associate(Flatten(x), blocks[i], Flatten(blocks[i + 1..]));
  }

  lemma Shift(x: Bytes, y: Bytes, z: Bytes, lo: nat, hi: nat)
    requires lo <= hi <= |y|
    ensures (x + y + z)[|x| + lo..|x| + hi] == y[lo..hi]
  {}

  lemma PrefixLength(blocks: seq<Bytes>, b: nat, i: nat)
    requires Uniform(blocks, b) && i <= |blocks|
    ensures |Flatten(blocks[..i])| == Start(i, b)
  {
    FlattenLength(blocks[..i], b);
  }

  /** A slice of one block is a slice of the flat sequence. */
  lemma BlockSlice(blocks: seq<Bytes>, b: nat, i: nat, lo: nat, hi: nat)
    requires Uniform(blocks, b) && i < |blocks| && lo <= hi <= b
    ensures Start(i, b) + hi <= |Flatten(blocks)|
    ensures Flatten(blocks)[Start(i, b) + lo..Start(i, b) + hi] == blocks[i][lo..hi]
  {
    FlattenSplit(blocks, i);
    PrefixLength(blocks, b, i);
    Shift(Flatten(blocks[..i]), blocks[i], Flatten(blocks[i + 1..]), lo, hi);
  }

  lemma Splice(x: Bytes, y: Bytes, z: Bytes, lo: nat, xs: Bytes)
    requires lo + |xs| <= |y|
    ensures Overwrite(x + y + z, |x| + lo, xs) == x + Overwrite(y, lo, xs) + z
  {}

  lemma SpliceAt(f: Bytes, x: Bytes, y: Bytes, z: Bytes, p: nat, lo: nat, xs: Bytes)
    requires f == x + y + z && p == |x| + lo && lo + |xs| <= |y|
    ensures p + |xs| <= |f| && Overwrite(f, p, xs) == x + Overwrite(y, lo, xs) + z
  {
    Splice(x, y, z, lo, xs);
  }

  /** Overwriting inside one block overwrites the flat sequence. */
  lemma BlockWrite(blocks: seq<Bytes>, b: nat, i: nat, lo: nat, xs: Bytes)
    requires Uniform(blocks, b) && i < |blocks| && lo + |xs| <= b
    ensures Start(i, b) + lo + |xs| <= |Flatten(blocks)|
    ensures Flatten(blocks[i := Overwrite(blocks[i], lo, xs)]) == Overwrite(Flatten(blocks), Start(i, b) + lo, xs)
  {
    FlattenSplit(blocks, i);
    PrefixLength(blocks, b, i);
    SpliceAt(Flatten(blocks), Flatten(blocks[..i]), blocks[i], Flatten(blocks[i + 1..]), Start(i, b) + lo, lo, xs);
    FlattenPut(blocks, i, Overwrite(blocks[i], lo, xs));
  }

  lemma FlattenPut(blocks: seq<Bytes>, i: nat, x: Bytes)
    requires i < |blocks|
    ensures Flatten(blocks[i := x]) == Flatten(blocks[..i]) + x + Flatten(blocks[i + 1..])
  {
    var after := blocks[i := x];
    FlattenSplit(after, i);
    assert after[..i] == blocks[..i] && after[i + 1..] == blocks[i + 1..];
  }

  /** Two consecutive overwrites are one. */
  lemma OverwriteTwice(f: Bytes, p: nat, xs: Bytes, ys: Bytes)
    requires p + |xs| + |ys| <= |f|
    ensures Overwrite(Overwrite(f, p, xs), p + |xs|, ys) == Overwrite(f, p, xs + ys)
  {}

  // --- positions ---

  /** `position` is `off` bytes into block `at`. */
  predicate Located(position: nat, b: nat, at: nat, off: nat) {
    off < b && position == Start(at, b) + off
  }

  lemma {:induction false} StartSum(i: nat, j: nat, b: nat)
    ensures Start(i + j, b) == Start(i, b) + Start(j, b)
  {
    if j > 0 { StartSum(i, j - 1, b); }
  }

  lemma StartBefore(i: nat, n: nat, b: nat)
    requires i < n
    ensures Start(i, b) + b <= Start(n, b)
  {
    StartSum(i + 1, n - i - 1, b);
  }

  /** The block of an offset below `n` blocks is one of them. */
  lemma BlockBelow(i: nat, n: nat, b: nat, p: nat)
    requires Start(i, b) <= p < Start(n, b)
    ensures i < n
  {
    if n < i { StartBefore(n, i, b); }
  }

  lemma {:induction false} StartIsProduct(i: nat, b: nat)
    ensures Start(i, b) == i * b
  {
    if i > 0 {
      StartIsProduct(i - 1, b);
      Distribute(i, i - 1, b);
    }
  }

  lemma Distribute(q: int, a: int, b: int)
    ensures q * b - a * b == (q - a) * b
  {}

  lemma AtLeastOne(d: int, b: nat)
    requires d >= 1
    ensures d * b >= b
  {}

  lemma Quotient(position: nat, b: nat)
    requires b > 0
    ensures position == (position / b) * b + position % b && 0 <= position % b < b
  {}

  lemma Unique(q: nat, a: nat, b: nat, r: nat, off: nat)
    requires r < b && off < b && q * b + r == a * b + off
    ensures q == a && r == off
  {
    if q < a {
      Distribute(a, q, b);
      AtLeastOne(a - q, b);
    } else if q > a {
      Distribute(q, a, b);
      AtLeastOne(q - a, b);
    }
  }

  /** The block and the offset are the quotient and the remainder. */
  lemma Locate(position: nat, b: nat, at: nat, off: nat)
    requires Located(position, b, at, off)
    ensures position % b == off && position / b == at
  {
    Quotient(position, b);
    StartIsProduct(at, b);
    Unique(position / b, at, b, position % b, off);
  }

  lemma Locating(position: nat, b: nat)
    requires b > 0
    ensures Located(position, b, position / b, position % b)
  {
    Quotient(position, b);
    StartIsProduct(position / b, b);
  }
}
