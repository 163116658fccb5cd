/** Typed items written to a `ByteArray` and read back, once with the intended reader on
    the flat bytes and once with the reader as written on the blocks. */
module Stream {
  import opened Base
  import opened Blocks
  import opened BlockRead
  import opened Codec
  import opened Words
  import opened Zigzag

  /** Where the readers take their bytes from: the flat bytes, or the blocks of an array
      of the given size. */
  datatype Bed =
    | Flat(data: Bytes)
    | Blocked(blocks: seq<Bytes>, b: nat, size: nat)

  type Source = s: Bed | s.Blocked? ==> s.b > 0 && Uniform(s.blocks, s.b)
    witness Flat([])

  /** The bytes of one `read`, or why there are none, and where the next one starts. */
  datatype Taken = Taken(outcome: Outcome, next: Cursor)

  datatype Parsed<+T> = Parsed(value: T, next: Cursor) | Failed(why: Outcome)

  /** One `read` of `k` bytes. */
  function Take(src: Source, c: Cursor, k: nat): (t: Taken)
    ensures t.outcome.Read? ==> |t.outcome.data| == k
  {
    match src
    case Flat(data) =>
      if c.position + k > |data| then Taken(TooLong, c)
      else Taken(Read(data[c.position..c.position + k]), Cursor(c.position + k, c.at))
    case Blocked(blocks, b, size) =>
      var r := RawRead(blocks, b, size, c, k);
      ScanLength(blocks, b, c, c.position % b, k);
      Taken(r.outcome, r.cursor)
  }

  /** The loops of `readUint32` and `readUint64`: at most one byte for every seven of the
      `bits`, and the result keeps `bits` bits. */
  function ReadVarint(src: Source, c: Cursor, bits: nat, shift: nat, acc: nat): (r: Parsed<nat>)
    requires acc < Pow2(bits)
    ensures r.Parsed? ==> r.value < Pow2(bits)
    decreases bits - shift
  {
    if shift >= bits then Parsed(acc, c)
    else
      var t := Take(src, c, 1);
      if !t.outcome.Read? then Failed(t.outcome)
      else
        var byte := t.outcome.data[0];
        var more := (acc + byte % 128 * Pow2(shift)) % Pow2(bits);
        if byte < 128 then Parsed(more, t.next) else ReadVarint(src, t.next, bits, shift + 7, more)
  }

  /** What can be written: integers of `width` bytes, variable-length integers of `bits`
      bits, zigzag integers, strings with a length prefix of `width` bytes. */
  datatype RawItem =
    | Unsigned(width: nat, n: nat)
    | Signed(width: nat, i: int)
    | Variable(bits: nat, u: nat)
    | Zig32(w: bv64)
    | Zig64(d: bv64)
    | Text(width: nat, s: Bytes)

  /** The C++ argument types. */
  predicate InRange(item: RawItem) {
    match item
    case Unsigned(k, n) => k in {1, 2, 4, 8} && n < Pow256(k)
    case Signed(k, i) => k in {1, 2, 4, 8} && InSigned(i, k)
    case Variable(bits, u) => bits in {32, 64} && u < Pow2(bits)
    case Zig32(w) => Half(w)
    case Zig64(_) => true
    case Text(k, s) => k in {2, 4, 8} && |s| < TWO64
  }

  type Item = i: RawItem | InRange(i) witness Unsigned(1, 0)

  predicate Fixed(item: RawItem) {
    item.Unsigned? || item.Signed?
  }

  /** The unsigned integer with the same bits. */
  function ToUint(item: Item): (r: nat)
    requires Fixed(item)
    ensures r < Pow256(item.width)
  {
    if item.Unsigned? then item.n else ToUnsigned(item.i, item.width)
  }

  function FromUint(shape: RawItem, u: nat): RawItem
    requires Fixed(shape)
  {
    if shape.Unsigned? then Unsigned(shape.width, u) else Signed(shape.width, ToSigned(u, shape.width))
  }

  predicate SevenBit(item: RawItem) {
    item.Variable? || item.Zig32? || item.Zig64?
  }

  function Bits(item: RawItem): nat
    requires SevenBit(item)
  {
    if item.Variable? then item.bits else if item.Zig32? then 32 else 64
  }

  /** The unsigned integer that is written seven bits a byte. */
  function ToWord(item: RawItem): nat
    requires SevenBit(item)
  {
    match item
    case Variable(_, u) => u
    case Zig32(w) => Number(EncodeZigzag32(w))
    case Zig64(d) => Number(EncodeZigzag64(d))
  }

  function FromWord(shape: RawItem, u: nat): RawItem
    requires SevenBit(shape)
  {
    match shape
    case Variable(bits, _) => Variable(bits, u)
    case Zig32(_) => Zig32(DecodeZigzag32(Word(u)))
    case Zig64(_) => Zig64(DecodeZigzag64(Word(u)))
  }

  /** What an item turns into, `endian` the chosen byte order and `host` the machine's. */
  function Encode(item: Item, endian: Order, host: Order): Bytes
  {
    if Fixed(item) then WriteFixed(ToUint(item), item.width, endian, host)
    else if SevenBit(item) then Varint(ToWord(item))
    else WriteFixed(|item.s| % Pow256(item.width), item.width, endian, host) + item.s
  }

  /** The reader that goes with the writer of `shape`; only its kind is looked at. */
  function Decode(shape: RawItem, src: Source, c: Cursor, endian: Order, host: Order): Parsed<RawItem> {
    if SevenBit(shape) then
      var r := ReadVarint(src, c, Bits(shape), 0, 0);
      if r.Parsed? then Parsed(FromWord(shape, r.value), r.next) else Failed(r.why)
    else
      var t := Take(src, c, shape.width);
      if !t.outcome.Read? then Failed(t.outcome)
      else
        var u := ReadFixed(t.outcome.data, endian, host);
        if Fixed(shape) then Parsed(FromUint(shape, u), t.next)
        else DecodeText(shape.width, u, src, t.next)
  }

  /** The reader of a string behind its length. */
  function DecodeText(width: nat, length: nat, src: Source, c: Cursor): Parsed<RawItem> {
    var t := Take(src, c, length);
    if t.outcome.Read? then Parsed(Text(width, t.outcome.data), t.next) else Failed(t.outcome)
  }

  // --- a source that carries a stream ---

  /** The bytes behind a source are those of the stream. */
  predicate Carries(src: Source, stream: Bytes) {
    match src
    case Flat(data) => data == stream
    case Blocked(blocks, b, size) =>
      size == |stream| <= |Flatten(blocks)| < TWO64 && Flatten(blocks)[..size] == stream
  }

  datatype Medium = Medium(src: Source, stream: Bytes)

  type Carrier = m: Medium | Carries(m.src, m.stream) witness Medium(Flat([]), [])

  /** `k` bytes are a whole number of blocks of `b` bytes. */
  predicate Whole(k: nat, b: nat)
    requires b > 0
  {
    k == 0 || (k >= b && Whole(k - b, b))
  }

  lemma {:induction false} BlocksIn(k: nat, b: nat) returns (n: nat)
    requires b > 0 && Whole(k, b)
    ensures k == Start(n, b) && (k > 0 ==> n > 0)
  {
    if k == 0 {
      n := 0;
    } else {
      var m := BlocksIn(k - b, b);
      n := m + 1;
    }
  }

  lemma {:induction false} WholeStart(n: nat, b: nat)
    requires b > 0
    ensures Whole(Start(n, b), b)
  {
    if n > 0 { WholeStart(n - 1, b); }
  }

  /** In other words, `b` divides `k`. */
  lemma WholeIsMultiple(k: nat, b: nat)
    requires b > 0
    ensures Whole(k, b) <==> k % b == 0
  {
    if Whole(k, b) {
      var n := BlocksIn(k, b);
      Locate(k, b, n, 0);
    } else {
      Locating(k, b);
      WholeStart(k / b, b);
    }
  }

  /** The next byte is byte `p` of the stream; in blocks, it is the first one of the block
      that the cursor points to. */
  predicate Sits(src: Source, c: Cursor, p: nat) {
    c.position == p && (src.Blocked? ==> p == Start(c.at, src.b))
  }

  /** In blocks: `k` bytes are a whole number of them. */
  predicate Fine(src: Source, k: nat) {
    src.Blocked? ==> Whole(k, src.b)
  }

  /** Every byte of every block has been read: the block pointer is null. */
  predicate Stuck(src: Source, p: nat) {
    src.Blocked? && p == |Flatten(src.blocks)|
  }

  lemma PrefixSlice(f: Bytes, n: nat, p: nat, k: nat)
    requires p + k <= n <= |f|
    ensures f[..n][p..p + k] == f[p..p + k]
  {}

  /** Reading whole blocks from a block boundary ends on one. */
  lemma AfterWhole(c: Cursor, k: nat, b: nat)
    requires b > 0 && c.position == Start(c.at, b) && Whole(k, b)
    ensures After(c.position + k, b).position == c.position + k == Start(After(c.position + k, b).at, b)
  {
    var n := BlocksIn(k, b);
    StartSum(c.at, n, b);
    Locate(c.position + k, b, c.at + n, 0);
  }

  /** A read of whole blocks from a block boundary returns the right bytes. */
  lemma TakeRight(m: Carrier, c: Cursor, p: nat, k: nat)
    requires Sits(m.src, c, p) && p + k <= |m.stream| && Fine(m.src, k) && (k == 0 ==> !Stuck(m.src, p))
    ensures Take(m.src, c, k).outcome == Read(m.stream[p..p + k]) && Sits(m.src, Take(m.src, c, k).next, p + k)
  {
    if m.src.Blocked? {
      ReadAligned(m.src.blocks, m.src.b, m.src.size, c, 0, k);
      AfterWhole(c, k, m.src.b);
      PrefixSlice(Flatten(m.src.blocks), m.src.size, p, k);
    }
  }

  /** What is not there is refused, from the flat bytes and from the blocks, and the reader
      stays where it is. */
  lemma TakeShort(m: Carrier, c: Cursor, p: nat, k: nat)
    requires Sits(m.src, c, p) && p <= |m.stream| < p + k
    ensures Take(m.src, c, k) == Taken(TooLong, c)
  {
    if m.src.Blocked? { RefusedExactly(m.src.blocks, m.src.b, m.src.size, c, k); }
  }

  lemma TakeStuck(m: Carrier, c: Cursor, p: nat)
    requires Sits(m.src, c, p) && p <= |m.stream| && Stuck(m.src, p)
    ensures Take(m.src, c, 0).outcome == NullDereference
  {
    ReadAligned(m.src.blocks, m.src.b, m.src.size, c, 0, 0);
  }

  // --- one variable-length integer ---

  lemma Digit(d: nat, q: nat, p: nat)
    ensures (d + 128 * q) * p == d * p + q * (128 * p)
  {}

  lemma ShiftBelow(v: nat, shift: nat, bits: nat)
    requires v > 0 && v * Pow2(shift) < Pow2(bits)
    ensures shift < bits
  {
    if shift >= bits {
      Pow2Grows(bits, shift);
      AtLeastOne(v, Pow2(shift));
    }
  }

  /** What the first byte of a longer encoding leaves to read. */
  lemma FirstSeven(v: nat, bits: nat, shift: nat, acc: nat)
    requires v >= 128 && acc + v * Pow2(shift) < Pow2(bits)
    ensures Varint(v)[0] % 128 == v % 128 && Varint(v)[1..] == Varint(v / 128)
    ensures (acc + v % 128 * Pow2(shift)) + v / 128 * Pow2(shift + 7) == acc + v * Pow2(shift)
    ensures (acc + v % 128 * Pow2(shift)) % Pow2(bits) == acc + v % 128 * Pow2(shift) < Pow2(bits)
  {
    assert Varint(v)[1..] == Varint(v / 128);
    SevenAndRest(v, shift);
    Positive(v / 128, Pow2(shift + 7));
    Small(acc + v % 128 * Pow2(shift), Pow2(bits));
  }

  lemma SevenAndRest(v: nat, shift: nat)
    ensures v % 128 * Pow2(shift) + v / 128 * Pow2(shift + 7) == v * Pow2(shift)
  {
    Digit(v % 128, v / 128, Pow2(shift));
    SevenMore(shift);
  }

  lemma VarintLast(v: nat, bits: nat, shift: nat, acc: nat, src: Source, c: Cursor)
    requires v < 128 && shift < bits && Take(src, c, 1).outcome == Read([v])
    requires acc + v * Pow2(shift) < Pow2(bits) && acc < Pow2(bits)
    ensures ReadVarint(src, c, bits, shift, acc) == Parsed(acc + v * Pow2(shift), Take(src, c, 1).next)
  {
    assert v % 128 == v;
    Small(acc + v * Pow2(shift), Pow2(bits));
  }

  lemma VarintMore(v: nat, bits: nat, shift: nat, acc: nat, src: Source, c: Cursor)
    requires shift < bits && v >= 128 && Take(src, c, 1).outcome == Read([Varint(v)[0]])
    requires acc + v * Pow2(shift) < Pow2(bits) && acc < Pow2(bits)
    ensures acc + v % 128 * Pow2(shift) < Pow2(bits)
    ensures ReadVarint(src, c, bits, shift, acc)
      == ReadVarint(src, Take(src, c, 1).next, bits, shift + 7, acc + v % 128 * Pow2(shift))
  {
    FirstSeven(v, bits, shift, acc);
  }

  /** The first round of the loop and what is left of the encoding behind it. */
  lemma VarintStep(v: nat, bits: nat, shift: nat, acc: nat, total: nat, src: Source, c: Cursor) returns (more: nat)
    requires v >= 128 && Take(src, c, 1).outcome == Read([Varint(v)[0]])
    requires total == acc + v * Pow2(shift) < Pow2(bits) && acc < Pow2(bits)
    ensures Varint(v)[1..] == Varint(v / 128)
    ensures more < Pow2(bits) && total == more + v / 128 * Pow2(shift + 7)
    ensures ReadVarint(src, c, bits, shift, acc) == ReadVarint(src, Take(src, c, 1).next, bits, shift + 7, more)
  {
    more := acc + v % 128 * Pow2(shift);
    ShiftBelow(v, shift, bits);
    VarintMore(v, bits, shift, acc, src, c);
    FirstSeven(v, bits, shift, acc);
  }

  /** The reading loop recovers the value and stops behind its last byte. */
  lemma {:induction false} VarintBack(v: nat, bits: nat, shift: nat, acc: nat, total: nat, m: Carrier, c: Cursor,
      p: nat, end: nat)
    requires Sits(m.src, c, p) && Fine(m.src, 1) && Holds(m.stream, p, Varint(v)) && end == p + |Varint(v)|
    requires total == acc + v * Pow2(shift) < Pow2(bits) && acc < Pow2(bits) && bits > 0 && (v == 0 ==> shift == 0)
    ensures Found(ReadVarint(m.src, c, bits, shift, acc), total, m.src, end)
    decreases v
  {
    Behind(m.stream, p, Varint(v));
    TakeByte(m, c, p);
    if v < 128 {
      if v > 0 { ShiftBelow(v, shift, bits); }
      VarintLast(v, bits, shift, acc, m.src, c);
    } else {
      var more := VarintStep(v, bits, shift, acc, total, m.src, c);
      VarintBack(v / 128, bits, shift + 7, more, total, m, Take(m.src, c, 1).next, p + 1, end);
    }
  }

  /** The reader found the value and stands at `end`. */
  predicate Found<T(==)>(r: Parsed<T>, value: T, src: Source, end: nat) {
    r.Parsed? && r.value == value && Sits(src, r.next, end)
  }

  lemma TakeByte(m: Carrier, c: Cursor, p: nat)
    requires Sits(m.src, c, p) && p < |m.stream| && Fine(m.src, 1)
    ensures Take(m.src, c, 1).outcome == Read([m.stream[p]]) && Sits(m.src, Take(m.src, c, 1).next, p + 1)
  {
    TakeRight(m, c, p, 1);
    assert m.stream[p..p + 1] == [m.stream[p]];
  }

  /** The stream has these bytes at this place. */
  predicate Holds(stream: Bytes, p: nat, bs: Bytes) {
    p + |bs| <= |stream| && stream[p..p + |bs|] == bs
  }

  lemma Positive(q: nat, p: nat)
    ensures q * p >= 0
  {}

  lemma Small(x: nat, m: nat)
    requires x < m
    ensures x % m == x
  {}

  lemma Behind(stream: Bytes, p: nat, bs: Bytes)
    requires |bs| > 0 && Holds(stream, p, bs)
    ensures stream[p] == bs[0] && Holds(stream, p + 1, bs[1..])
  {
    assert stream[p] == stream[p..p + |bs|][0];
    assert stream[p + 1..p + |bs|] == stream[p..p + |bs|][1..];
  }
}
