/** Exactly when the items written to a `ByteArray` come back. */
module RoundTrip {
  import opened Base
  import opened Blocks
  import opened BlockRead
  import opened Codec
  import opened Words
  import opened Zigzag
  import opened Stream

  /** The prefix of a string can hold its length; a 64-bit zigzag integer fits 32 bits. */
  predicate Fits(item: Item) {
    match item
    case Zig64(d) => InInt32(d)
    case Text(k, s) => |s| < Pow256(k)
    case _ => true
  }

  /** Every `read` call that the reader of the item makes is one of whole blocks. */
  predicate Smooth(src: Source, item: Item) {
    if SevenBit(item) then Fine(src, 1)
    else Fine(src, item.width) && (item.Text? ==> Fine(src, |item.s|))
  }

  /** The reader follows a null block pointer to read nothing at all. */
  predicate Strands(src: Source, item: Item, end: nat) {
    item.Text? && item.s == [] && Stuck(src, end)
  }

  predicate Right<T(==)>(r: Parsed<T>, value: T) {
    r.Parsed? && r.value == value
  }

  // --- one item ---

  /** The item comes back, and the reader stops behind it, or it does not come back. */
  predicate ItemOutcome(r: Parsed<RawItem>, item: Item, src: Source, end: nat) {
    if Fits(item) && !Strands(src, item, end) then Found(r, item, src, end) else !Right(r, item)
  }

  /** A signed integer survives the detour over an unsigned one. */
  lemma UintBack(item: Item)
    requires Fixed(item)
    ensures FromUint(item, ToUint(item)) == item
  {}

  /** The bytes of a fixed-width integer come back as its value. */
  lemma FixedBack(v: nat, k: nat, m: Carrier, c: Cursor, p: nat, endian: Order, host: Order)
    requires Sits(m.src, c, p) && Fine(m.src, k) && k > 0 && v < Pow256(k)
    requires Holds(m.stream, p, WriteFixed(v, k, endian, host))
    ensures Take(m.src, c, k).outcome.Read? && Sits(m.src, Take(m.src, c, k).next, p + k)
    ensures ReadFixed(Take(m.src, c, k).outcome.data, endian, host) == v
  {
    var bytes := WriteFixed(v, k, endian, host);
    TakeRight(m, c, p, k);
    assert Take(m.src, c, k).outcome == Read(bytes);
    FixedRoundTrip(v, k, endian, host, host);
  }

  lemma IntegerBack(item: Item, m: Carrier, c: Cursor, p: nat, end: nat, endian: Order, host: Order)
    requires Fixed(item)
    requires Sits(m.src, c, p) && Smooth(m.src, item) && Holds(m.stream, p, Encode(item, endian, host))
      && end == p + |Encode(item, endian, host)|
    ensures ItemOutcome(Decode(item, m.src, c, endian, host), item, m.src, end)
  {
    UintBack(item);
    FixedBack(ToUint(item), item.width, m, c, p, endian, host);
  }

  lemma Zig32Back(item: Item)
    requires item.Zig32?
    ensures ToWord(item) < Pow2(32) && FromWord(item, ToWord(item)) == item
  {
    Trip32(item.w, EncodeZigzag32(item.w), ToWord(item));
  }

  lemma Zig64Back(item: Item)
    requires item.Zig64?
    ensures ToWord(item) < Pow2(64) && (FromWord(item, ToWord(item)) == item <==> Fits(item))
  {
    Trip64(item.d, EncodeZigzag64(item.d), ToWord(item));
  }

  lemma WordBack(item: Item)
    requires SevenBit(item)
    ensures ToWord(item) < Pow2(Bits(item)) && (FromWord(item, ToWord(item)) == item <==> Fits(item))
  {
    if item.Zig32? { Zig32Back(item); }
    if item.Zig64? { Zig64Back(item); }
  }

  lemma VarintWhole(v: nat, bits: nat, m: Carrier, c: Cursor, p: nat)
    requires Sits(m.src, c, p) && Fine(m.src, 1) && Holds(m.stream, p, Varint(v)) && v < Pow2(bits) && bits > 0
    ensures Found(ReadVarint(m.src, c, bits, 0, 0), v, m.src, p + |Varint(v)|)
  {
    VarintBack(v, bits, 0, 0, v, m, c, p, p + |Varint(v)|);
  }

  /** The reader recovers the encoded word; whether that is the item depends on its range. */
  lemma SevenBitBack(item: Item, v: nat, bits: nat, m: Carrier, c: Cursor, p: nat, end: nat, endian: Order, host: Order)
    requires SevenBit(item) && v == ToWord(item) && bits == Bits(item)
    requires Sits(m.src, c, p) && Smooth(m.src, item) && Holds(m.stream, p, Encode(item, endian, host))
      && end == p + |Encode(item, endian, host)|
    ensures ItemOutcome(Decode(item, m.src, c, endian, host), item, m.src, end)
  {
    WordBack(item);
    VarintWhole(v, bits, m, c, p);
    WordOutcome(item, ReadVarint(m.src, c, bits, 0, 0), v, m.src, end);
  }

  lemma WordOutcome(item: Item, r: Parsed<nat>, v: nat, src: Source, end: nat)
    requires SevenBit(item) && Found(r, v, src, end) && (FromWord(item, v) == item <==> Fits(item))
    ensures ItemOutcome(Parsed(FromWord(item, r.value), r.next), item, src, end)
  {}

  lemma HoldsSplit(stream: Bytes, p: nat, x: Bytes, y: Bytes)
    requires Holds(stream, p, x + y)
    ensures Holds(stream, p, x) && Holds(stream, p + |x|, y)
  {
    assert stream[p..p + |x|] == (x + y)[..|x|];
    assert stream[p + |x|..p + |x| + |y|] == (x + y)[|x|..];
  }

  /** The length prefix comes back, cut to its width. */
  lemma PrefixBack(item: Item, m: Carrier, c: Cursor, p: nat, endian: Order, host: Order) returns (d: Cursor)
    requires item.Text?
    requires Sits(m.src, c, p) && Fine(m.src, item.width) && Holds(m.stream, p, Encode(item, endian, host))
    ensures Decode(item, m.src, c, endian, host) == DecodeText(item.width, |item.s| % Pow256(item.width), m.src, d)
    ensures Sits(m.src, d, p + item.width) && Holds(m.stream, p + item.width, item.s)
    ensures |Encode(item, endian, host)| == item.width + |item.s|
  {
    var length := |item.s| % Pow256(item.width);
    HoldsSplit(m.stream, p, WriteFixed(length, item.width, endian, host), item.s);
    FixedBack(length, item.width, m, c, p, endian, host);
    d := Take(m.src, c, item.width).next;
  }

  lemma StringBack(width: nat, s: Bytes, m: Carrier, c: Cursor, p: nat)
    requires Sits(m.src, c, p) && Fine(m.src, |s|) && Holds(m.stream, p, s) && !(s == [] && Stuck(m.src, p))
    ensures Found(DecodeText(width, |s|, m.src, c), Text(width, s), m.src, p + |s|)
  {
    TakeRight(m, c, p, |s|);
  }

  lemma StringWrong(width: nat, s: Bytes, length: nat, m: Carrier, c: Cursor, p: nat)
    requires Sits(m.src, c, p) && p <= |m.stream|
    requires length != |s| || (s == [] && Stuck(m.src, p))
    ensures !Right(DecodeText(width, length, m.src, c), Text(width, s))
  {
    if length == |s| { TakeStuck(m, c, p); }
  }

  lemma Cut(x: nat, m: nat)
    requires m > 0
    ensures x % m == x <==> x < m
  {}

  lemma TextFits(item: Item, length: nat)
    requires item.Text? && length == |item.s| % Pow256(item.width)
    ensures Fits(item) <==> length == |item.s|
  {
    Cut(|item.s|, Pow256(item.width));
  }

  /** The text behind its prefix, whose value was `length`. */
  lemma TailBack(item: Item, length: nat, m: Carrier, d: Cursor, q: nat, end: nat)
    requires item.Text? && Sits(m.src, d, q) && Fine(m.src, |item.s|) && Holds(m.stream, q, item.s)
      && end == q + |item.s|
    requires Fits(item) <==> length == |item.s|
    ensures ItemOutcome(DecodeText(item.width, length, m.src, d), item, m.src, end)
  {
    if Fits(item) && !Strands(m.src, item, end) {
      StringBack(item.width, item.s, m, d, q);
    } else {
      StringWrong(item.width, item.s, length, m, d, q);
    }
  }

  lemma TextBack(item: Item, m: Carrier, c: Cursor, p: nat, end: nat, endian: Order, host: Order)
    requires item.Text?
    requires Sits(m.src, c, p) && Smooth(m.src, item) && Holds(m.stream, p, Encode(item, endian, host))
    requires end == p + |Encode(item, endian, host)|
    ensures ItemOutcome(Decode(item, m.src, c, endian, host), item, m.src, end)
  {
    var d := PrefixBack(item, m, c, p, endian, host);
    var length := |item.s| % Pow256(item.width);
    TextFits(item, length);
    TailBack(item, length, m, d, p + item.width, end);
  }

  /** One item, read from the place where it was written. */
  lemma ItemBack(item: Item, m: Carrier, c: Cursor, p: nat, end: nat, endian: Order, host: Order)
    requires Sits(m.src, c, p) && Smooth(m.src, item) && Holds(m.stream, p, Encode(item, endian, host))
      && end == p + |Encode(item, endian, host)|
    ensures ItemOutcome(Decode(item, m.src, c, endian, host), item, m.src, end)
  {
    if Fixed(item) {
      IntegerBack(item, m, c, p, end, endian, host);
    } else if SevenBit(item) {
      SevenBitBack(item, ToWord(item), Bits(item), m, c, p, end, endian, host);
    } else {
      TextBack(item, m, c, p, end, endian, host);
    }
  }

  // --- lists of items ---

  predicate AllFit(items: seq<Item>) {
    forall i :: 0 <= i < |items| ==> Fits(items[i])
  }

  predicate AllSmooth(src: Source, items: seq<Item>)
  {
    forall i :: 0 <= i < |items| ==> Smooth(src, items[i])
  }

  function EncodeAll(items: seq<Item>, endian: Order, host: Order): Bytes
  {
    if items == [] then [] else Encode(items[0], endian, host) + EncodeAll(items[1..], endian, host)
  }

  function DecodeAll(shapes: seq<RawItem>, src: Source, c: Cursor, endian: Order, host: Order): Parsed<seq<RawItem>>
  {
    if shapes == [] then Parsed([], c)
    else
      var first := Decode(shapes[0], src, c, endian, host);
      if first.Failed? then Failed(first.why)
      else
        var more := DecodeAll(shapes[1..], src, first.next, endian, host);
        if more.Failed? then more else Parsed([first.value] + more.value, more.next)
  }

  /** The last item is an empty string. */
  predicate EndsEmpty(items: seq<Item>) {
    items != [] && items[|items| - 1].Text? && items[|items| - 1].s == []
  }

  /** What has to hold of items that end at `end` for the readers to bring them back. */
  predicate CanRead(items: seq<Item>, src: Source, end: nat) {
    AllFit(items) && !(EndsEmpty(items) && Stuck(src, end))
  }

  predicate Outcomes(r: Parsed<seq<RawItem>>, items: seq<Item>, src: Source, end: nat) {
    if CanRead(items, src, end) then Found(r, items, src, end) else !Right(r, items)
  }

  lemma ItemNotEmpty(item: Item, endian: Order, host: Order)
    ensures |Encode(item, endian, host)| > 0
  {}

  lemma FirstThenRest(items: seq<Item>, src: Source, c: Cursor, endian: Order, host: Order)
    requires items != []
    ensures
      var first := Decode(items[0], src, c, endian, host);
      if !Right(first, items[0]) then !Right(DecodeAll(items, src, c, endian, host), items)
      else
        var more := DecodeAll(items[1..], src, first.next, endian, host);
        if Right(more, items[1..]) then DecodeAll(items, src, c, endian, host) == Parsed(items, more.next)
        else !Right(DecodeAll(items, src, c, endian, host), items)
  {
    var first := Decode(items[0], src, c, endian, host);
    if first.Parsed? {
      var more := DecodeAll(items[1..], src, first.next, endian, host);
      if more.Parsed? {
        assert ([first.value] + more.value)[0] == first.value && ([first.value] + more.value)[1..] == more.value;
        assert items == [items[0]] + items[1..];
      }
    }
  }

  lemma FitStep(items: seq<Item>)
    requires items != []
    ensures AllFit(items) <==> Fits(items[0]) && AllFit(items[1..])
  {
    assert forall i :: 1 <= i < |items| ==> items[i] == items[1..][i - 1];
  }

  lemma LastSame(items: seq<Item>)
    requires |items| > 1
    ensures EndsEmpty(items) <==> EndsEmpty(items[1..])
  {
    assert items[1..][|items| - 2] == items[|items| - 1];
  }

  lemma NotStuck(m: Carrier, q: nat)
    requires q < |m.stream|
    ensures !Stuck(m.src, q)
  {}

  lemma MoreBytes(items: seq<Item>, endian: Order, host: Order)
    requires items != []
    ensures |items| > 1 ==> |EncodeAll(items, endian, host)| > |Encode(items[0], endian, host)|
    ensures |items| == 1 ==> |EncodeAll(items, endian, host)| == |Encode(items[0], endian, host)|
  {
    if |items| > 1 { ItemNotEmpty(items[1], endian, host); } else { assert items[1..] == []; }
  }

  lemma CanReadOne(item: Item, m: Carrier, end: nat)
    ensures CanRead([item], m.src, end) <==> Fits(item) && !Strands(m.src, item, end)
  {}

  lemma CanReadStep(items: seq<Item>, m: Carrier, p: nat, q: nat, end: nat, endian: Order, host: Order)
    requires items != []
    requires q == p + |Encode(items[0], endian, host)| && end == p + |EncodeAll(items, endian, host)| <= |m.stream|
    ensures CanRead(items, m.src, end) <==>
      Fits(items[0]) && !Strands(m.src, items[0], q) && CanRead(items[1..], m.src, end)
  {
    MoreBytes(items, endian, host);
    if |items| == 1 {
      assert items == [items[0]] && items[1..] == [];
      CanReadOne(items[0], m, end);
    } else {
      FitStep(items);
      LastSame(items);
      NotStuck(m, q);
    }
  }

  lemma Apart(items: seq<Item>, src: Source)
    requires AllSmooth(src, items) && items != []
    ensures Smooth(src, items[0]) && AllSmooth(src, items[1..])
  {
    forall i | 0 <= i < |items[1..]| ensures Smooth(src, items[1..][i]) {
      assert Smooth(src, items[i + 1]);
    }
  }

  /** The bytes of the first item and those behind it. */
  lemma Divide(items: seq<Item>, stream: Bytes, p: nat, endian: Order, host: Order) returns (q: nat)
    requires items != [] && Holds(stream, p, EncodeAll(items, endian, host))
    ensures q == p + |Encode(items[0], endian, host)| && Holds(stream, p, Encode(items[0], endian, host))
    ensures Holds(stream, q, EncodeAll(items[1..], endian, host))
    ensures p + |EncodeAll(items, endian, host)| == q + |EncodeAll(items[1..], endian, host)|
  {
    var x, y := Encode(items[0], endian, host), EncodeAll(items[1..], endian, host);
    q := p + |x|;
    DivideBytes(stream, p, EncodeAll(items, endian, host), x, y);
  }

  lemma DivideBytes(stream: Bytes, p: nat, z: Bytes, x: Bytes, y: Bytes)
    requires Holds(stream, p, z) && z == x + y
    ensures Holds(stream, p, x) && Holds(stream, p + |x|, y) && p + |z| == p + |x| + |y|
  {
    HoldsSplit(stream, p, x, y);
  }

  /** When every read is one of whole blocks (always so in the flat bytes), the list comes
      back exactly when every item fits and the last read is not one of nothing behind the
      last block. */
  lemma {:induction false} SmoothRoundTrip(items: seq<Item>, m: Carrier, c: Cursor, p: nat, end: nat, endian: Order,
      host: Order)
    requires Sits(m.src, c, p) && AllSmooth(m.src, items)
    requires Holds(m.stream, p, EncodeAll(items, endian, host)) && end == p + |EncodeAll(items, endian, host)|
    ensures Outcomes(DecodeAll(items, m.src, c, endian, host), items, m.src, end)
    decreases |items|
  {
    if items != [] {
      Apart(items, m.src);
      var q := Divide(items, m.stream, p, endian, host);
      var first := Decode(items[0], m.src, c, endian, host);
      ItemBack(items[0], m, c, p, q, endian, host);
      if Right(first, items[0]) {
        SmoothRoundTrip(items[1..], m, first.next, q, end, endian, host);
      }
      CanReadStep(items, m, p, q, end, endian, host);
      Assemble(items, m.src, c, q, end, endian, host);
    }
  }

  /** The outcome for the list from those for its head and its tail. */
  lemma Assemble(items: seq<Item>, src: Source, c: Cursor, q: nat, end: nat, endian: Order, host: Order)
    requires items != [] && ItemOutcome(Decode(items[0], src, c, endian, host), items[0], src, q)
    requires var first := Decode(items[0], src, c, endian, host);
      Right(first, items[0]) ==> Outcomes(DecodeAll(items[1..], src, first.next, endian, host), items[1..], src, end)
    requires CanRead(items, src, end) <==> Fits(items[0]) && !Strands(src, items[0], q) && CanRead(items[1..], src, end)
    ensures Outcomes(DecodeAll(items, src, c, endian, host), items, src, end)
  {
    FirstThenRest(items, src, c, endian, host);
  }

  // --- how far a reader in the blocks gets ---

  /** From a block boundary the copying loop of `read` moves the position by whole blocks. */
  lemma {:induction false} ScanMoves(blocks: seq<Bytes>, b: nat, c: Cursor, k: nat) returns (n: nat)
    requires b > 0 && Uniform(blocks, b) && Scan(blocks, b, c, 0, k).outcome.Read?
    ensures Scan(blocks, b, c, 0, k).cursor.position == c.position + Start(n, b)
    ensures Start(n, b) >= k && (Start(n, b) == k ==> Whole(k, b))
    decreases k
  {
    if k == 0 {
      n := 0;
    } else if k <= b {
      n := 1;
      assert Start(1, b) == b;
      assert k == b ==> Whole(b - b, b);
    } else {
      var m := ScanMoves(blocks, b, Cursor(c.position + b, c.at + 1), k - b);
      n := m + 1;
    }
  }

  lemma WholeSum(p: nat, n: nat, b: nat)
    requires b > 0 && Whole(p, b)
    ensures Whole(p + Start(n, b), b)
  {
    var m := BlocksIn(p, b);
    StartSum(m, n, b);
    WholeStart(m + n, b);
  }

  /** A read never moves the position by less than its length, and by exactly its length
      only when that is a whole number of blocks. */
  lemma TakeMoves(src: Source, c: Cursor, k: nat)
    requires src.Blocked? && Whole(c.position, src.b) && Take(src, c, k).outcome.Read?
    ensures Moved(src, c, Take(src, c, k).next, k) && (Take(src, c, k).next.position == c.position + k ==> Fine(src, k))
  {
    WholeIsMultiple(c.position, src.b);
    var n := ScanMoves(src.blocks, src.b, c, k);
    WholeSum(c.position, n, src.b);
  }

  predicate Moved(src: Source, c: Cursor, d: Cursor, k: nat) {
    d.position >= c.position + k && (src.Blocked? ==> Whole(d.position, src.b))
  }

  lemma Room(acc: nat, x: nat, p: nat, m: nat)
    requires acc < p && m > 0
    ensures (acc + x % 128 * p) % m < 128 * p
  {
    Sevens(x % 128, p);
    Remainder(acc + x % 128 * p, m);
  }

  lemma Sevens(d: nat, p: nat)
    requires d < 128
    ensures 0 <= d * p <= 127 * p
  {}

  lemma Remainder(x: nat, m: nat)
    requires m > 0
    ensures x % m <= x
  {}

  /** What `j` bytes of seven bits can hold. */
  lemma {:induction false} VarintMoves(src: Source, c: Cursor, bits: nat, shift: nat, acc: nat) returns (j: nat)
    requires src.Blocked? && Whole(c.position, src.b) && acc < Pow2(bits) && acc < Pow2(shift)
    requires ReadVarint(src, c, bits, shift, acc).Parsed?
    ensures ReadVarint(src, c, bits, shift, acc).value < Pow2(shift + 7 * j) && (shift < bits ==> j > 0)
    ensures Moved(src, c, ReadVarint(src, c, bits, shift, acc).next, j)
    ensures j > 0 && ReadVarint(src, c, bits, shift, acc).next.position == c.position + j ==> Fine(src, 1)
    decreases bits - shift
  {
    if shift >= bits {
      j := 0;
    } else {
      var t := Take(src, c, 1);
      TakeMoves(src, c, 1);
      var byte := t.outcome.data[0];
      var more := (acc + byte % 128 * Pow2(shift)) % Pow2(bits);
      SevenMore(shift);
      Room(acc, byte, Pow2(shift), Pow2(bits));
      if byte < 128 {
        j := 1;
      } else {
        var i := VarintMoves(src, t.next, bits, shift + 7, more);
        j := i + 1;
      }
    }
  }

  /** Reading back a seven-bit item takes at least as many bytes as it was written with. */
  lemma WordLength(item: Item, u: nat, j: nat)
    requires SevenBit(item) && u < Pow2(7 * j) && u < Pow2(Bits(item)) && j > 0 && FromWord(item, u) == item
    ensures |Varint(ToWord(item))| <= j
  {
    if item.Zig32? {
      NoLonger32(item.w, Word(u), u, 7 * j);
    } else if item.Zig64? {
      NoLonger64(item.d, Word(u), u, 7 * j);
    }
    VarintFits(ToWord(item), j);
  }

  lemma WordMoves(src: Source, c: Cursor, bits: nat) returns (j: nat)
    requires src.Blocked? && Whole(c.position, src.b) && bits > 0 && ReadVarint(src, c, bits, 0, 0).Parsed?
    ensures j > 0 && ReadVarint(src, c, bits, 0, 0).value < Pow2(7 * j)
    ensures Moved(src, c, ReadVarint(src, c, bits, 0, 0).next, j)
    ensures ReadVarint(src, c, bits, 0, 0).next.position == c.position + j ==> Fine(src, 1)
  {
    j := VarintMoves(src, c, bits, 0, 0);
  }

  lemma SevenBitMoves(item: Item, src: Source, c: Cursor, endian: Order, host: Order)
    requires SevenBit(item) && src.Blocked? && Whole(c.position, src.b)
    requires Right(Decode(item, src, c, endian, host), item)
    ensures ItemMoved(item, src, c, Decode(item, src, c, endian, host).next, endian, host)
  {
    var j := WordMoves(src, c, Bits(item));
    WordLength(item, ReadVarint(src, c, Bits(item), 0, 0).value, j);
  }

  predicate ItemMoved(item: Item, src: Source, c: Cursor, d: Cursor, endian: Order, host: Order) {
    var k := |Encode(item, endian, host)|;
    Moved(src, c, d, k) && (d.position == c.position + k ==> Smooth(src, item))
  }

  lemma FixedMoves(item: Item, src: Source, c: Cursor, endian: Order, host: Order)
    requires Fixed(item) && src.Blocked? && Whole(c.position, src.b)
    requires Right(Decode(item, src, c, endian, host), item)
    ensures ItemMoved(item, src, c, Decode(item, src, c, endian, host).next, endian, host)
  {
    TakeMoves(src, c, item.width);
  }

  lemma TextMoves(item: Item, src: Source, c: Cursor, endian: Order, host: Order)
    requires item.Text? && src.Blocked? && Whole(c.position, src.b)
    requires Right(Decode(item, src, c, endian, host), item)
    ensures ItemMoved(item, src, c, Decode(item, src, c, endian, host).next, endian, host)
  {
    var t := Take(src, c, item.width);
    TakeMoves(src, c, item.width);
    var length := ReadFixed(t.outcome.data, endian, host);
    assert length == |item.s|;
    TakeMoves(src, t.next, length);
  }

  /** Whatever the reader in the blocks does, an item that comes back moves the position
      by no less than its length, and by its length only in whole blocks. */
  lemma ItemMoves(item: Item, src: Source, c: Cursor, endian: Order, host: Order)
    requires src.Blocked? && Whole(c.position, src.b)
    requires Right(Decode(item, src, c, endian, host), item)
    ensures ItemMoved(item, src, c, Decode(item, src, c, endian, host).next, endian, host)
  {
    if Fixed(item) {
      FixedMoves(item, src, c, endian, host);
    } else if SevenBit(item) {
      SevenBitMoves(item, src, c, endian, host);
    } else {
      TextMoves(item, src, c, endian, host);
    }
  }

  /** The same for a list. */
  lemma {:induction false} AllMove(items: seq<Item>, src: Source, c: Cursor, k: nat, endian: Order, host: Order)
    requires src.Blocked? && Whole(c.position, src.b) && k == |EncodeAll(items, endian, host)|
    requires Right(DecodeAll(items, src, c, endian, host), items)
    ensures Moved(src, c, DecodeAll(items, src, c, endian, host).next, k)
    ensures DecodeAll(items, src, c, endian, host).next.position == c.position + k ==> AllSmooth(src, items)
    decreases |items|
  {
    if items != [] {
      var first := Decode(items[0], src, c, endian, host);
      FirstThenRest(items, src, c, endian, host);
      ItemMoves(items[0], src, c, endian, host);
      AllMove(items[1..], src, first.next, |EncodeAll(items[1..], endian, host)|, endian, host);
      Together(items, src);
    }
  }

  lemma Together(items: seq<Item>, src: Source)
    requires items != []
    ensures Smooth(src, items[0]) && AllSmooth(src, items[1..]) ==> AllSmooth(src, items)
  {
    if AllSmooth(src, items[1..]) {
      assert forall i :: 1 <= i < |items| ==> items[i] == items[1..][i - 1];
    }
  }

  // --- the main results ---

  /** The intended reader, on the flat bytes with anything behind them: a list comes back
      exactly when every length fits its prefix and every 64-bit zigzag integer 32 bits. */
  lemma FlatRoundTrip(items: seq<Item>, suffix: Bytes, endian: Order, host: Order)
    ensures
      var bytes := EncodeAll(items, endian, host);
      var r := DecodeAll(items, Flat(bytes + suffix), Cursor(0, 0), endian, host);
      && (Right(r, items) <==> AllFit(items))
      && (Right(r, items) ==> r.next.position == |bytes|)
  {
    var bytes := EncodeAll(items, endian, host);
    var m: Carrier := Medium(Flat(bytes + suffix), bytes + suffix);
    assert Holds(m.stream, 0, bytes);
    SmoothRoundTrip(items, m, Cursor(0, 0), 0, |bytes|, endian, host);
  }

  /** The reader as written, from position 0 of an array that holds the list and nothing
      else: the list comes back and the position ends at the size exactly when the block
      size divides the size of every single read, everything fits, and the array does not
      end with an empty string and the end of its last block. */
  lemma BlockedRoundTrip(items: seq<Item>, blocks: seq<Bytes>, b: nat, endian: Order, host: Order)
    requires b > 0 && Uniform(blocks, b) && |Flatten(blocks)| < TWO64
    requires EncodeAll(items, endian, host) <= Flatten(blocks)
    ensures
      var size := |EncodeAll(items, endian, host)|;
      var src := Blocked(blocks, b, size);
      var r := DecodeAll(items, src, Cursor(0, 0), endian, host);
      Right(r, items) && r.next.position == size
      <==> AllSmooth(src, items) && AllFit(items) && !(EndsEmpty(items) && size == |Flatten(blocks)|)
  {
    var bytes := EncodeAll(items, endian, host);
    var src: Source := Blocked(blocks, b, |bytes|);
    var m: Carrier := Medium(src, bytes);
    var c := Cursor(0, 0);
    if AllSmooth(src, items) {
      assert Holds(bytes, 0, bytes);
      SmoothRoundTrip(items, m, c, 0, |bytes|, endian, host);
    } else if Right(DecodeAll(items, src, c, endian, host), items) {
      AllMove(items, src, c, |bytes|, endian, host);
    }
  }
}
