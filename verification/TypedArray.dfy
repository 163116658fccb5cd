/** The typed writers and readers of `ByteArray`. */
module TypedArray {
  import opened Base
  import opened Blocks
  import opened BlockRead
  import opened ByteArrayModel
  import opened Codec
  import opened Words
  import opened Zigzag
  import opened Stream
  import opened RoundTrip

  lemma PutTwice(d: Bytes, p: nat, x: Bytes, y: Bytes)
    requires p <= |d|
    ensures p + |x| <= |Put(d, p, x)| && Put(Put(d, p, x), p + |x|, y) == Put(d, p, x + y)
  {}

  /** The writers: what is written replaces the bytes at the position. */
  method WriteItem(ba: ByteArray, item: Item, endian: Order, host: Order)
    requires ba.Valid()
    modifies ba, ba.spine
    ensures ba.Valid() && ba.position == old(ba.position) + |Encode(item, endian, host)|
    ensures ba.size == Max(old(ba.size), ba.position)
    ensures ba.Data() == Put(old(ba.Data()), old(ba.position), Encode(item, endian, host))
    ensures ba.capacity == old(ba.capacity) || ba.capacity < ba.position + ba.baseSize
    ensures old(ba.spine) <= ba.spine && (forall i :: |old(ba.spine)| <= i < |ba.spine| ==> fresh(ba.spine[i]))
  {
    if Fixed(item) {
      ba.Write(WriteFixed(ToUint(item), item.width, endian, host));
    } else if SevenBit(item) {
      var room := if Bits(item) == 32 then 5 else 10;
      WordFits(item, room);
      var tmp := VarintBytes(ToWord(item), room);
      ba.Write(tmp);
    } else {
      WriteText(ba, item, endian, host);
    }
  }

  /** `tmp[5]` and `tmp[10]` are large enough. */
  lemma WordFits(item: Item, room: nat)
    requires SevenBit(item) && room == if Bits(item) == 32 then 5 else 10
    ensures ToWord(item) < Pow2(7 * room)
  {
    WordBack(item);
    Pow2Grows(Bits(item), 7 * room);
  }

  method WriteText(ba: ByteArray, item: Item, endian: Order, host: Order)
    requires ba.Valid() && item.Text?
    modifies ba, ba.spine
    ensures ba.Valid() && ba.position == old(ba.position) + |Encode(item, endian, host)|
    ensures ba.size == Max(old(ba.size), ba.position)
    ensures ba.Data() == Put(old(ba.Data()), old(ba.position), Encode(item, endian, host))
    ensures ba.capacity == old(ba.capacity) || ba.capacity < ba.position + ba.baseSize
    ensures old(ba.spine) <= ba.spine && (forall i :: |old(ba.spine)| <= i < |ba.spine| ==> fresh(ba.spine[i]))
  {
    var prefix := WriteFixed(|item.s| % Pow256(item.width), item.width, endian, host);
    ghost var whole := Encode(item, endian, host);
    assert whole == prefix + item.s;
    PutTwice(ba.Data(), ba.position, prefix, item.s);
    ba.Write(prefix);
    assert forall i :: 0 <= i < |old(ba.spine)| ==> ba.spine[i] == old(ba.spine)[i];
    ba.Write(item.s);
  }

  /** The blocks and the size of the array as the readers see them. */
  ghost function SourceOf(ba: ByteArray): Source
    requires ba.Structure()
    reads ba, ba.spine
  {
    Blocked(Contents(ba.spine), ba.baseSize, ba.size)
  }

  ghost function CursorOf(ba: ByteArray): Cursor
    reads ba
  {
    Cursor(ba.position, ba.at)
  }

  /** One `read`, in terms of the specification. */
  method ReadBytes(ba: ByteArray, k: nat) returns (outcome: Outcome)
    requires ba.Structure()
    modifies ba`position, ba`cur, ba`at
    ensures ba.Structure() && Taken(outcome, CursorOf(ba)) == Take(SourceOf(ba), old(CursorOf(ba)), k)
    ensures outcome.Read? ==> |outcome.data| == k
  {
    outcome := ba.Read(k);
  }

  /** One round of the reading loop. */
  lemma VarintRound(src: Source, c: Cursor, bits: nat, shift: nat, acc: nat)
    requires acc < Pow2(bits) && shift < bits
    ensures ReadVarint(src, c, bits, shift, acc) ==
      var t := Take(src, c, 1);
      if !t.outcome.Read? then Failed(t.outcome)
      else
        var more := (acc + t.outcome.data[0] % 128 * Pow2(shift)) % Pow2(bits);
        if t.outcome.data[0] < 128 then Parsed(more, t.next) else ReadVarint(src, t.next, bits, shift + 7, more)
  {}

  /** The body of the loops of `readUint32` and `readUint64`. */
  method ReadSeven(ba: ByteArray, bits: nat, i: nat, scale: nat, result: nat)
    returns (byte: Outcome, more: nat, last: bool)
    requires ba.Structure() && i < bits && scale == Pow2(i) && result < Pow2(bits)
    modifies ba`position, ba`cur, ba`at
    ensures ba.Structure() && more < Pow2(bits)
    ensures ReadVarint(SourceOf(ba), old(CursorOf(ba)), bits, i, result)
         == if !byte.Read? then Failed(byte)
            else if last then Parsed(more, CursorOf(ba))
            else ReadVarint(SourceOf(ba), CursorOf(ba), bits, i + 7, more)
  {
    VarintRound(SourceOf(ba), CursorOf(ba), bits, i, result);
    more, last := result, false;
    byte := ReadBytes(ba, 1);
    if byte.Read? {
      more := (result + byte.data[0] % 128 * scale) % Pow2(bits);
      last := byte.data[0] < 128;
    }
  }

  /** The loops of `readUint32` and `readUint64`. */
  method ReadWord(ba: ByteArray, bits: nat) returns (r: Result<nat, Outcome>)
    requires ba.Structure()
    modifies ba`position, ba`cur, ba`at
    ensures ba.Structure()
    ensures ReadVarint(SourceOf(ba), old(CursorOf(ba)), bits, 0, 0)
         == if r.Ok? then Parsed(r.value, CursorOf(ba)) else Failed(r.error)
  {
    ghost var whole := ReadVarint(SourceOf(ba), CursorOf(ba), bits, 0, 0);
    var result: nat, i: nat, scale: nat := 0, 0, 1;
    while i < bits
      invariant ba.Structure() && scale == Pow2(i) && result < Pow2(bits)
      invariant whole == ReadVarint(SourceOf(ba), CursorOf(ba), bits, i, result)
      decreases bits - i
    {
      var byte, more, last := ReadSeven(ba, bits, i, scale, result);
      if !byte.Read? {
        return Err(byte);
      }
      result := more;
      if last {
        return Ok(result);
      }
      SevenMore(i);
      scale := 128 * scale;
      i := i + 7;
    }
    r := Ok(result);
  }

  /** The readers of strings, behind the length. */
  method ReadText(ba: ByteArray, width: nat, length: nat) returns (r: Result<RawItem, Outcome>)
    requires ba.Structure()
    modifies ba`position, ba`cur, ba`at
    ensures ba.Structure()
    ensures DecodeText(width, length, SourceOf(ba), old(CursorOf(ba)))
         == if r.Ok? then Parsed(r.value, CursorOf(ba)) else Failed(r.error)
  {
    var s := ReadBytes(ba, length);
    r := if s.Read? then Ok(Text(width, s.data)) else Err(s);
  }

  /** The readers of what starts with a fixed-width integer. */
  method ReadSized(ba: ByteArray, shape: Item, endian: Order, host: Order) returns (r: Result<RawItem, Outcome>)
    requires ba.Structure() && !SevenBit(shape)
    modifies ba`position, ba`cur, ba`at
    ensures ba.Structure()
    ensures Decode(shape, SourceOf(ba), old(CursorOf(ba)), endian, host)
         == if r.Ok? then Parsed(r.value, CursorOf(ba)) else Failed(r.error)
  {
    var first := ReadBytes(ba, shape.width);
    if !first.Read? {
      return Err(first);
    }
    var u := ReadFixed(first.data, endian, host);
    if Fixed(shape) {
      return Ok(FromUint(shape, u));
    }
    r := ReadText(ba, shape.width, u);
  }

  /** The readers. They do exactly what `Decode` says of the blocks. */
  method ReadItem(ba: ByteArray, shape: Item, endian: Order, host: Order) returns (r: Result<RawItem, Outcome>)
    requires ba.Structure()
    modifies ba`position, ba`cur, ba`at
    ensures ba.Structure()
    ensures Decode(shape, SourceOf(ba), old(CursorOf(ba)), endian, host)
         == if r.Ok? then Parsed(r.value, CursorOf(ba)) else Failed(r.error)
  {
    if SevenBit(shape) {
      var word := ReadWord(ba, Bits(shape));
      r := if word.Ok? then Ok(FromWord(shape, word.value)) else Err(word.error);
    } else {
      r := ReadSized(ba, shape, endian, host);
    }
  }

  /** Reading a list, one item after the other. */
  method ReadItems(ba: ByteArray, shapes: seq<Item>, endian: Order, host: Order)
      returns (r: Result<seq<RawItem>, Outcome>)
    requires ba.Structure()
    modifies ba`position, ba`cur, ba`at
    ensures ba.Structure()
    ensures DecodeAll(shapes, SourceOf(ba), old(CursorOf(ba)), endian, host)
         == if r.Ok? then Parsed(r.value, CursorOf(ba)) else Failed(r.error)
    decreases |shapes|
  {
    if shapes == [] {
      return Ok([]);
    }
    var first := ReadItem(ba, shapes[0], endian, host);
    if first.Err? {
      return Err(first.error);
    }
    var more := ReadItems(ba, shapes[1..], endian, host);
    r := if more.Ok? then Ok([first.value] + more.value) else more;
  }

  lemma {:induction false} EncodeSnoc(items: seq<Item>, last: Item, endian: Order, host: Order)
    ensures EncodeAll(items + [last], endian, host) == EncodeAll(items, endian, host) + Encode(last, endian, host)
  {
    if items == [] {
      assert items + [last] == [last] && [last][1..] == [];
    } else {
      assert (items + [last])[0] == items[0] && (items + [last])[1..] == items[1..] + [last];
      EncodeSnoc(items[1..], last, endian, host);
      Associate(Encode(items[0], endian, host), EncodeAll(items[1..], endian, host), Encode(last, endian, host));
    }
  }

  lemma EncodeNext(items: seq<Item>, i: nat, endian: Order, host: Order)
    requires i < |items|
    ensures EncodeAll(items[..i + 1], endian, host)
      == EncodeAll(items[..i], endian, host) + Encode(items[i], endian, host)
  {
    EncodeSnoc(items[..i], items[i], endian, host);
    assert items[..i + 1] == items[..i] + [items[i]];
  }

  /** A new array with the list and nothing else in it; there is less than a block to spare. */
  method WriteItems(baseSize: nat, items: seq<Item>, endian: Order, host: Order) returns (ba: ByteArray)
    requires baseSize > 0
    ensures fresh(ba) && fresh(ba.spine) && ba.Valid() && ba.baseSize == baseSize
    ensures ba.Data() == EncodeAll(items, endian, host)
    ensures ba.capacity == baseSize || ba.capacity < ba.size + baseSize
  {
    ba := new ByteArray(baseSize);
    var i := 0;
    while i < |items|
      invariant 0 <= i <= |items| && fresh(ba) && (forall j :: 0 <= j < |ba.spine| ==> fresh(ba.spine[j]))
      invariant ba.Valid() && ba.baseSize == baseSize && ba.position == ba.size
      invariant ba.Data() == EncodeAll(items[..i], endian, host)
      invariant ba.capacity == baseSize || ba.capacity < ba.size + baseSize
    {
      EncodeNext(items, i, endian, host);
      PutAtEnd(ba.Data(), Encode(items[i], endian, host));
      WriteItem(ba, items[i], endian, host);
      i := i + 1;
    }
    assert items[..i] == items;
  }

  /** The block size divides the size of every `read` that reads the item. */
  predicate Divides(b: nat, item: Item)
    requires b > 0
  {
    if SevenBit(item) then b == 1 else item.width % b == 0 && (item.Text? ==> |item.s| % b == 0)
  }

  lemma SmoothDivides(src: Source, item: Item)
    requires src.Blocked?
    ensures Smooth(src, item) <==> Divides(src.b, item)
  {
    if SevenBit(item) {
      assert Whole(1, src.b) <==> src.b == 1;
    } else {
      WholeIsMultiple(item.width, src.b);
      if item.Text? { WholeIsMultiple(|item.s|, src.b); }
    }
  }

  /** No room is left behind a list that fills its blocks. */
  lemma {:induction false} Filled(items: seq<Item>, src: Source, endian: Order, host: Order)
    requires src.Blocked? && AllSmooth(src, items)
    ensures Whole(|EncodeAll(items, endian, host)|, src.b)
    decreases |items|
  {
    if items != [] {
      Apart(items, src);
      Filled(items[1..], src, endian, host);
      var n := ItemBlocks(items[0], src, endian, host);
      WholeSum(|EncodeAll(items[1..], endian, host)|, n, src.b);
    }
  }

  lemma ItemBlocks(item: Item, src: Source, endian: Order, host: Order) returns (n: nat)
    requires src.Blocked? && Smooth(src, item)
    ensures |Encode(item, endian, host)| == Start(n, src.b)
  {
    if SevenBit(item) {
      n := |Encode(item, endian, host)|;
      assert Whole(1, src.b) ==> src.b == 1;
      StartIsProduct(n, 1);
    } else {
      n := BlocksIn(item.width, src.b);
      if item.Text? {
        var m := BlocksIn(|item.s|, src.b);
        StartSum(n, m, src.b);
        n := n + m;
      }
    }
  }

  lemma NoSpare(size: nat, n: nat, b: nat)
    requires b > 0 && 0 < size <= Start(n, b) && Whole(size, b) && (n == 1 || Start(n, b) < size + b)
    ensures Start(n, b) == size
  {
    var m := BlocksIn(size, b);
    if m < n { StartBefore(m, n, b); }
  }

  /** What the readers as written need of the list and the block size. */
  predicate Survives(items: seq<Item>, b: nat)
    requires b > 0
  {
    AllFit(items) && (forall i :: 0 <= i < |items| ==> Divides(b, items[i])) && !EndsEmpty(items)
  }

  /** An array with less than a block to spare, in terms of the list alone. */
  lemma SurvivesExactly(items: seq<Item>, blocks: seq<Bytes>, b: nat, endian: Order, host: Order)
    requires b > 0 && Uniform(blocks, b) && |Flatten(blocks)| < TWO64
    requires EncodeAll(items, endian, host) <= Flatten(blocks)
    requires |blocks| == 1 || Start(|blocks|, b) < |EncodeAll(items, endian, host)| + b
    ensures
      var size := |EncodeAll(items, endian, host)|;
      var r := DecodeAll(items, Blocked(blocks, b, size), Cursor(0, 0), endian, host);
      Right(r, items) && r.next.position == size <==> Survives(items, b)
  {
    var size := |EncodeAll(items, endian, host)|;
    var src: Source := Blocked(blocks, b, size);
    BlockedRoundTrip(items, blocks, b, endian, host);
    forall i | 0 <= i < |items| ensures Smooth(src, items[i]) <==> Divides(b, items[i]) {
      SmoothDivides(src, items[i]);
    }
    FlattenLength(blocks, b);
    if AllSmooth(src, items) && EndsEmpty(items) {
      Filled(items, src, endian, host);
      ItemNotEmpty(items[0], endian, host);
      NoSpare(size, |blocks|, b);
    }
  }

  /** A new array with the list in it, back at the start. */
  method WriteAndRewind(baseSize: nat, items: seq<Item>, endian: Order, host: Order) returns (ba: ByteArray)
    requires baseSize > 0 && |EncodeAll(items, endian, host)| + baseSize < TWO64
    ensures fresh(ba) && fresh(ba.spine) && ba.Structure() && ba.baseSize == baseSize
    ensures SourceOf(ba) == Blocked(Contents(ba.spine), baseSize, |EncodeAll(items, endian, host)|)
    ensures CursorOf(ba) == Cursor(0, 0)
    ensures EncodeAll(items, endian, host) <= Flatten(Contents(ba.spine)) && |Flatten(Contents(ba.spine))| < TWO64
    ensures |ba.spine| == 1 || Start(|ba.spine|, baseSize) < |EncodeAll(items, endian, host)| + baseSize
  {
    ba := WriteItems(baseSize, items, endian, host);
    ba.FlatLength();
    ba.PrefixOfFlat();
    var ok := ba.SetPosition(0);
    ba.PrefixOfFlat();
    ba.FlatLength();
    ba.CursorFollowsPosition();
    SpineLength(|ba.spine|, baseSize);
  }

  /** Writing a list into a new array, going back to the start and reading with the
      matching readers returns the list, with nothing left to read, exactly when the list
      survives the block size. */
  method WriteThenRead(baseSize: nat, items: seq<Item>, endian: Order, host: Order) returns (same: bool)
    requires baseSize > 0 && |EncodeAll(items, endian, host)| + baseSize < TWO64
    ensures same <==> Survives(items, baseSize)
  {
    var ba := WriteAndRewind(baseSize, items, endian, host);
    SurvivesExactly(items, Contents(ba.spine), baseSize, endian, host);
    var r := ReadItems(ba, items, endian, host);
    same := r.Ok? && r.value == items && ba.position == ba.size;
  }

  lemma SpineLength(n: nat, b: nat)
    requires b > 0
    ensures Start(n, b) == b ==> n == 1
  {
    if n > 1 { StartBefore(1, n, b); }
  }
}
