/** What `ByteArray::read` does, as written, from any cursor: the last step moves the
    position to the end of the block whatever was asked for, and the cursor's block
    pointer is followed even when nothing is left to read. */
module BlockRead {
  import opened Base
  import opened Blocks

  /** `m_position` and the index of `m_cur`; an index past the last block stands for null. */
  datatype Cursor = Cursor(position: nat, at: nat)

  /** `TooLong` is the `out_of_range` exception. */
  datatype Outcome = Read(data: Bytes) | TooLong | NullDereference

  datatype ReadResult = ReadResult(outcome: Outcome, cursor: Cursor)

  /** `getReadSize()`, an unsigned difference. */
  function Readable(size: nat, position: nat): nat {
    (size - position) % TWO64
  }

  function Prepend(data: Bytes, r: ReadResult): ReadResult {
    if r.outcome.Read? then r.(outcome := Read(data + r.outcome.data)) else r
  }

  /** The copying loop with `k` bytes to go, `npos` bytes into the cursor's block. */
  function Scan(blocks: seq<Bytes>, b: nat, c: Cursor, npos: nat, k: nat): ReadResult
    requires Uniform(blocks, b) && npos < b
    decreases k
  {
    if k == 0 then ReadResult(Read([]), c)
    else if c.at >= |blocks| then ReadResult(NullDereference, c)
    else if b - npos >= k then
      ReadResult(Read(blocks[c.at][npos..npos + k]),
        Cursor(c.position + (b - npos), c.at + if npos + k == b then 1 else 0))
    else
      Prepend(blocks[c.at][npos..], Scan(blocks, b, Cursor(c.position + (b - npos), c.at + 1), 0, k - (b - npos)))
  }

  /** One round of the loop, in terms of what is left to do. */
  lemma ScanRound(blocks: seq<Bytes>, b: nat, c: Cursor, npos: nat, k: nat, buf: Bytes)
    requires Uniform(blocks, b) && npos < b && c.at < |blocks| && k > 0
    ensures b - npos >= k ==>
      Prepend(buf, Scan(blocks, b, c, npos, k))
      == ReadResult(Read(buf + blocks[c.at][npos..npos + k]),
        Cursor(c.position + (b - npos), c.at + if npos + k == b then 1 else 0))
    ensures b - npos < k ==>
      Prepend(buf, Scan(blocks, b, c, npos, k))
      == Prepend(buf + blocks[c.at][npos..],
        Scan(blocks, b, Cursor(c.position + (b - npos), c.at + 1), 0, k - (b - npos)))
  {
    if b - npos < k {
      var rest := Scan(blocks, b, Cursor(c.position + (b - npos), c.at + 1), 0, k - (b - npos));
      if rest.outcome.Read? {
        assert buf + (blocks[c.at][npos..] + rest.outcome.data) == buf + blocks[c.at][npos..] + rest.outcome.data;
      }
    }
  }

  /** What the loop returns has the length that was asked for. */
  lemma {:induction false} ScanLength(blocks: seq<Bytes>, b: nat, c: Cursor, npos: nat, k: nat)
    requires Uniform(blocks, b) && npos < b
    ensures Scan(blocks, b, c, npos, k).outcome.Read? ==> |Scan(blocks, b, c, npos, k).outcome.data| == k
    decreases k
  {
    if k > b - npos && c.at < |blocks| {
      ScanLength(blocks, b, Cursor(c.position + (b - npos), c.at + 1), 0, k - (b - npos));
    }
  }

  function RawRead(blocks: seq<Bytes>, b: nat, size: nat, c: Cursor, k: nat): ReadResult
    requires Uniform(blocks, b) && b > 0
  {
    if k > Readable(size, c.position) then ReadResult(TooLong, c)
    else if c.at >= |blocks| then ReadResult(NullDereference, c)
    else Scan(blocks, b, c, c.position % b, k)
  }

  lemma {:induction false} ScanNeverLong(blocks: seq<Bytes>, b: nat, c: Cursor, npos: nat, k: nat)
    requires Uniform(blocks, b) && npos < b
    ensures Scan(blocks, b, c, npos, k).outcome != TooLong
    decreases k
  {
    if k > b - npos && c.at < |blocks| {
      ScanNeverLong(blocks, b, Cursor(c.position + (b - npos), c.at + 1), 0, k - (b - npos));
    }
  }

  /** A read is refused exactly when it asks for more than is readable, and then the cursor
      stays; one that succeeds returns as much as was asked for. */
  lemma RefusedExactly(blocks: seq<Bytes>, b: nat, size: nat, c: Cursor, k: nat)
    requires Uniform(blocks, b) && b > 0
    ensures RawRead(blocks, b, size, c, k).outcome == TooLong <==> k > (size - c.position) % TWO64
    ensures k > (size - c.position) % TWO64 ==> RawRead(blocks, b, size, c, k).cursor == c
    ensures RawRead(blocks, b, size, c, k).outcome.Read? ==> |RawRead(blocks, b, size, c, k).outcome.data| == k
  {
    ScanNeverLong(blocks, b, c, c.position % b, k);
    ScanLength(blocks, b, c, c.position % b, k);
  }

  /** `end` rounded up to a block boundary. */
  function RoundUp(end: nat, b: nat): nat
    requires b > 0
  {
    if end % b == 0 then end else end + (b - end % b)
  }

  /** The cursor after reading up to `end` as written. */
  function After(end: nat, b: nat): Cursor
    requires b > 0
  {
    Cursor(RoundUp(end, b), end / b)
  }

  /** The last step of the loop. */
  lemma ScanLast(blocks: seq<Bytes>, b: nat, c: Cursor, npos: nat, k: nat)
    requires b > 0 && Uniform(blocks, b) && Located(c.position, b, c.at, npos) && c.at < |blocks|
    requires k > 0 && npos + k <= b
    ensures c.position + k <= |Flatten(blocks)|
    ensures Scan(blocks, b, c, npos, k).outcome == Read(Flatten(blocks)[c.position..c.position + k])
    ensures Scan(blocks, b, c, npos, k).cursor == After(c.position + k, b)
  {
    BlockSlice(blocks, b, c.at, npos, npos + k);
    if npos + k == b {
      Locate(c.position + k, b, c.at + 1, 0);
    } else {
      Locate(c.position + k, b, c.at, npos + k);
    }
  }

  lemma Halves(flat: Bytes, p: nat, n: nat, k: nat)
    requires n <= k && p + k <= |flat|
    ensures flat[p..p + n] + flat[p + n..p + n + (k - n)] == flat[p..p + k]
  {}

  /** The rest of a block and what the following blocks yield. */
  lemma ScanMore(blocks: seq<Bytes>, b: nat, c: Cursor, npos: nat, k: nat, flat: Bytes)
    requires Uniform(blocks, b) && npos < b && b - npos < k && c.at < |blocks| && c.position + k <= |flat|
    requires blocks[c.at][npos..] == flat[c.position..c.position + (b - npos)]
    requires Scan(blocks, b, Cursor(c.position + (b - npos), c.at + 1), 0, k - (b - npos)).outcome
      == Read(flat[c.position + (b - npos)..c.position + k])
    ensures Scan(blocks, b, c, npos, k).outcome == Read(flat[c.position..c.position + k])
  {
    Halves(flat, c.position, b - npos, k);
  }

  /** From an aligned cursor the loop returns the right bytes; the block pointer is
      right too, but the position is rounded up to a block boundary. */
  lemma {:induction false} ScanAligned(blocks: seq<Bytes>, b: nat, c: Cursor, npos: nat, k: nat)
    requires b > 0 && Uniform(blocks, b) && Located(c.position, b, c.at, npos)
    requires k > 0 && c.position + k <= |Flatten(blocks)|
    ensures Scan(blocks, b, c, npos, k).outcome == Read(Flatten(blocks)[c.position..c.position + k])
    ensures Scan(blocks, b, c, npos, k).cursor == After(c.position + k, b)
    decreases k
  {
    FlattenLength(blocks, b);
    BlockBelow(c.at, |blocks|, b, c.position);
    var n := b - npos;
    if n >= k {
      ScanLast(blocks, b, c, npos, k);
    } else {
      BlockSlice(blocks, b, c.at, npos, b);
      assert blocks[c.at][npos..] == blocks[c.at][npos..b];
      ScanAligned(blocks, b, Cursor(c.position + n, c.at + 1), 0, k - n);
      ScanMore(blocks, b, c, npos, k, Flatten(blocks));
    }
  }

  /** What one `read` does from an aligned cursor. It leaves the cursor aligned
      exactly when it read nothing or stopped on a block boundary. */
  lemma ReadAligned(blocks: seq<Bytes>, b: nat, size: nat, c: Cursor, off: nat, k: nat)
    requires b > 0 && Uniform(blocks, b) && Located(c.position, b, c.at, off)
    requires c.position + k <= size <= |Flatten(blocks)| < TWO64
    ensures c.at >= |blocks| <==> c.position == |Flatten(blocks)|
    ensures c.position == |Flatten(blocks)| ==> RawRead(blocks, b, size, c, k) == ReadResult(NullDereference, c)
    ensures c.position < |Flatten(blocks)| ==>
      RawRead(blocks, b, size, c, k).outcome == Read(Flatten(blocks)[c.position..c.position + k])
    ensures c.position < |Flatten(blocks)| ==>
      RawRead(blocks, b, size, c, k).cursor == if k == 0 then c else After(c.position + k, b)
  {
    FlattenLength(blocks, b);
    Locate(c.position, b, c.at, off);
    if c.at < |blocks| { StartBefore(c.at, |blocks|, b); } else { Beyond(c, b, off, |blocks|); }
    assert Readable(size, c.position) == size - c.position;
    if c.position < |Flatten(blocks)| && k > 0 { ScanAligned(blocks, b, c, off, k); }
  }

  lemma Beyond(c: Cursor, b: nat, off: nat, n: nat)
    requires Located(c.position, b, c.at, off) && c.at >= n && c.position <= Start(n, b)
    ensures c.position == Start(n, b)
  {
    if c.at > n { StartBefore(n, c.at, b); }
  }

  // --- the read at a given position, which starts in the cursor's block ---

  /** Scanning from block `at`, `from % b` bytes in, returns the `n` bytes at `from`. */
  predicate PeeksRight(blocks: seq<Bytes>, b: nat, at: nat, from: nat, n: nat)
    requires b > 0 && Uniform(blocks, b)
  {
    && from + n <= |Flatten(blocks)|
    && Scan(blocks, b, Cursor(from, at), from % b, n).outcome == Read(Flatten(blocks)[from..from + n])
  }

  lemma PeekInside(blocks: seq<Bytes>, b: nat, from: nat, n: nat)
    requires b > 0 && Uniform(blocks, b) && n > 0 && from + n <= |Flatten(blocks)|
    ensures PeeksRight(blocks, b, from / b, from, n)
  {
    Locating(from, b);
    ScanAligned(blocks, b, Cursor(from, from / b), from % b, n);
  }

  /** All zeros but for one byte. */
  function Spot(count: nat, b: nat, at: nat, off: nat): (blocks: seq<Bytes>)
    ensures |blocks| == count && Uniform(blocks, b)
    ensures forall i, j :: 0 <= i < count && 0 <= j < b ==> blocks[i][j] == if i == at && j == off then 1 else 0
  {
    seq(count, i => seq(b, j => if i == at && j == off then 1 else 0))
  }

  lemma FirstByte(blocks: seq<Bytes>, b: nat, c: Cursor, npos: nat, k: nat)
    requires Uniform(blocks, b) && npos < b && k > 0 && Scan(blocks, b, c, npos, k).outcome.Read?
    ensures c.at < |blocks| && |Scan(blocks, b, c, npos, k).outcome.data| > 0
    ensures Scan(blocks, b, c, npos, k).outcome.data[0] == blocks[c.at][npos]
  {}

  lemma ByteOf(blocks: seq<Bytes>, b: nat, p: nat)
    requires b > 0 && Uniform(blocks, b) && p < |Flatten(blocks)|
    ensures p / b < |blocks| && p % b < b && Flatten(blocks)[p] == blocks[p / b][p % b]
  {
    FlattenLength(blocks, b);
    Locating(p, b);
    BlockBelow(p / b, |blocks|, b, p);
    BlockSlice(blocks, b, p / b, p % b, p % b + 1);
    assert Flatten(blocks)[p] == Flatten(blocks)[p..p + 1][0];
  }

  lemma PeekOutside(count: nat, b: nat, at: nat, from: nat, n: nat)
    requires b > 0 && n > 0 && from / b != at
    ensures !PeeksRight(Spot(count, b, at, from % b), b, at, from, n)
  {
    var blocks := Spot(count, b, at, from % b);
    if from + n <= |Flatten(blocks)| && Scan(blocks, b, Cursor(from, at), from % b, n).outcome.Read? {
      FirstByte(blocks, b, Cursor(from, at), from % b, n);
      ByteOf(blocks, b, from);
      assert Flatten(blocks)[from..from + n][0] == Flatten(blocks)[from];
    }
  }

  /** Whatever the blocks hold, the bytes are those at the given position, exactly when that
      position lies in the block the scan starts in. */
  lemma PeekExactly(count: nat, b: nat, at: nat, from: nat, n: nat)
    requires b > 0 && n > 0 && from + n <= Start(count, b)
    ensures (forall blocks :: |blocks| == count && Uniform(blocks, b) ==> PeeksRight(blocks, b, at, from, n))
      <==> from / b == at
  {
    if from / b == at {
      forall blocks | |blocks| == count && Uniform(blocks, b) ensures PeeksRight(blocks, b, at, from, n) {
        FlattenLength(blocks, b);
        PeekInside(blocks, b, from, n);
      }
    } else {
      PeekOutside(count, b, at, from, n);
      assert Uniform(Spot(count, b, at, from % b), b);
    }
  }
}
