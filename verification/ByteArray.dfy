/** `ByteArray`: a linked list of equal memory blocks with a cursor. */
module ByteArrayModel {
  import opened Base
  import opened Blocks
  import opened BlockRead

  class Node {
    const size: nat
    var data: Bytes
    var next: Node?

    /** `new char[s]`; what the bytes are is not promised. */
    constructor (s: nat)
      ensures size == s && |data| == s && next == null
    {
      size := s;
      data := seq(s, _ => 0);
      next := null;
    }
  }

  ghost predicate NextIs(spine: seq<Node>, i: nat)
    requires i < |spine|
    reads spine
  {
    spine[i].next == if i + 1 < |spine| then spine[i + 1] else null
  }

  /** The nodes in list order, each linked to the next, all different. */
  ghost predicate Linked(spine: seq<Node>, b: nat)
    reads spine
  {
    && (forall i :: 0 <= i < |spine| ==> spine[i].size == b && |spine[i].data| == b)
    && (forall i :: 0 <= i < |spine| ==> NextIs(spine, i))
    && (forall i, j :: 0 <= i < j < |spine| ==> spine[i] != spine[j])
  }

  ghost function Contents(spine: seq<Node>): (r: seq<Bytes>)
    reads spine
    ensures |r| == |spine|
  {
    seq(|spine|, i requires 0 <= i < |spine| reads spine => spine[i].data)
  }

  class ByteArray {
    const baseSize: nat
    var position: nat
    var capacity: nat
    var size: nat
    var root: Node
    var cur: Node?
    ghost var spine: seq<Node>
    ghost var at: nat           // the index of `cur`, |spine| when it is null

    /** The list is well formed and the cursor points into it. */
    ghost predicate Structure()
      reads this, spine
    {
      && baseSize > 0 && |spine| > 0 && root == spine[0] && Linked(spine, baseSize)
      && capacity == Start(|spine|, baseSize)
      && at <= |spine| && cur == (if at < |spine| then spine[at] else null)
    }

    /** The cursor's block is the one that holds `position`. */
    ghost predicate Aligned()
      reads this
    {
      Start(at, baseSize) <= position < Start(at, baseSize) + baseSize
    }

    ghost predicate Valid()
      reads this, spine
    {
      Structure() && Aligned() && position <= size <= capacity
    }

    /** The cursor is the block that the position lies in, and null exactly at the capacity. */
    lemma CursorFollowsPosition()
      requires Valid()
      ensures at == position / baseSize
      ensures cur == null <==> position == capacity
    {
      Locate(position, baseSize, at, position - Start(at, baseSize));
      if at < |spine| { StartBefore(at, |spine|, baseSize); }
    }

    /** The bytes of all blocks in order. */
    ghost function Flat(): Bytes
      reads this, spine
    {
      Flatten(Contents(spine))
    }

    lemma FlatLength()
      requires Structure()
      ensures |Flat()| == capacity
    {
      FlattenLength(Contents(spine), baseSize);
    }

    constructor (baseSize: nat)
      requires baseSize > 0
      ensures Valid() && this.baseSize == baseSize && position == 0 && size == 0 && capacity == baseSize
      ensures fresh(spine)
    {
      this.baseSize := baseSize;
      position, capacity, size := 0, baseSize, 0;
      var node := new Node(baseSize);
      root, cur, at := node, node, 0;
      spine := [node];
      new;
      assert spine == [root];
    }

    /** Walks to the last block. */
    method Tail() returns (tail: Node)
      requires Structure()
      ensures tail == spine[|spine| - 1]
    {
      tail := root;
      ghost var k := 0;
      while tail.next != null
        invariant 0 <= k < |spine| && tail == spine[k] && Linked(spine, baseSize)
        decreases |spine| - k
      {
        assert NextIs(spine, k);
        tail := tail.next;
        k := k + 1;
      }
      assert NextIs(spine, k);
    }

    /** Links one more block behind the last one. */
    method Append(ghost nodes: seq<Node>, tail: Node) returns (node: Node)
      requires baseSize > 0 && |nodes| > 0 && tail == nodes[|nodes| - 1] && Linked(nodes, baseSize)
      modifies tail`next
      ensures fresh(node) && Linked(nodes + [node], baseSize)
    {
      node := new Node(baseSize);
      assert forall i :: 0 <= i < |nodes| ==> NextIs(nodes, i);
      tail.next := node;
      forall i | 0 <= i < |nodes| + 1 ensures NextIs(nodes + [node], i) {
        if i + 1 < |nodes| { assert old(NextIs(nodes, i)); }
      }
    }

    /** Links `count` blocks behind the last one; `first` is the first of them. */
    method Grow(tail: Node, count: nat) returns (first: Node?, ghost nodes: seq<Node>)
      requires Structure() && tail == spine[|spine| - 1]
      modifies tail`next, this`capacity
      ensures Linked(nodes, baseSize) && |nodes| == |spine| + count && spine <= nodes
      ensures forall i :: |spine| <= i < |nodes| ==> fresh(nodes[i])
      ensures first == if count == 0 then null else nodes[|spine|]
      ensures forall j :: 0 <= j < |spine| ==> nodes[j].data == old(spine[j].data)
      ensures capacity == Start(|nodes|, baseSize)
    {
      first := null;
      nodes := spine;
      var tmp := tail;
      var i := 0;
      while i < count
        invariant 0 <= i <= count && |nodes| == |spine| + i && spine <= nodes
        invariant (forall j :: |spine| <= j < |nodes| ==> fresh(nodes[j])) && tmp == nodes[|nodes| - 1]
          && Linked(nodes, baseSize)
        invariant first == if i == 0 then null else nodes[|spine|]
        invariant i == 0 ==> tmp == tail
        invariant i > 0 ==> fresh(tmp)
        invariant forall j :: 0 <= j < |spine| ==> nodes[j].data == old(spine[j].data)
        invariant capacity == Start(|nodes|, baseSize)
      {
        var node := Append(nodes, tmp);
        if first == null { first := node; }
        nodes := nodes + [node];
        tmp := node;
        capacity := capacity + baseSize;
        i := i + 1;
      }
    }

    /** How many blocks hold `n` bytes. */
    method CountFor(n: nat) returns (count: nat)
      requires baseSize > 0
      ensures n <= Start(count, baseSize) < n + baseSize
    {
      count := n / baseSize + if n % baseSize > 0 then 1 else 0;
      Quotient(n, baseSize);
      StartIsProduct(n / baseSize, baseSize);
    }

    /** The new list replaces the old one; a null cursor moves to the first new block. */
    method Adopt(ghost nodes: seq<Node>, first: Node?, full: bool)
      requires Linked(nodes, baseSize) && |nodes| > 0 && root == nodes[0] && capacity == Start(|nodes|, baseSize)
      requires baseSize > 0 && at < |nodes|
      requires if full then first == nodes[at] else cur == nodes[at]
      modifies this`cur, this`spine
      ensures Structure() && spine == nodes
    {
      if full { cur := first; }
      spine := nodes;
    }

    /** The growing part of `addCapacity`. */
    method AddBlocks(count: nat)
      requires Valid() && count > 0
      modifies this, spine
      ensures Structure() && position == old(position) && size == old(size) && at == old(at)
      ensures |spine| == |old(spine)| + count && old(spine) <= spine
        && (forall i :: |old(spine)| <= i < |spine| ==> fresh(spine[i]))
      ensures old(Flat()) <= Flat()
    {
      if at < |spine| { StartBefore(at, |spine|, baseSize); }
      var room := capacity - position;
      ghost var before := Contents(spine);
      var tail := Tail();
      var first, nodes := Grow(tail, count);
      assert Contents(nodes)[..|before|] == before;
      ExtendFlat(before, Contents(nodes));
      Adopt(nodes, first, room == 0);
    }

    /** `addCapacity`: blocks are appended until `n` bytes fit behind the position. */
    method AddCapacity(n: nat)
      requires Valid()
      modifies this, spine
      ensures Valid() && position == old(position) && size == old(size) && at == old(at)
      ensures position + n <= capacity && Data() == old(Data())
      ensures capacity == old(capacity) || capacity < position + n + baseSize
      ensures old(spine) <= spine && (forall i :: |old(spine)| <= i < |spine| ==> fresh(spine[i]))
      ensures n <= old(capacity - position) ==> spine == old(spine)
    {
      if n == 0 { return; }
      var room := capacity - position;
      if room >= n { return; }
      PrefixOfFlat();
      var count := CountFor(n - room);
      StartSum(|spine|, count, baseSize);
      AddBlocks(count);
      PrefixOfFlat();
    }

    /** `memcpy(node->ptr + npos, chunk)` into block `i`. */
    method Copy(node: Node, ghost i: nat, npos: nat, chunk: Bytes)
      requires Structure() && i < |spine| && node == spine[i] && npos + |chunk| <= baseSize
      modifies spine
      ensures Structure()
      ensures Start(i, baseSize) + npos + |chunk| <= old(|Flat()|)
      ensures Flat() == Overwrite(old(Flat()), Start(i, baseSize) + npos, chunk)
    {
      BlockWrite(Contents(spine), baseSize, i, npos, chunk);
      ghost var before := Contents(spine);
      node.data := Overwrite(node.data, npos, chunk);
      forall j | 0 <= j < |spine| ensures NextIs(spine, j) { assert old(NextIs(spine, j)); }
      assert Contents(spine) == before[i := Overwrite(before[i], npos, chunk)];
    }

    /** `m_cur = m_cur->next`. */
    method Advance()
      requires Structure() && at < |spine|
      modifies this`cur, this`at
      ensures Structure() && at == old(at) + 1
    {
      assert NextIs(spine, at);
      cur := cur.next;
      at := at + 1;
    }

    /** The bytes written so far, without the spare room behind them. */
    ghost function Data(): (r: Bytes)
      requires Structure() && size <= capacity
      reads this, spine
      ensures |r| == size
    {
      FlattenLength(Contents(spine), baseSize);
      Flat()[..size]
    }

    /** `write` when there is room. */
    method Store(buf: Bytes)
      requires Valid() && |buf| > 0 && position + |buf| <= capacity
      modifies this, spine
      ensures Valid() && spine == old(spine) && position == old(position) + |buf| && size == Max(old(size), position)
      ensures capacity == old(capacity)
      ensures Data() == Put(old(Data()), old(position), buf)
    {
      PrefixOfFlat();
      CopyAll(buf);
      if position > size {
        size := position;
      }
      PrefixOfFlat();
      PutOverwrite(old(Flat()), old(size), old(position), buf);
    }

    /** `write`: the bytes replace those at the position, the size grows if need be. */
    method Write(buf: Bytes)
      requires Valid()
      modifies this, spine
      ensures Valid()
      ensures position == old(position) + |buf| && size == Max(old(size), position)
      ensures capacity == old(capacity) || capacity < position + baseSize
      ensures Data() == Put(old(Data()), old(position), buf)
      ensures old(spine) <= spine && (forall i :: |old(spine)| <= i < |spine| ==> fresh(spine[i]))
    {
      if |buf| == 0 {
        return;
      }
      AddCapacity(|buf|);
      assert forall i :: 0 <= i < |old(spine)| ==> spine[i] == old(spine)[i];
      Store(buf);
    }

    lemma PrefixOfFlat()
      requires Structure() && size <= capacity
      ensures size <= |Flat()| && Data() == Flat()[..size]
    {
      FlatLength();
    }

    /** One round of a copying loop: the chunk goes into the cursor's block, and the
        cursor moves on when the block is full. */
    method CopyChunk(npos: nat, chunk: Bytes)
      requires Structure() && at < |spine| && Located(position, baseSize, at, npos) && npos + |chunk| <= baseSize
      modifies this`position, this`cur, this`at, spine
      ensures Structure() && Aligned() && position == old(position) + |chunk|
      ensures at == old(at) + if npos + |chunk| == baseSize then 1 else 0
      ensures old(position) + |chunk| <= |old(Flat())| && Flat() == Overwrite(old(Flat()), old(position), chunk)
    {
      Copy(cur, at, npos, chunk);
      if cur.size == npos + |chunk| {
        Advance();
      }
      position := position + |chunk|;
    }

    /** One round of the loop in `write`: `n` more bytes of `buf` are in place. */
    method CopyRound(buf: Bytes, bpos: nat, npos: nat, n: nat, ghost p: nat, ghost f: Bytes)
      requires Structure() && at < |spine| && Located(position, baseSize, at, npos) && npos + n <= baseSize
      requires bpos + n <= |buf| && position == p + bpos && p + |buf| <= |f| && Flat() == Overwrite(f, p, buf[..bpos])
      modifies this`position, this`cur, this`at, spine
      ensures Structure() && Aligned() && position == p + bpos + n && Flat() == Overwrite(f, p, buf[..bpos + n])
      ensures npos + n == baseSize ==> Located(position, baseSize, at, 0)
    {
      var chunk := buf[bpos..bpos + n];
      OverwriteTwice(f, p, buf[..bpos], chunk);
      Consecutive(buf, bpos, n);
      CopyChunk(npos, chunk);
    }

    /** The copying loop of `write`. */
    method CopyAll(buf: Bytes)
      requires Valid() && position + |buf| <= capacity && |buf| > 0
      modifies this`position, this`cur, this`at, spine
      ensures Structure() && Aligned()
      ensures position == old(position) + |buf|
      ensures old(position) + |buf| <= |old(Flat())| && Flat() == Overwrite(old(Flat()), old(position), buf)
    {
      FlatLength();
      ghost var p, f := position, Flat();
      NothingWritten(f, p, buf);
      Locate(position, baseSize, at, position - Start(at, baseSize));
      BlockBelow(at, |spine|, baseSize, position);
      var npos := position % baseSize;
      var ncap := cur.size - npos;
      var bpos := 0;
      var left := |buf|;
      while left > 0
        invariant 0 <= left && 0 <= bpos && left + bpos == |buf|
        invariant Structure() && Aligned() && position == p + bpos && capacity == old(capacity)
        invariant left > 0 ==>
          at < |spine| && 0 <= npos && Located(position, baseSize, at, npos) && ncap == baseSize - npos
        invariant p + |buf| <= |f| && Flat() == Overwrite(f, p, buf[..bpos])
      {
        var n := if ncap >= left then left else ncap;
        CopyRound(buf, bpos, npos, n, p, f);
        bpos := bpos + n;
        left := left - n;
        if left > 0 {
          BlockBelow(at, |spine|, baseSize, position);
          ncap := cur.size;
          npos := 0;
        }
      }
      assert buf[..|buf|] == buf;
    }

    /** One round of the loop in `read` that ends with its block. */
    method TakeRest(npos: nat) returns (chunk: Bytes)
      requires Structure() && at < |spine| && npos < baseSize
      modifies this`position, this`cur, this`at
      ensures Structure() && at == old(at) + 1 && position == old(position) + (baseSize - npos)
      ensures chunk == Contents(spine)[old(at)][npos..]
    {
      chunk := cur.data[npos..];
      position := position + (cur.size - npos);
      Advance();
    }

    /** The last round of the loop in `read`: `m_position += ncap`. */
    method TakeLast(npos: nat, left: nat) returns (chunk: Bytes)
      requires Structure() && at < |spine| && npos + left <= baseSize && npos < baseSize
      modifies this`position, this`cur, this`at
      ensures Structure() && at == old(at) + (if npos + left == baseSize then 1 else 0)
      ensures position == old(position) + (baseSize - npos)
      ensures chunk == Contents(spine)[old(at)][npos..npos + left]
    {
      chunk := cur.data[npos..npos + left];
      var ncap := cur.size - npos;
      if cur.size == npos + left {
        Advance();
      }
      position := position + ncap;
    }

    /** One round of the loop in `read`, `left` bytes to go. */
    method ReadRound(npos: nat, left: nat, buf: Bytes) returns (more: Bytes, rest: nat)
      requires Structure() && at < |spine| && npos < baseSize && left > 0
      modifies this`position, this`cur, this`at
      ensures Structure() && rest < left
      ensures Prepend(buf, Scan(Contents(spine), baseSize, Cursor(old(position), old(at)), npos, left))
           == if rest == 0 then ReadResult(BlockRead.Read(more), Cursor(position, at))
              else Prepend(more, Scan(Contents(spine), baseSize, Cursor(position, at), 0, rest))
    {
      ScanRound(Contents(spine), baseSize, Cursor(position, at), npos, left, buf);
      if cur.size - npos >= left {
        var chunk := TakeLast(npos, left);
        more, rest := buf + chunk, 0;
      } else {
        var chunk := TakeRest(npos);
        more, rest := buf + chunk, left - (baseSize - npos);
      }
    }

    /** The copying loop of `read`. */
    method ReadLoop(first: nat, n: nat) returns (outcome: Outcome)
      requires Structure() && at < |spine| && first < baseSize
      modifies this`position, this`cur, this`at
      ensures Structure()
      ensures ReadResult(outcome, Cursor(position, at))
        == Scan(Contents(spine), baseSize, Cursor(old(position), old(at)), first, n)
    {
      ghost var result := Scan(Contents(spine), baseSize, Cursor(position, at), first, n);
      var npos, left, buf := first, n, [];
      while left > 0
        invariant 0 <= left && 0 <= npos < baseSize && Structure()
        invariant left > 0 && cur != null ==>
          result == Prepend(buf, Scan(Contents(spine), baseSize, Cursor(position, at), npos, left))
        invariant left > 0 && cur == null ==> result == ReadResult(NullDereference, Cursor(position, at))
        invariant left == 0 ==> result == ReadResult(BlockRead.Read(buf), Cursor(position, at))
      {
        if cur == null {
          return NullDereference;
        }
        buf, left := ReadRound(npos, left, buf);
        npos := 0;
      }
      outcome := BlockRead.Read(buf);
    }

    /** `read`, as written. It is exactly `RawRead` on the blocks. */
    method Read(n: nat) returns (outcome: Outcome)
      requires Structure()
      modifies this`position, this`cur, this`at
      ensures Structure()
      ensures ReadResult(outcome, Cursor(position, at))
        == RawRead(Contents(spine), baseSize, size, Cursor(old(position), old(at)), n)
      ensures outcome == TooLong <==> n > (size - old(position)) % TWO64
      ensures outcome == TooLong ==> position == old(position) && cur == old(cur)
      ensures outcome.Read? ==> |outcome.data| == n
      ensures outcome != TooLong && old(cur) == null ==> outcome == NullDereference
    {
      RefusedExactly(Contents(spine), baseSize, size, Cursor(position, at), n);
      if n > (size - position) % TWO64 {
        return TooLong;
      }
      if cur == null {
        return NullDereference;
      }
      outcome := ReadLoop(position % baseSize, n);
    }

    /** One round of the loop in the three-argument `read`, with its own cursor. */
    method PeekRound(node: Node, ghost c: Cursor, npos: nat, left: nat, buf: Bytes)
      returns (more: Bytes, rest: nat, next: Node?, ghost d: Cursor)
      requires Structure() && c.at < |spine| && node == spine[c.at] && npos < baseSize && left > 0
      ensures rest < left && d.at <= |spine| && next == (if d.at < |spine| then spine[d.at] else null)
      ensures rest == 0 ==> Prepend(buf, Scan(Contents(spine), baseSize, c, npos, left)).outcome == BlockRead.Read(more)
      ensures rest > 0 ==>
        Prepend(buf, Scan(Contents(spine), baseSize, c, npos, left))
          == Prepend(more, Scan(Contents(spine), baseSize, d, 0, rest))
    {
      ScanRound(Contents(spine), baseSize, c, npos, left, buf);
      assert NextIs(spine, c.at);
      if node.size - npos >= left {
        more, rest, next, d := buf + node.data[npos..npos + left], 0, node, c;
      } else {
        more, rest, next, d := buf + node.data[npos..], left - (node.size - npos), node.next,
          Cursor(c.position + (baseSize - npos), c.at + 1);
      }
    }

    lemma InBlock(from: nat, n: nat)
      requires Structure() && from < capacity && from + n <= capacity && from / baseSize == at
      ensures at < |spine| && from + n <= |Flat()|
      ensures Scan(Contents(spine), baseSize, Cursor(from, at), from % baseSize, n).outcome
        == BlockRead.Read(Flat()[from..from + n])
    {
      FlatLength();
      Locating(from, baseSize);
      BlockBelow(at, |spine|, baseSize, from);
      if n > 0 { PeekInside(Contents(spine), baseSize, from, n); }
    }

    /** The three-argument `read`. It starts in the cursor's block whatever `from` is, so it
        returns the bytes at `from` if `from` lies in that block. */
    method ReadAt(n: nat, from: nat) returns (outcome: Outcome)
      requires Structure()
      ensures n <= Readable(size, position) && from / baseSize == at && from < capacity && from + n <= capacity ==>
        from + n <= |Flat()| && outcome == BlockRead.Read(Flat()[from..from + n])
      ensures outcome == if n > Readable(size, position) then TooLong
                         else if at >= |spine| then NullDereference
                         else Scan(Contents(spine), baseSize, Cursor(from, at), from % baseSize, n).outcome
    {
      if n > (size - position) % TWO64 {
        return TooLong;
      }
      if from < capacity && from + n <= capacity && from / baseSize == at { InBlock(from, n); }
      if cur == null {
        return NullDereference;
      }
      var npos: nat, left: nat, buf: Bytes, node: Node? := from % baseSize, n, [], cur;
      ghost var c := Cursor(from, at);
      ghost var result := Scan(Contents(spine), baseSize, c, npos, n).outcome;
      while left > 0
        invariant npos < baseSize && c.at <= |spine| && (node == if c.at < |spine| then spine[c.at] else null)
        invariant left > 0 && node != null ==>
          result == Prepend(buf, Scan(Contents(spine), baseSize, c, npos, left)).outcome
        invariant left > 0 && node == null ==> result == NullDereference
        invariant left == 0 ==> result == BlockRead.Read(buf)
      {
        if node == null {
          return NullDereference;
        }
        buf, left, node, c := PeekRound(node, c, npos, left, buf);
        npos := 0;
      }
      outcome := BlockRead.Read(buf);
    }

    /** `toString`: the bytes from the position to the size. */
    method ToString() returns (outcome: Outcome)
      requires Valid() && capacity < TWO64
      ensures outcome == BlockRead.Read(Data()[position..])
    {
      PrefixOfFlat();
      FlattenLength(Contents(spine), baseSize);
      if size - position == 0 {
        return BlockRead.Read([]);
      }
      CursorFollowsPosition();
      SliceOfData(Flat(), size, position);
      outcome := ReadAt(size - position, position);
    }

    /** The walk of `setPosition` from the root to the block of `v`. */
    method Seek(v: nat)
      requires Structure() && v <= capacity
      modifies this`cur, this`at
      ensures Structure() && Start(at, baseSize) <= v < Start(at, baseSize) + baseSize
    {
      cur, at := root, 0;
      var w: nat := v;
      while w > cur.size
        invariant at < |spine| && Structure() && v == Start(at, baseSize) + w && v <= Start(|spine|, baseSize)
        decreases w
      {
        BlockBelow(at + 1, |spine|, baseSize, v - 1);
        w := w - cur.size;
        Advance();
      }
      if w == cur.size {
        Advance();
      }
    }

    /** `setPosition`: refused past the capacity; otherwise the cursor is found from
        the root, whatever state it was in. */
    method SetPosition(v: nat) returns (ok: bool)
      requires Structure() && size <= capacity
      modifies this`position, this`size, this`cur, this`at
      ensures Structure() && (ok <==> v <= capacity)
      ensures ok ==> Valid() && position == v && size == Max(old(size), v)
      ensures ok ==> Data()[..old(size)] == old(Data())
      ensures !ok ==> position == old(position) && size == old(size) && cur == old(cur)
    {
      if v > capacity {
        return false;
      }
      PrefixOfFlat();
      FlatLength();
      position := v;
      if position > size {
        size := position;
      }
      Seek(v);
      PrefixOfFlat();
      ok := true;
    }

    /** `len` bytes of the block that holds `pos`. */
    method Chunk(node: Node, ghost i: nat, pos: nat, len: nat) returns (chunk: Bytes)
      requires Structure() && i < |spine| && node == spine[i]
      requires Start(i, baseSize) <= pos && pos + len <= Start(i, baseSize) + baseSize
      requires pos < Start(i, baseSize) + baseSize
      ensures pos + len <= |Flat()| && chunk == Flat()[pos..pos + len]
    {
      ghost var off := pos - Start(i, baseSize);
      Locate(pos, baseSize, i, off);
      BlockSlice(Contents(spine), baseSize, i, off, off + len);
      var diff := pos % baseSize;
      chunk := node.data[diff..diff + len];
    }

    /** One round of the loop in `writeToFile`. */
    method FileRound(node: Node?, ghost i: nat, pos: nat, readSize: nat)
      returns (chunk: Bytes, next: Node?, ghost j: nat)
      requires Structure() && i <= |spine| && node == (if i < |spine| then spine[i] else null)
      requires Start(i, baseSize) <= pos < Start(i, baseSize) + baseSize && readSize > 0 && pos + readSize <= capacity
      ensures 0 < |chunk| <= readSize && pos + |chunk| <= |Flat()| && chunk == Flat()[pos..pos + |chunk|]
      ensures j <= |spine| && next == (if j < |spine| then spine[j] else null)
      ensures Start(j, baseSize) <= pos + |chunk| < Start(j, baseSize) + baseSize
    {
      ghost var off: nat := pos - Start(i, baseSize);
      Locate(pos, baseSize, i, off);
      BlockBelow(i, |spine|, baseSize, pos);
      var diff := pos % baseSize;
      var len := if readSize + diff > baseSize then baseSize - diff else readSize;
      chunk := Chunk(node, i, pos, len);
      next, j := node, i;
      if len + diff == baseSize {
        assert NextIs(spine, i);
        next, j := node.next, i + 1;
      }
    }

    /** The loop of `writeToFile`: the chunks that go to the file. */
    method WriteToFile() returns (file: Bytes)
      requires Valid()
      ensures file == Data()[position..]
    {
      PrefixOfFlat();
      FlatLength();
      SliceOfData(Flat(), size, position);
      var readSize: nat, pos: nat, node: Node? := size - position, position, cur;
      ghost var i: nat := at;
      file := [];
      while readSize > 0
        invariant pos + readSize == size && position <= pos
        invariant i <= |spine| && node == (if i < |spine| then spine[i] else null)
        invariant Start(i, baseSize) <= pos < Start(i, baseSize) + baseSize
        invariant size <= |Flat()| && file == Flat()[position..pos]
      {
        var chunk, next, j := FileRound(node, i, pos, readSize);
        Longer(Flat(), position, pos, |chunk|);
        file := file + chunk;
        pos := pos + |chunk|;
        readSize := readSize - |chunk|;
        node, i := next, j;
      }
    }

    /** `getWriteBuffers`: room for `len` bytes from the position, as slices of the blocks. */
    method GetWriteBuffers(len: nat) returns (buffers: seq<Slice>)
      requires Valid()
      modifies this, spine
      ensures Valid() && position == old(position) && size == old(size) && Data() == old(Data())
      ensures position + len <= capacity
      ensures Tiles(buffers, spine, baseSize, at, position, len)
      ensures old(spine) <= spine && (forall i :: |old(spine)| <= i < |spine| ==> fresh(spine[i]))
    {
      if len == 0 {
        return [];
      }
      AddCapacity(len);
      buffers := Slices(len);
    }

    /** One round of that loop: `done` bytes of room are sliced, `left` are to go. */
    method SliceRound(buffers: seq<Slice>, node: Node, ghost i: nat, npos: nat, ghost off: nat, ghost done: nat,
        left: nat) returns (more: seq<Slice>, rest: nat, next: Node?, ghost j: nat)
      requires Structure() && Tiles(buffers, spine, baseSize, at, position, done)
        && Located(position, baseSize, at, off)
      requires i < |spine| && node == spine[i] && Located(position + done, baseSize, i, npos)
      requires left > 0 && position + done + left <= capacity
      ensures rest < left && Tiles(more, spine, baseSize, at, position, done + (left - rest))
      ensures rest > 0 ==>
        j < |spine| && next == spine[j] && Located(position + (done + (left - rest)), baseSize, j, 0)
    {
      var n := if node.size - npos >= left then left else node.size - npos;
      TilesAppend(buffers, spine, baseSize, at, off, position, done, i, Slice(node, npos, n));
      more, rest, next, j := buffers + [Slice(node, npos, n)], left - n, node, i;
      if rest > 0 {
        BlockBelow(i + 1, |spine|, baseSize, position + done + n);
        assert NextIs(spine, i);
        next, j := node.next, i + 1;
      }
    }

    /** The slicing loop of `getWriteBuffers`. */
    method Slices(len: nat) returns (buffers: seq<Slice>)
      requires Valid() && len > 0 && position + len <= capacity
      ensures Tiles(buffers, spine, baseSize, at, position, len)
    {
      ghost var off: nat := position - Start(at, baseSize);
      Locate(position, baseSize, at, off);
      BlockBelow(at, |spine|, baseSize, position);
      var npos: nat, left: nat, node: Node? := position % baseSize, len, cur;
      ghost var i: nat := at;
      buffers := [];
      while left > 0
        invariant left <= len && Tiles(buffers, spine, baseSize, at, position, len - left)
        invariant left > 0 ==> i < |spine| && node == spine[i] && Located(position + (len - left), baseSize, i, npos)
      {
        buffers, left, node, i := SliceRound(buffers, node, i, npos, off, len - left, left);
        npos := 0;
      }
    }

    /** `getReadBuffers`, as written: the block pointer never moves on. What it returns
        is the readable range exactly when that range lies in the cursor's block. */
    method GetReadBuffers(want: nat) returns (buffers: seq<Slice>, len: nat)
      requires Valid()
      ensures len == if want > size - position then size - position else want
      ensures len == 0 ==> buffers == []
      ensures len > 0 ==>
        (Tiles(buffers, spine, baseSize, at, position, len) <==> len <= baseSize - position % baseSize)
    {
      len := if want > size - position then size - position else want;
      buffers := [];
      if len == 0 {
        return;
      }
      Locate(position, baseSize, at, position - Start(at, baseSize));
      BlockBelow(at, |spine|, baseSize, position);
      var first := position % baseSize;
      var npos: nat, left: nat := first, len;
      while left > 0
        invariant left <= len && npos < baseSize && (left == len ==> npos == first && buffers == [])
        invariant left < len && len <= baseSize - first ==> left == 0 && buffers == [Slice(cur, first, len)]
        invariant left < len && len > baseSize - first ==>
          |buffers| > 0 && buffers[0] == Slice(cur, first, baseSize - first) && npos == 0
            && ((left == len - (baseSize - first) && |buffers| == 1) || (|buffers| > 1 && buffers[1].node == cur))
      {
        if cur.size - npos >= left {
          buffers := buffers + [Slice(cur, npos, left)];
          left := 0;
        } else {
          buffers := buffers + [Slice(cur, npos, cur.size - npos)];
          left := left - (cur.size - npos);
          npos := 0;
        }
      }
      StuckOrDone(buffers, len);
    }

    /** Slices that leave the cursor's block but stay at its node do not tile the range. */
    lemma StuckOrDone(buffers: seq<Slice>, len: nat)
      requires Valid() && at < |spine| && len > 0 && Located(position, baseSize, at, position % baseSize)
      requires |buffers| > 0 && buffers[0].node == cur && buffers[0].off == position % baseSize
      requires if len <= baseSize - position % baseSize then |buffers| == 1 && buffers[0].len == len
               else |buffers| > 1 && buffers[0].len == baseSize - position % baseSize && buffers[1].node == cur
      ensures Tiles(buffers, spine, baseSize, at, position, len) <==> len <= baseSize - position % baseSize
    {
      assert |buffers| == 1 ==> buffers[1..] == [];
      assert |buffers| > 1 ==> buffers[1..] != [] && buffers[1..][0] == buffers[1];
    }

    /** One slice of a scatter read receives its share. */
    method FillOne(s: Slice, ghost i: nat, ghost p: nat, data: Bytes, done: nat, n: nat, ghost f: Bytes)
      requires Structure() && i < |spine| && s.node == spine[i] && Located(p + done, baseSize, i, s.off)
        && s.off + n <= baseSize
      requires done + n <= |data| && p + |data| <= |f| && Flat() == Overwrite(f, p, data[..done])
      modifies spine
      ensures Structure() && Flat() == Overwrite(f, p, data[..done + n])
    {
      OverwriteTwice(f, p, data[..done], data[done..done + n]);
      Consecutive(data, done, n);
      Copy(s.node, i, s.off, data[done..done + n]);
    }

    /** The slice at `k` receives its share. */
    method FillRound(buffers: seq<Slice>, k: nat, ghost i: nat, ghost p: nat, ghost len: nat, data: Bytes, done: nat,
        ghost f: Bytes) returns (more: nat, ghost j: nat)
      requires Structure() && k < |buffers| && done < |data| <= len && p + |data| <= |f|
      requires Tiles(buffers[k..], spine, baseSize, i, p + done, len - done) && Flat() == Overwrite(f, p, data[..done])
      modifies spine
      ensures Structure() && more <= |data| && Flat() == Overwrite(f, p, data[..more])
      ensures more < |data| ==> Tiles(buffers[k + 1..], spine, baseSize, j, p + more, len - more)
    {
      var s := buffers[k];
      var n := if s.len <= |data| - done then s.len else |data| - done;
      TilesFrom(buffers, spine, baseSize, k, i, p + done, len - done);
      FillOne(s, i, p, data, done, n, f);
      more, j := done + n, NextBlock(i, baseSize, s);
    }

    /** `readv` into the slices: the received bytes fill them in order. */
    method Fill(buffers: seq<Slice>, ghost start: nat, ghost p: nat, ghost len: nat, data: Bytes)
      requires Structure() && Tiles(buffers, spine, baseSize, start, p, len) && |data| <= len && p + len <= capacity
      modifies spine
      ensures Structure()
      ensures p + |data| <= |old(Flat())| && Flat() == Overwrite(old(Flat()), p, data)
    {
      FlatLength();
      ghost var f := Flat();
      NothingWritten(f, p, data);
      var k, done: nat := 0, 0;
      ghost var i: nat := start;
      while k < |buffers| && done < |data|
        invariant k <= |buffers| && done <= |data| && Structure()
        invariant p + |data| <= |f| && Flat() == Overwrite(f, p, data[..done])
        invariant done < |data| ==> Tiles(buffers[k..], spine, baseSize, i, p + done, len - done)
      {
        done, i := FillRound(buffers, k, i, p, len, data, done, f);
        k := k + 1;
      }
      assert buffers[|buffers|..] == [];
      assert data[..|data|] == data;
    }

    /** Scatter read: `getWriteBuffers(len)`, `readv`, then `setPosition` past the bytes
        received is the same as writing those bytes. */
    method ScatterRead(len: nat, received: Bytes) returns (ok: bool)
      requires Valid() && |received| <= len
      modifies this, spine
      ensures ok && Valid()
      ensures position == old(position) + |received| && size == Max(old(size), position)
      ensures Data() == Put(old(Data()), old(position), received)
    {
      var buffers := GetWriteBuffers(len);
      assert forall i :: 0 <= i < |old(spine)| ==> spine[i] == old(spine)[i];
      ok := Receive(buffers, len, received);
    }

    /** The part of a scatter read behind `getWriteBuffers`. */
    method Receive(buffers: seq<Slice>, ghost len: nat, received: Bytes) returns (ok: bool)
      requires Valid() && |received| <= len && position + len <= capacity
      requires Tiles(buffers, spine, baseSize, at, position, len)
      modifies this, spine
      ensures ok && Valid() && spine == old(spine)
      ensures position == old(position) + |received| && size == Max(old(size), position)
      ensures Data() == Put(old(Data()), old(position), received)
    {
      PrefixOfFlat();
      FlatLength();
      ghost var f := Flat();
      PutOverwrite(f, size, position, received);
      Fill(buffers, at, position, len, received);
      FlatLength();
      Settle(position + |received|);
      ok := true;
    }

    /** `setPosition` inside the capacity, in terms of the flat bytes. */
    method Settle(v: nat)
      requires Structure() && size <= capacity && v <= capacity
      modifies this`position, this`size, this`cur, this`at
      ensures Valid() && position == v && size == Max(old(size), v) && size <= |Flat()|
      ensures Flat() == old(Flat()) && Data() == Flat()[..size]
    {
      var ok := SetPosition(v);
      PrefixOfFlat();
    }
  }

  lemma PutAtEnd(d: Bytes, x: Bytes)
    ensures Put(d, |d|, x) == d + x
  {}

  /** A call of `write`, or of `setPosition`. */
  datatype Op = WriteOp(buf: Bytes) | SeekOp(to: nat)

  /** What a script makes of a new array: the bytes and the position. */
  datatype Tape = Tape(data: Bytes, position: nat)

  predicate Fits(t: Tape, op: Op) {
    op.SeekOp? ==> op.to <= |t.data|
  }

  function Play1(t: Tape, op: Op): (r: Tape)
    requires t.position <= |t.data| && Fits(t, op)
    ensures r.position <= |r.data|
  {
    match op
    case WriteOp(buf) => Tape(Put(t.data, t.position, buf), t.position + |buf|)
    case SeekOp(to) => Tape(t.data, to)
  }

  /** No seek goes past what has been written by then. */
  predicate Playable(t: Tape, ops: seq<Op>)
    requires t.position <= |t.data|
    decreases |ops|
  {
    ops == [] || (Fits(t, ops[0]) && Playable(Play1(t, ops[0]), ops[1..]))
  }

  function Play(t: Tape, ops: seq<Op>): (r: Tape)
    requires t.position <= |t.data| && Playable(t, ops)
    ensures r.position <= |r.data|
    decreases |ops|
  {
    if ops == [] then t else Play(Play1(t, ops[0]), ops[1..])
  }

  /** One call of a script. */
  method Perform(ba: ByteArray, op: Op)
    requires ba.Valid() && Fits(Tape(ba.Data(), ba.position), op)
    modifies ba, ba.spine
    ensures ba.Valid() && Tape(ba.Data(), ba.position) == Play1(Tape(old(ba.Data()), old(ba.position)), op)
    ensures old(ba.spine) <= ba.spine
    ensures forall i :: |old(ba.spine)| <= i < |ba.spine| ==> fresh(ba.spine[i])
  {
    match op
    case WriteOp(buf) =>
      ba.Write(buf);
    case SeekOp(to) =>
      var ok := ba.SetPosition(to);
      assert ba.Data() == old(ba.Data());
  }

  /** A new array after a script of writes and seeks: it holds what the script makes, which
      knows nothing of blocks. */
  method PlayAll(baseSize: nat, ops: seq<Op>) returns (ba: ByteArray)
    requires baseSize > 0 && Playable(Tape([], 0), ops)
    ensures fresh(ba) && ba.Valid() && ba.baseSize == baseSize
    ensures Tape(ba.Data(), ba.position) == Play(Tape([], 0), ops)
  {
    ba := new ByteArray(baseSize);
    assert ba.Data() == [];
    var i := 0;
    while i < |ops|
      invariant 0 <= i <= |ops| && fresh(ba) && (forall j :: 0 <= j < |ba.spine| ==> fresh(ba.spine[j]))
      invariant ba.Valid() && ba.baseSize == baseSize
      invariant Playable(Tape(ba.Data(), ba.position), ops[i..])
      invariant Play(Tape(ba.Data(), ba.position), ops[i..]) == Play(Tape([], 0), ops)
    {
      assert ops[i..][0] == ops[i] && ops[i..][1..] == ops[i + 1..];
      ghost var before := ba.spine;
      Perform(ba, ops[i]);
      assert forall j :: 0 <= j < |before| ==> ba.spine[j] == before[j];
      i := i + 1;
    }
  }

  /** The same writes and seeks give the same contents, size and position for any two block
      sizes. */
  method SameWrites(ops: seq<Op>, b: nat, c: nat) returns (x: ByteArray, y: ByteArray)
    requires b > 0 && c > 0 && Playable(Tape([], 0), ops)
    ensures x.Valid() && y.Valid() && x.baseSize == b && y.baseSize == c
    ensures x.Data() == y.Data() && x.size == y.size && x.position == y.position
  {
    x := PlayAll(b, ops);
    y := PlayAll(c, ops);
  }

  /** An `iovec`: `len` bytes from `off` of a block. */
  datatype Slice = Slice(node: Node, off: nat, len: nat)

  /** The slices, the first of them in block `i`, are consecutive pieces of the blocks
      that make up the `len` bytes from `p`. */
  ghost predicate Tiles(buffers: seq<Slice>, spine: seq<Node>, b: nat, i: nat, p: nat, len: nat)
    decreases |buffers|
  {
    if buffers == [] then len == 0
    else
      var s := buffers[0];
      && i < |spine| && s.node == spine[i] && Located(p, b, i, s.off)
      && 0 < s.len <= len && s.off + s.len <= b
      && Tiles(buffers[1..], spine, b, NextBlock(i, b, s), p + s.len, len - s.len)
  }

  function NextBlock(i: nat, b: nat, s: Slice): nat {
    if s.off + s.len == b then i + 1 else i
  }

  /** The slice at `k` and those behind it. */
  lemma TilesFrom(buffers: seq<Slice>, spine: seq<Node>, b: nat, k: nat, i: nat, p: nat, len: nat)
    requires k < |buffers| && Tiles(buffers[k..], spine, b, i, p, len)
    ensures var s := buffers[k];
      && i < |spine| && s.node == spine[i] && Located(p, b, i, s.off)
      && 0 < s.len <= len && s.off + s.len <= b
      && Tiles(buffers[k + 1..], spine, b, NextBlock(i, b, s), p + s.len, len - s.len)
  {
    assert buffers[k..][0] == buffers[k] && buffers[k..][1..] == buffers[k + 1..];
  }

  /** One more slice where the others end. */
  lemma {:induction false} TilesAppend(buffers: seq<Slice>, spine: seq<Node>, b: nat, i: nat, off: nat, p: nat,
      len: nat, j: nat, s: Slice)
    requires Tiles(buffers, spine, b, i, p, len) && Located(p, b, i, off)
    requires j < |spine| && s.node == spine[j] && Located(p + len, b, j, s.off) && s.len > 0 && s.off + s.len <= b
    ensures Tiles(buffers + [s], spine, b, i, p, len + s.len)
    decreases |buffers|
  {
    if buffers == [] {
      assert buffers + [s] == [s] && [s][1..] == [];
      Locate(p, b, i, off);
      Locate(p, b, j, s.off);
    } else {
      var t := buffers[0];
      assert (buffers + [s])[1..] == buffers[1..] + [s];
      var next := if t.off + t.len == b then 0 else t.off + t.len;
      TilesAppend(buffers[1..], spine, b, NextBlock(i, b, t), next, p + t.len, len - t.len, j, s);
    }
  }

  lemma Longer(f: Bytes, p: nat, q: nat, n: nat)
    requires p <= q && q + n <= |f|
    ensures f[p..q] + f[q..q + n] == f[p..q + n]
  {}

  lemma SliceOfData(flat: Bytes, size: nat, p: nat)
    requires p <= size <= |flat|
    ensures flat[..size][p..] == flat[p..size] == flat[p..p + (size - p)]
  {}

  lemma NothingWritten(f: Bytes, p: nat, buf: Bytes)
    requires p + |buf| <= |f|
    ensures Overwrite(f, p, buf[..0]) == f
  {}

  /** Longer lists have longer contents. */
  lemma ExtendFlat(before: seq<Bytes>, after: seq<Bytes>)
    requires |before| <= |after| && after[..|before|] == before
    ensures Flatten(before) <= Flatten(after)
  {
    assert after == before + after[|before|..];
    FlattenConcat(before, after[|before|..]);
  }

  lemma Consecutive(buf: Bytes, i: nat, n: nat)
    requires i + n <= |buf|
    ensures buf[..i] + buf[i..i + n] == buf[..i + n]
  {}

  /** Overwriting the flat bytes, seen through the sizes before and after. */
  lemma PutOverwrite(f: Bytes, size: nat, p: nat, buf: Bytes)
    requires p <= size <= |f| && p + |buf| <= |f|
    ensures Overwrite(f, p, buf)[..Max(size, p + |buf|)] == Put(f[..size], p, buf)
  {}

  function Max(a: nat, b: nat): nat {
    if a < b then b else a
  }

  /** `d` with `xs` written at `p`, longer if `xs` reaches past the end. */
  function Put(d: Bytes, p: nat, xs: Bytes): Bytes
    requires p <= |d|
  {
    d[..p] + xs + if p + |xs| <= |d| then d[p + |xs|..] else []
  }
}
