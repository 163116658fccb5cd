/** `HttpConnectionPool`: idle connections in a queue, the others handed out. Every method
    below `GetConnection` and `Release` is one step of a thread: a lock region or an
    operation on the atomic total. Each starts from any valid state, so what they keep
    holds however the steps of several threads interleave. Which sockets are still
    connected, the clock and the outcome of a connection attempt come in as parameters. */
module Pool {
  import opened Base

  /** `HttpConnection`: when it was made and how often it has come back. */
  datatype Connection = Connection(createTime: nat, requests: nat)

  /** Connected, and not older than the limit. */
  predicate Usable(id: nat, table: map<nat, Connection>, connected: set<nat>, maxAlive: nat, now: nat) {
    id in connected && id in table && table[id].createTime + maxAlive >= now
  }

  /** How many leading connections of the queue cannot be handed out any more. */
  function Unusable(conns: seq<nat>, table: map<nat, Connection>, connected: set<nat>, maxAlive: nat,
      now: nat): (k: nat)
    ensures k <= |conns|
    ensures forall i :: 0 <= i < k ==> !Usable(conns[i], table, connected, maxAlive, now)
    ensures k < |conns| ==> Usable(conns[k], table, connected, maxAlive, now)
  {
    if conns == [] || Usable(conns[0], table, connected, maxAlive, now) then 0
    else 1 + Unusable(conns[1..], table, connected, maxAlive, now)
  }

  lemma Further(queue: seq<nat>, table: map<nat, Connection>, connected: set<nat>, maxAlive: nat, now: nat, i: nat)
    requires i < |queue| && i <= Unusable(queue, table, connected, maxAlive, now)
    ensures i < Unusable(queue, table, connected, maxAlive, now) <==> !Usable(queue[i], table, connected, maxAlive, now)
  {}

  /** The leading connections that are not connected or older than the limit, up to one that
      is neither. */
  lemma UnusableExactly(queue: seq<nat>, table: map<nat, Connection>, connected: set<nat>, maxAlive: nat, now: nat)
    requires forall id :: id in queue ==> id in table
    ensures var k := Unusable(queue, table, connected, maxAlive, now);
      && (forall i :: 0 <= i < k ==>
            queue[i] in table && (queue[i] !in connected || now > table[queue[i]].createTime + maxAlive))
      && (k < |queue| ==> queue[k] in connected && queue[k] in table && now <= table[queue[k]].createTime + maxAlive)
  {}

  /** The connection at position `k` and those behind it. */
  function At(queue: seq<nat>, k: nat): Option<nat> {
    if k < |queue| then Some(queue[k]) else None
  }

  function Behind(queue: seq<nat>, k: nat): seq<nat> {
    if k < |queue| then queue[k + 1..] else []
  }

  /** The connections that are left: all but the first `k` of the queue, and a new one if
      the queue had no other and the attempt succeeded. */
  function Kept(queue: seq<nat>, k: nat, table: map<nat, Connection>, address: nat, connects: bool,
      now: nat): map<nat, Connection>
    requires k <= |queue|
  {
    var left := table - AsSet(queue[..k]);
    if k == |queue| && connects then left[address := Connection(now, 0)] else left
  }

  function AsSet(s: seq<nat>): set<nat> {
    set x | x in s
  }

  ghost predicate Distinct(s: seq<nat>) {
    forall i, j :: 0 <= i < j < |s| ==> s[i] != s[j]
  }

  lemma {:induction false} AsSetSize(s: seq<nat>)
    requires Distinct(s)
    ensures |AsSet(s)| == |s|
  {
    if s != [] {
      AsSetSize(s[1..]);
      assert AsSet(s) == AsSet(s[1..]) + {s[0]};
      assert s[0] !in s[1..];
    }
  }

  /** Who has which connection: in the queue, handed out, or popped for deletion and not
      yet counted off. */
  datatype Books = Books(queue: seq<nat>, out: set<nat>, doomed: set<nat>, table: map<nat, Connection>,
    handed: map<nat, nat>)

  /** A connection in the queue has been handed out as often as it came back. */
  ghost predicate Idle(b: Books, id: nat, maxRequest: nat) {
    id !in b.out && id !in b.doomed && id in b.table && id in b.handed
      && b.handed[id] == b.table[id].requests < maxRequest
  }

  /** One that is out has been handed out once more, and not too often. */
  ghost predicate Lent(b: Books, id: nat, maxRequest: nat) {
    && id !in b.doomed && id in b.table && id in b.handed && b.handed[id] == b.table[id].requests + 1
    && (b.handed[id] == 1 || b.handed[id] <= maxRequest)
  }

  /** Every connection is in exactly one place, and the total counts them. */
  ghost predicate Balanced(b: Books, total: int, maxRequest: nat) {
    && Distinct(b.queue)
    && (forall id :: id in b.queue ==> Idle(b, id, maxRequest))
    && (forall id :: id in b.out ==> Lent(b, id, maxRequest))
    && (forall id :: id in b.doomed ==> id in b.table)
    && (forall id :: id in b.table ==> id in b.queue || id in b.out || id in b.doomed)
    && total == |b.queue| + |b.out| + |b.doomed|
  }

  // --- what the steps keep ---

  lemma DropPrefix(queue: seq<nat>, k: nat)
    requires Distinct(queue) && k <= |queue|
    ensures Distinct(queue[..k]) && Distinct(queue[k..])
    ensures forall id :: id in queue <==> id in queue[..k] || id in queue[k..]
    ensures forall id :: id in queue[..k] ==> id !in queue[k..]
  {
    assert queue == queue[..k] + queue[k..];
    forall i, j | 0 <= i < k <= j < |queue| ensures queue[i] != queue[j] {}
  }

  /** The books after `k` connections were popped for deletion. */
  ghost function DoomFirst(b: Books, k: nat): Books
    requires k <= |b.queue|
  {
    b.(queue := b.queue[k..], doomed := b.doomed + AsSet(b.queue[..k]))
  }

  lemma DoomKeeps(b: Books, k: nat, total: int, maxRequest: nat)
    requires Balanced(b, total, maxRequest) && k <= |b.queue|
    ensures Balanced(DoomFirst(b, k), total, maxRequest)
  {
    DropPrefix(b.queue, k);
    AsSetSize(b.queue[..k]);
    var after := DoomFirst(b, k);
    forall id | id in after.queue ensures Idle(after, id, maxRequest) { assert Idle(b, id, maxRequest); }
    forall id | id in after.out ensures Lent(after, id, maxRequest) { assert Lent(b, id, maxRequest); }
    assert b.doomed !! AsSet(b.queue[..k]);
  }

  /** The books after the first connection of the queue was handed out. */
  ghost function LendFirst(b: Books): Books
    requires b.queue != []
  {
    b.(queue := b.queue[1..], out := b.out + {b.queue[0]}, handed := Raised(b.handed, b.queue[0]))
  }

  function Raised(handed: map<nat, nat>, id: nat): map<nat, nat> {
    handed[id := (if id in handed then handed[id] else 0) + 1]
  }

  lemma LendKeeps(b: Books, total: int, maxRequest: nat)
    requires Balanced(b, total, maxRequest) && b.queue != []
    ensures b.queue[0] !in b.out
    ensures Balanced(LendFirst(b), total, maxRequest)
  {
    var id := b.queue[0];
    assert Idle(b, id, maxRequest);
    var after := LendFirst(b);
    forall x | x in after.queue ensures Idle(after, x, maxRequest) {
      assert x in b.queue && Idle(b, x, maxRequest) && x != id;
    }
    forall x | x in after.out ensures Lent(after, x, maxRequest) { assert x != id ==> Lent(b, x, maxRequest); }
  }

  lemma QueueInTable(b: Books, total: int, maxRequest: nat)
    requires Balanced(b, total, maxRequest)
    ensures forall id :: id in b.queue ==> id in b.table
  {
    forall id | id in b.queue ensures id in b.table { assert Idle(b, id, maxRequest); }
  }

  /** `b` with `k` connections doomed and the next one, if there is one, handed out. */
  ghost function Popped(b: Books, k: nat): Books
    requires k <= |b.queue|
  {
    if k == |b.queue| then DoomFirst(b, k) else LendFirst(DoomFirst(b, k))
  }

  lemma DoomedApart(b: Books, k: nat, total: int, maxRequest: nat)
    requires Balanced(b, total, maxRequest) && k <= |b.queue|
    ensures Distinct(b.queue[..k]) && AsSet(b.queue[..k]) !! b.doomed
  {
    forall id | id in AsSet(b.queue[..k]) ensures id !in b.doomed { assert Idle(b, id, maxRequest); }
  }

  /** The doomed connections are no others' and all different, the one handed out was not
      out before, and the balance is kept. */
  lemma PopKeeps(b: Books, k: nat, total: int, maxRequest: nat)
    requires Balanced(b, total, maxRequest) && k <= |b.queue|
    ensures Balanced(Popped(b, k), total, maxRequest)
    ensures Distinct(b.queue[..k]) && AsSet(b.queue[..k]) !! b.doomed
    ensures k < |b.queue| ==> b.queue[k] !in b.out
  {
    DoomKeeps(b, k, total, maxRequest);
    DoomedApart(b, k, total, maxRequest);
    if k < |b.queue| { LendKeeps(DoomFirst(b, k), total, maxRequest); }
  }

  lemma PoppedIs(b: Books, k: nat)
    requires k <= |b.queue|
    ensures var c := Popped(b, k);
      && c.queue == Behind(b.queue, k) && c.table == b.table && c.doomed == b.doomed + AsSet(b.queue[..k])
      && c.out == b.out + (if k < |b.queue| then {b.queue[k]} else {})
  {}

  /** Connections that were popped for deletion are counted off. */
  ghost function CountedOff(b: Books, gone: seq<nat>): Books {
    b.(doomed := b.doomed - AsSet(gone), table := b.table - AsSet(gone))
  }

  lemma CountOffKeeps(b: Books, gone: seq<nat>, total: int, maxRequest: nat)
    requires Balanced(b, total, maxRequest) && Distinct(gone) && AsSet(gone) <= b.doomed
    ensures Balanced(CountedOff(b, gone), total - |gone|, maxRequest)
  {
    AsSetSize(gone);
    var after := CountedOff(b, gone);
    forall id | id in after.queue ensures Idle(after, id, maxRequest) { assert Idle(b, id, maxRequest); }
    forall id | id in after.out ensures Lent(after, id, maxRequest) { assert Lent(b, id, maxRequest); }
    assert b.doomed == after.doomed + AsSet(gone);
  }

  /** Popping and then counting off leaves no connection of this thread doomed. */
  lemma ReusedIs(b: Books, k: nat)
    requires k <= |b.queue| && AsSet(b.queue[..k]) !! b.doomed
    ensures AsSet(b.queue[..k]) <= Popped(b, k).doomed
    ensures var c := CountedOff(Popped(b, k), b.queue[..k]);
      && c.queue == Behind(b.queue, k) && c.table == b.table - AsSet(b.queue[..k]) && c.doomed == b.doomed
      && c.out == b.out + (if k < |b.queue| then {b.queue[k]} else {})
  {
    PoppedIs(b, k);
  }

  /** A new connection is counted and handed out. */
  ghost function Created(b: Books, id: nat, now: nat): Books {
    b.(out := b.out + {id}, table := b.table[id := Connection(now, 0)], handed := b.handed[id := 1])
  }

  /** An address that no connection has is in no place. */
  lemma Nowhere(b: Books, id: nat, total: int, maxRequest: nat)
    requires Balanced(b, total, maxRequest) && id !in b.table
    ensures id !in b.queue && id !in b.out && id !in b.doomed
  {
    assert id in b.queue ==> Idle(b, id, maxRequest);
    assert id in b.out ==> Lent(b, id, maxRequest);
  }

  lemma CreatedPlaces(b: Books, id: nat, now: nat, total: int, maxRequest: nat)
    requires Balanced(b, total, maxRequest) && id !in b.queue && id !in b.out && id !in b.doomed
    ensures forall x :: x in b.queue ==> Idle(Created(b, id, now), x, maxRequest)
    ensures forall x :: x in b.out + {id} ==> Lent(Created(b, id, now), x, maxRequest)
  {
    var after := Created(b, id, now);
    forall x | x in b.queue ensures Idle(after, x, maxRequest) { assert Idle(b, x, maxRequest); }
    forall x | x in b.out + {id} ensures Lent(after, x, maxRequest) { assert x != id ==> Lent(b, x, maxRequest); }
  }

  lemma CreateKeeps(b: Books, id: nat, now: nat, total: int, maxRequest: nat)
    requires Balanced(b, total, maxRequest) && id !in b.table
    ensures id !in b.out && Balanced(Created(b, id, now), total + 1, maxRequest)
  {
    Nowhere(b, id, total, maxRequest);
    CreatedPlaces(b, id, now, total, maxRequest);
  }

  /** Taking a connection back for deletion. */
  lemma RetireKeeps(b: Books, id: nat, total: int, maxRequest: nat)
    requires Balanced(b, total, maxRequest) && id in b.out
    ensures Balanced(b.(out := b.out - {id}, doomed := b.doomed + {id}), total, maxRequest)
  {
    assert Lent(b, id, maxRequest);
    var after := b.(out := b.out - {id}, doomed := b.doomed + {id});
    forall x | x in after.queue ensures Idle(after, x, maxRequest) { assert Idle(b, x, maxRequest); }
    forall x | x in after.out ensures Lent(after, x, maxRequest) { assert Lent(b, x, maxRequest); }
  }

  /** Taking a connection back into the queue. */
  lemma ReturnKeeps(b: Books, id: nat, c: Connection, total: int, maxRequest: nat)
    requires Balanced(b, total, maxRequest) && id in b.out && c.requests == b.table[id].requests + 1 < maxRequest
    ensures Balanced(b.(queue := b.queue + [id], out := b.out - {id}, table := b.table[id := c]), total, maxRequest)
  {
    assert Lent(b, id, maxRequest);
    assert id in b.queue ==> Idle(b, id, maxRequest);
    var after := b.(queue := b.queue + [id], out := b.out - {id}, table := b.table[id := c]);
    forall x | x in after.queue ensures Idle(after, x, maxRequest) {
      assert x != id ==> x in b.queue && Idle(b, x, maxRequest);
    }
    forall x | x in after.out ensures Lent(after, x, maxRequest) { assert Lent(b, x, maxRequest); }
  }

  class HttpConnectionPool {
    const maxSize: nat
    const maxAliveTime: nat
    const maxRequest: nat
    var conns: seq<nat>
    var table: map<nat, Connection>
    var total: int
    ghost var out: set<nat>             // the connections that are handed out
    ghost var doomed: set<nat>          // popped for deletion, not yet counted off
    ghost var handed: map<nat, nat>     // how often each has been handed out

    ghost function Abs(): Books
      reads this
    {
      Books(conns, out, doomed, table, handed)
    }

    ghost predicate Valid()
      reads this
    {
      Balanced(Abs(), total, maxRequest)
    }

    constructor (maxSize: nat, maxAliveTime: nat, maxRequest: nat)
      ensures Valid() && Abs() == Books([], {}, {}, map[], map[])
      ensures this.maxSize == maxSize && this.maxAliveTime == maxAliveTime && this.maxRequest == maxRequest
    {
      this.maxSize, this.maxAliveTime, this.maxRequest := maxSize, maxAliveTime, maxRequest;
      conns, table, total, out, doomed, handed := [], map[], 0, {}, {}, map[];
    }

    /** The loop of the locked region: connections are popped until one is usable. */
    method PopLoop(now: nat, connected: set<nat>) returns (found: Option<nat>, invalid: seq<nat>)
      requires forall id :: id in conns ==> id in table
      modifies this`conns
      ensures var k := Unusable(old(conns), table, connected, maxAliveTime, now);
        invalid == old(conns)[..k] && found == At(old(conns), k) && conns == Behind(old(conns), k)
      ensures found.Some? ==>
        found.value in connected && found.value in table && now <= table[found.value].createTime + maxAliveTime
      ensures forall i :: 0 <= i < |invalid| ==>
        invalid[i] in table && (invalid[i] !in connected || now > table[invalid[i]].createTime + maxAliveTime)
      ensures found == None ==> invalid == old(conns)
    {
      UnusableExactly(conns, table, connected, maxAliveTime, now);
      invalid := [];
      found := None;
      while conns != []
        invariant |invalid| <= Unusable(old(conns), table, connected, maxAliveTime, now)
        invariant conns == old(conns)[|invalid|..] && invalid == old(conns)[..|invalid|]
        decreases |conns|
      {
        var conn := conns[0];
        Further(old(conns), table, connected, maxAliveTime, now, |invalid|);
        assert conn == old(conns)[|invalid|] && conn in old(conns);
        conns := conns[1..];
        if conn !in connected {
          invalid := invalid + [conn];
        } else if table[conn].createTime + maxAliveTime < now {
          invalid := invalid + [conn];
        } else {
          found := Some(conn);
          return;
        }
      }
    }

    /** The locked region of `getConnection`: the first connection that is connected and
        young enough is the caller's, the ones before it are doomed, the rest keeps its order. */
    method Pop(now: nat, connected: set<nat>) returns (found: Option<nat>, invalid: seq<nat>)
      requires Valid()
      modifies this`conns, this`out, this`doomed, this`handed
      ensures var k := Unusable(old(conns), table, connected, maxAliveTime, now);
        && invalid == old(conns)[..k] && found == At(old(conns), k) && conns == Behind(old(conns), k)
        && Abs() == Popped(old(Abs()), k)
      ensures Valid() && Distinct(invalid) && AsSet(invalid) !! old(doomed)
      ensures doomed == old(doomed) + AsSet(invalid)
      ensures out == old(out) + (if found.Some? then {found.value} else {})
      ensures found.Some? ==> found.value !in old(out)
      ensures found.Some? ==>
        found.value in connected && found.value in table && now <= table[found.value].createTime + maxAliveTime
      ensures forall i :: 0 <= i < |invalid| ==>
        invalid[i] in table && (invalid[i] !in connected || now > table[invalid[i]].createTime + maxAliveTime)
      ensures found == None ==> invalid == old(conns)
    {
      ghost var b, k := Abs(), Unusable(conns, table, connected, maxAliveTime, now);
      QueueInTable(b, total, maxRequest);
      found, invalid := PopLoop(now, connected);
      Record(b, k);
      PoppedIs(b, k);
      PopKeeps(b, k, total, maxRequest);
    }

    /** What popping did, written into the books. */
    ghost method Record(b: Books, k: nat)
      requires k <= |b.queue| && Abs() == b.(queue := Behind(b.queue, k))
      modifies this`out, this`doomed, this`handed
      ensures Abs() == Popped(b, k)
    {
      var c := Popped(b, k);
      PoppedIs(b, k);
      out, doomed, handed := c.out, c.doomed, c.handed;
    }

    /** `m_total -= n`: doomed connections are counted off. */
    method CountOff(gone: seq<nat>)
      requires Valid() && Distinct(gone) && AsSet(gone) <= doomed
      modifies this`table, this`total, this`doomed
      ensures Valid() && total == old(total) - |gone| && Abs() == CountedOff(old(Abs()), gone)
    {
      CountOffKeeps(Abs(), gone, total, maxRequest);
      table := table - AsSet(gone);
      doomed := doomed - AsSet(gone);
      total := total - |gone|;
    }

    /** A new connection is counted and handed out. */
    method Create(id: nat, now: nat)
      requires Valid() && id !in table
      modifies this`table, this`total, this`out, this`handed
      ensures Valid() && total == old(total) + 1
      ensures out == old(out) + {id} && table == old(table)[id := Connection(now, 0)] && id !in old(out)
    {
      CreateKeeps(Abs(), id, now, total, maxRequest);
      table := table[id := Connection(now, 0)];
      handed := handed[id := 1];
      out := out + {id};
      total := total + 1;
    }

    /** The first two steps of `getConnection`. */
    method Reuse(now: nat, connected: set<nat>) returns (found: Option<nat>)
      requires Valid()
      modifies this
      ensures Valid() && doomed == old(doomed)
      ensures var k := Unusable(old(conns), old(table), connected, maxAliveTime, now);
        found == At(old(conns), k) && conns == Behind(old(conns), k) && table == old(table) - AsSet(old(conns)[..k])
      ensures out == old(out) + (if found.Some? then {found.value} else {})
        && (found.Some? ==> found.value !in old(out))
    {
      ghost var b, k := Abs(), Unusable(conns, table, connected, maxAliveTime, now);
      PopKeeps(b, k, total, maxRequest);
      ReusedIs(b, k);
      var invalid;
      found, invalid := Pop(now, connected);
      CountOff(invalid);
      assert Abs() == CountedOff(Popped(b, k), b.queue[..k]);
    }

    /** `getConnection`, its steps one after the other. */
    method GetConnection(now: nat, connected: set<nat>, address: nat, connects: bool) returns (r: Option<nat>)
      requires Valid() && address !in table
      modifies this
      ensures Valid() && doomed == old(doomed)
      ensures var k := Unusable(old(conns), old(table), connected, maxAliveTime, now);
        && conns == Behind(old(conns), k)
        && r == (if k < |old(conns)| then Some(old(conns)[k]) else if connects then Some(address) else None)
        && table == Kept(old(conns), k, old(table), address, connects, now)
      ensures out == old(out) + (if r.Some? then {r.value} else {}) && (r.Some? ==> r.value !in old(out))
    {
      r := Reuse(now, connected);
      if r.None? && connects {
        Create(address, now);
        r := Some(address);
      }
    }

    /** A connection that came back is doomed. */
    method Retire(id: nat)
      requires Valid() && id in out
      modifies this`out, this`doomed
      ensures Valid() && out == old(out) - {id} && doomed == old(doomed) + {id} && id !in old(doomed)
    {
      ghost var b := Abs();
      assert Lent(b, id, maxRequest);
      RetireKeeps(b, id, total, maxRequest);
      out := out - {id};
      doomed := doomed + {id};
    }

    /** A connection that came back goes to the end of the queue. */
    method Return(id: nat, c: Connection)
      requires Valid() && id in out && id in table && c.requests == table[id].requests + 1 < maxRequest
      modifies this`conns, this`table, this`out
      ensures Valid() && out == old(out) - {id} && conns == old(conns) + [id] && table == old(table)[id := c]
    {
      ReturnKeeps(Abs(), id, c, total, maxRequest);
      table := table[id := c];
      conns := conns + [id];
      out := out - {id};
    }

    /** `ReleasePtr`: a connection that is closed, too old or used up is deleted, any other
        goes to the end of the queue. */
    method Release(id: nat, now: nat, connected: bool)
      requires Valid() && id in out
      modifies this
      ensures Valid() && out == old(out) - {id} && doomed == old(doomed) && id in old(table)
      ensures var c := old(table)[id].(requests := old(table)[id].requests + 1);
        if connected && c.createTime + maxAliveTime > now && c.requests < maxRequest
        then conns == old(conns) + [id] && table == old(table)[id := c] && total == old(total)
        else conns == old(conns) && table == old(table) - {id} && total == old(total) - 1
    {
      ghost var b := Abs();
      assert Lent(b, id, maxRequest);
      var c := table[id].(requests := table[id].requests + 1);
      if !connected || c.createTime + maxAliveTime <= now || c.requests >= maxRequest {
        Retire(id);
        assert AsSet([id]) == {id};
        CountOff([id]);
      } else {
        Return(id, c);
      }
    }
  }

  /** `m_maxSize` limits nothing: any number of connections can be out at once. */
  method Flood(maxSize: nat, maxAliveTime: nat, maxRequest: nat, n: nat) returns (pool: HttpConnectionPool)
    ensures pool.Valid() && pool.maxSize == maxSize && pool.total == |pool.out| == n
  {
    pool := new HttpConnectionPool(maxSize, maxAliveTime, maxRequest);
    var i := 0;
    while i < n
      invariant i <= n && fresh(pool) && pool.Valid() && |pool.out| == i && pool.conns == [] && pool.doomed == {}
      invariant pool.maxSize == maxSize && forall id :: id in pool.table ==> id < i
    {
      var r := pool.GetConnection(0, {}, i, true);
      i := i + 1;
    }
  }
}
