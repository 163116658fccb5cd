/** `TimerManager`: a `std::set` of timer pointers ordered by deadline, then address.
    The deadlines are read through the pointers, so the set is in order only as long as
    no key changes while its timer is inside. */
module Timers {
  import opened Base

  /** `Timer`; a timer without a callback has been cancelled, has expired or was added with
      an empty `std::function`. */
  datatype Timer = Timer(recurring: bool, ms: nat, next: nat, cb: Option<nat>)

  /** All timers by address, the addresses in the set in its order, `m_tickled` and
      `m_previousTime`. */
  datatype State = State(table: map<nat, Timer>, order: seq<nat>, tickled: bool, previous: nat)

  /** Sums and differences of `uint64_t`. */
  function Plus(a: nat, b: nat): nat {
    (a + b) % TWO64
  }

  function Minus(a: nat, b: nat): nat {
    (a - b) % TWO64
  }

  /** They wrap around once. */
  lemma Wraps(a: nat, b: nat)
    requires a < TWO64 && b < TWO64
    ensures Plus(a, b) == if a + b < 0x1_0000_0000_0000_0000 then a + b else a + b - 0x1_0000_0000_0000_0000
    ensures Minus(a, b) == if a >= b then a - b else a - b + 0x1_0000_0000_0000_0000
    ensures Plus(Minus(a, b), b) == a
  {
    if a < b { assert a - b == -1 * TWO64 + (a - b + TWO64); }
  }

  // --- the ordered set ---

  /** `Comparator`, on deadlines and addresses. */
  predicate Less(next: nat, a: nat, next': nat, a': nat) {
    next < next' || (next == next' && a < a')
  }

  predicate Before(table: map<nat, Timer>, a: nat, b: nat) {
    a in table && b in table && Less(table[a].next, a, table[b].next, b)
  }

  ghost predicate Sorted(order: seq<nat>, table: map<nat, Timer>) {
    && (forall i :: 0 <= i < |order| ==> order[i] in table)
    && (forall i, j :: 0 <= i < j < |order| ==> Before(table, order[i], order[j]))
  }

  /** `lower_bound`: how many leading timers are before the key. */
  function LowerBound(order: seq<nat>, table: map<nat, Timer>, next: nat, a: nat): (k: nat)
    ensures k <= |order|
  {
    if order == [] || order[0] !in table || !Less(table[order[0]].next, order[0], next, a) then 0
    else 1 + LowerBound(order[1..], table, next, a)
  }

  lemma SortedTail(order: seq<nat>, table: map<nat, Timer>)
    requires Sorted(order, table) && order != []
    ensures Sorted(order[1..], table)
  {
    forall i, j | 0 <= i < j < |order[1..]| ensures Before(table, order[1..][i], order[1..][j]) {
      assert Before(table, order[i + 1], order[j + 1]);
    }
  }

  /** The timers before position `k` are before the key, the one at `k` is not. */
  lemma {:induction false} LowerBoundSplits(order: seq<nat>, table: map<nat, Timer>, next: nat, a: nat)
    requires Sorted(order, table)
    ensures var k := LowerBound(order, table, next, a);
      && (forall i :: 0 <= i < k ==> Less(table[order[i]].next, order[i], next, a))
      && (forall i :: k <= i < |order| ==> !Less(table[order[i]].next, order[i], next, a))
  {
    if order != [] {
      SortedTail(order, table);
      LowerBoundSplits(order[1..], table, next, a);
      assert forall i :: 0 < i < |order| ==> order[i] == order[1..][i - 1] && Before(table, order[0], order[i]);
    }
  }

  /** `insert`. */
  function Insert(order: seq<nat>, table: map<nat, Timer>, a: nat): seq<nat>
    requires a in table
  {
    var k := LowerBound(order, table, table[a].next, a);
    order[..k] + [a] + order[k..]
  }

  /** `erase(find(a))`. */
  function Erase(order: seq<nat>, table: map<nat, Timer>, a: nat): seq<nat>
    requires a in table
  {
    var k := LowerBound(order, table, table[a].next, a);
    if k < |order| && order[k] == a then order[..k] + order[k + 1..] else order
  }

  lemma InsertAt(order: seq<nat>, table: map<nat, Timer>, a: nat, k: nat)
    requires Sorted(order, table) && a in table && k <= |order|
    requires forall i :: 0 <= i < k ==> Before(table, order[i], a)
    requires forall i :: k <= i < |order| ==> Before(table, a, order[i])
    ensures Sorted(order[..k] + [a] + order[k..], table)
  {
    var r := order[..k] + [a] + order[k..];
    assert forall i :: 0 <= i < |r| ==> r[i] == if i < k then order[i] else if i == k then a else order[i - 1];
    forall i, j | 0 <= i < j < |r| ensures Before(table, r[i], r[j]) {
      if i != k && j != k {
        assert Before(table, order[if i < k then i else i - 1], order[if j < k then j else j - 1]);
      }
    }
  }

  lemma Members(order: seq<nat>, a: nat, k: nat)
    requires k <= |order|
    ensures forall x :: x in order[..k] + [a] + order[k..] <==> x in order || x == a
  {
    assert order == order[..k] + order[k..];
  }

  lemma InsertSorted(order: seq<nat>, table: map<nat, Timer>, a: nat)
    requires Sorted(order, table) && a in table && a !in order
    ensures Sorted(Insert(order, table, a), table)
    ensures forall x :: x in Insert(order, table, a) <==> x in order || x == a
  {
    LowerBoundSplits(order, table, table[a].next, a);
    var k := LowerBound(order, table, table[a].next, a);
    assert forall i :: 0 <= i < |order| ==> order[i] != a;
    InsertAt(order, table, a, k);
    Members(order, a, k);
  }

  /** `find` finds a timer that is in the set. */
  lemma FindsItself(order: seq<nat>, table: map<nat, Timer>, i: nat)
    requires Sorted(order, table) && i < |order|
    ensures LowerBound(order, table, table[order[i]].next, order[i]) == i
  {
    var k := LowerBound(order, table, table[order[i]].next, order[i]);
    LowerBoundSplits(order, table, table[order[i]].next, order[i]);
    assert k <= i;
    var other := order[k];
    assert k < i ==> Before(table, other, order[i]);
  }

  lemma EraseAt(order: seq<nat>, table: map<nat, Timer>, i: nat)
    requires Sorted(order, table) && i < |order|
    ensures Sorted(order[..i] + order[i + 1..], table)
  {
    var r := order[..i] + order[i + 1..];
    forall j | 0 <= j < |r| ensures r[j] == order[if j < i then j else j + 1] {}
    forall j, k | 0 <= j < k < |r| ensures Before(table, r[j], r[k]) {
      assert Before(table, order[if j < i then j else j + 1], order[if k < i then k else k + 1]);
    }
  }

  lemma ErasedMembers(order: seq<nat>, table: map<nat, Timer>, i: nat)
    requires Sorted(order, table) && i < |order|
    ensures forall x :: x in order[..i] + order[i + 1..] <==> x in order && x != order[i]
  {
    var r := order[..i] + order[i + 1..];
    forall x | x in r ensures x in order && x != order[i] {
      var j :| 0 <= j < |r| && r[j] == x;
      assert r[j] == order[if j < i then j else j + 1];
      assert if j < i then Before(table, x, order[i]) else Before(table, order[i], x);
    }
    forall x | x in order && x != order[i] ensures x in r {
      var j :| 0 <= j < |order| && order[j] == x;
      assert r[if j < i then j else j - 1] == x;
    }
  }

  lemma EraseSorted(order: seq<nat>, table: map<nat, Timer>, a: nat)
    requires Sorted(order, table) && a in order
    ensures Sorted(Erase(order, table, a), table)
    ensures forall x :: x in Erase(order, table, a) <==> x in order && x != a
  {
    var i :| 0 <= i < |order| && order[i] == a;
    FindsItself(order, table, i);
    EraseAt(order, table, i);
    ErasedMembers(order, table, i);
  }

  /** Changing a timer outside the set keeps the set in order. */
  lemma SortedFrame(order: seq<nat>, table: map<nat, Timer>, a: nat, t: Timer)
    requires Sorted(order, table) && a !in order
    ensures Sorted(order, table[a := t])
  {
    assert forall i :: 0 <= i < |order| ==> order[i] != a;
    assert forall i, j :: 0 <= i < j < |order| ==> Before(table, order[i], order[j]);
  }

  predicate Armed(table: map<nat, Timer>, a: nat) {
    a in table && table[a].cb.Some?
  }

  /** The set is in order and holds every timer that has a callback. */
  ghost predicate Valid(s: State) {
    && Sorted(s.order, s.table)
    && (forall a :: Armed(s.table, a) ==> a in s.order)
  }

  // --- the operations on values ---

  /** `addTimer` of a timer that is not in the set, and whether it notifies. */
  function EnterOp(s: State, a: nat, t: Timer): (State, bool) {
    var table := s.table[a := t];
    var order := Insert(s.order, table, a);
    var atFront := order[0] == a && !s.tickled;
    (State(table, order, s.tickled || atFront, s.previous), atFront)
  }

  function AddOp(s: State, a: nat, ms: nat, cb: Option<nat>, recurring: bool, now: nat): (State, bool) {
    EnterOp(s, a, Timer(recurring, ms, Plus(now, ms), cb))
  }

  /** `cancel`. */
  function CancelOp(s: State, a: nat): (State, bool)
    requires a in s.table
  {
    if s.table[a].cb.None? then (s, false)
    else (s.(table := s.table[a := s.table[a].(cb := None)], order := Erase(s.order, s.table, a)), true)
  }

  /** `refresh`: no notification. */
  function RefreshOp(s: State, a: nat, now: nat): (State, bool)
    requires a in s.table
  {
    if s.table[a].cb.None? then (s, false)
    else
      var table := s.table[a := s.table[a].(next := Plus(now, s.table[a].ms))];
      (s.(table := table, order := Insert(Erase(s.order, s.table, a), table, a)), true)
  }

  /** `reset`: the result and whether it notifies. */
  function ResetOp(s: State, a: nat, ms: nat, fromNow: bool, now: nat): (State, bool, bool)
    requires a in s.table
  {
    var t := s.table[a];
    if ms == t.ms && !fromNow then (s, true, false)
    else if t.cb.None? then (s, false, false)
    else
      var start := if fromNow then now else Minus(t.next, t.ms);
      var r := EnterOp(s.(order := Erase(s.order, s.table, a)), a, t.(ms := ms, next := Plus(start, ms)));
      (r.0, true, r.1)
  }

  const NEVER: nat := TWO64 - 1

  /** `getNextTimer`. */
  function NextOp(s: State, now: nat): (State, nat) {
    (s.(tickled := false),
     if s.order == [] || s.order[0] !in s.table then NEVER
     else if now >= s.table[s.order[0]].next then 0
     else s.table[s.order[0]].next - now)
  }

  /** What the answer of `getNextTimer` means. The largest value says that the set is empty.
      Otherwise 0 says that some timer is due, and any other answer that none is and that the
      least deadline is so far away. */
  ghost predicate Tells(s: State, now: nat, timeout: nat)
    requires Sorted(s.order, s.table)
  {
    && (s.order == [] ==> timeout == NEVER)
    && (timeout == 0 <==> exists a :: a in s.order && s.table[a].next <= now)
    && (s.order != [] && timeout > 0 ==>
          && (exists a :: a in s.order && s.table[a].next == now + timeout)
          && (forall a :: a in s.order ==> s.table[a].next >= now + timeout))
  }

  /** No timer in the set is due before the first one. */
  lemma FrontIsFirst(s: State, a: nat)
    requires Valid(s) && a in s.order
    ensures s.order != [] && s.order[0] in s.table && s.table[a].next >= s.table[s.order[0]].next
  {
    var i :| 0 <= i < |s.order| && s.order[i] == a;
    if i > 0 { assert Before(s.table, s.order[0], s.order[i]); }
  }

  lemma NextTells(s: State, now: nat)
    requires Valid(s)
    ensures Tells(s, now, NextOp(s, now).1)
  {
    forall a | a in s.order ensures s.table[a].next >= s.table[s.order[0]].next {
      FrontIsFirst(s, a);
    }
    if s.order != [] { assert s.order[0] in s.order; }
  }

  /** The largest value says nothing else, but for a set whose least deadline is the largest
      value and a clock that stands at 0. */
  lemma NeverMeansEmpty(s: State, now: nat)
    requires Valid(s) && forall a :: a in s.table ==> s.table[a].next < TWO64
    ensures NextOp(s, now).1 == NEVER <==>
      s.order == [] || (now == 0 && forall a :: a in s.order ==> s.table[a].next == NEVER)
  {
    forall a | a in s.order ensures s.table[a].next >= s.table[s.order[0]].next {
      FrontIsFirst(s, a);
    }
  }

  const HOUR: nat := 3600000

  /** `detectClockRollover`. */
  predicate Rollover(previous: nat, now: nat) {
    now < previous && now < Minus(previous, HOUR)
  }

  /** The set's iterator behind the expired timers; `temp` is the address of the timer
      that is looked up. */
  function Due(order: seq<nat>, table: map<nat, Timer>, now: nat): (k: nat)
    ensures k <= |order|
  {
    if order == [] || order[0] !in table || table[order[0]].next > now then 0
    else 1 + Due(order[1..], table, now)
  }

  /** The last loop of `listExpiredCb`. */
  function Settle(table: map<nat, Timer>, order: seq<nat>, expired: seq<nat>, now: nat): (map<nat, Timer>, seq<nat>)
    requires forall i :: 0 <= i < |expired| ==> expired[i] in table
    decreases |expired|
  {
    if expired == [] then (table, order)
    else
      var a := expired[0];
      var t := table[a];
      if t.recurring then
        var more := table[a := t.(next := Plus(now, t.ms))];
        Settle(more, Insert(order, more, a), expired[1..], now)
      else
        Settle(table[a := t.(cb := None)], order, expired[1..], now)
  }

  /** `listExpiredCb`: the timers that expire, in order. */
  function Expired(s: State, now: nat): seq<nat> {
    if s.order == [] then []
    else if Rollover(s.previous, now) then s.order
    else s.order[..Due(s.order, s.table, now)]
  }

  function ExpireOp(s: State, now: nat): State
    requires forall i :: 0 <= i < |s.order| ==> s.order[i] in s.table
  {
    if s.order == [] then s
    else
      var expired := Expired(s, now);
      var r := Settle(s.table, s.order[|expired|..], expired, now);
      State(r.0, r.1, s.tickled, now)
  }

  function Callbacks(table: map<nat, Timer>, expired: seq<nat>): seq<Option<nat>>
    requires AllIn(table, expired)
  {
    seq(|expired|, i requires 0 <= i < |expired| && AllIn(table, expired) => table[expired[i]].cb)
  }

  ghost predicate AllIn(table: map<nat, Timer>, order: seq<nat>) {
    forall i :: 0 <= i < |order| ==> order[i] in table
  }

  // --- what every operation keeps ---

  /** `cancel` and its like never look for a timer that is not in the set. */
  lemma ArmedIsFound(s: State, a: nat)
    requires Valid(s) && Armed(s.table, a)
    ensures var k := LowerBound(s.order, s.table, s.table[a].next, a); k < |s.order| && s.order[k] == a
  {
    var i :| 0 <= i < |s.order| && s.order[i] == a;
    FindsItself(s.order, s.table, i);
  }

  /** A timer that is in the table and not in the set goes in with new settings. */
  lemma PutIn(order: seq<nat>, table: map<nat, Timer>, a: nat, t: Timer)
    requires Sorted(order, table) && a !in order
    ensures Sorted(Insert(order, table[a := t], a), table[a := t])
    ensures forall x :: x in Insert(order, table[a := t], a) <==> x in order || x == a
  {
    SortedFrame(order, table, a, t);
    InsertSorted(order, table[a := t], a);
  }

  /** A timer with a callback leaves the set. */
  lemma TakeOut(s: State, a: nat)
    requires Valid(s) && Armed(s.table, a)
    ensures Sorted(Erase(s.order, s.table, a), s.table) && a !in Erase(s.order, s.table, a)
    ensures forall x :: x in Erase(s.order, s.table, a) <==> x in s.order && x != a
  {
    EraseSorted(s.order, s.table, a);
  }

  lemma EnterValid(s: State, a: nat, t: Timer)
    requires Sorted(s.order, s.table) && a !in s.order
    requires forall x :: x != a && Armed(s.table, x) ==> x in s.order
    ensures Valid(EnterOp(s, a, t).0)
    ensures forall x :: x in EnterOp(s, a, t).0.order <==> x in s.order || x == a
  {
    PutIn(s.order, s.table, a, t);
    forall x | Armed(s.table[a := t], x) ensures x in EnterOp(s, a, t).0.order {
      assert x != a ==> Armed(s.table, x);
    }
  }

  /** A timer with the address `a` and this deadline comes before all others of the set. */
  ghost predicate Foremost(s: State, a: nat, next: nat) {
    forall x :: x in s.order && x != a ==>
      x in s.table && (next < s.table[x].next || (next == s.table[x].next && a < x))
  }

  lemma FrontIs(s: State, a: nat, t: Timer, order: seq<nat>)
    requires a !in s.order && Sorted(order, s.table[a := t])
    requires forall x :: x in order <==> x in s.order || x == a
    ensures a in order && (order[0] == a <==> Foremost(s, a, t.next))
  {
    var table := s.table[a := t];
    assert a in order && order[0] in order;
    forall x | x in s.order ensures Less(table[order[0]].next, order[0], table[x].next, x) || order[0] == x {
      var i :| 0 <= i < |order| && order[i] == x;
      assert i > 0 ==> Before(table, order[0], order[i]);
    }
    var k :| 0 <= k < |order| && order[k] == a;
    assert k > 0 ==> Before(table, order[0], order[k]);
  }

  /** A timer that goes in is first exactly when its deadline is before all the others, or the
      same and its address is lower. */
  lemma EnterFront(s: State, a: nat, t: Timer, r: State, notify: bool)
    requires Sorted(s.order, s.table) && a !in s.order && (r, notify) == EnterOp(s, a, t)
    ensures notify <==> !s.tickled && Foremost(s, a, t.next)
    ensures (r.tickled <==> s.tickled || notify) && r.table == s.table[a := t] && r.previous == s.previous
  {
    PutIn(s.order, s.table, a, t);
    FrontIs(s, a, t, r.order);
  }

  lemma AddValid(s: State, a: nat, ms: nat, cb: Option<nat>, recurring: bool, now: nat)
    requires Valid(s) && a !in s.table
    ensures Valid(AddOp(s, a, ms, cb, recurring, now).0)
  {
    EnterValid(s, a, Timer(recurring, ms, Plus(now, ms), cb));
  }

  lemma CancelValid(s: State, a: nat)
    requires Valid(s) && a in s.table
    ensures Valid(CancelOp(s, a).0)
  {
    if s.table[a].cb.Some? {
      TakeOut(s, a);
      SortedFrame(Erase(s.order, s.table, a), s.table, a, s.table[a].(cb := None));
    }
  }

  lemma RefreshValid(s: State, a: nat, now: nat)
    requires Valid(s) && a in s.table
    ensures Valid(RefreshOp(s, a, now).0)
  {
    if s.table[a].cb.Some? {
      TakeOut(s, a);
      var t := s.table[a].(next := Plus(now, s.table[a].ms));
      PutIn(Erase(s.order, s.table, a), s.table, a, t);
      forall x | Armed(s.table[a := t], x) ensures x in RefreshOp(s, a, now).0.order {
        assert x != a ==> Armed(s.table, x);
      }
    }
  }

  lemma ResetValid(s: State, a: nat, ms: nat, fromNow: bool, now: nat)
    requires Valid(s) && a in s.table
    ensures Valid(ResetOp(s, a, ms, fromNow, now).0)
  {
    var t := s.table[a];
    if !(ms == t.ms && !fromNow) && t.cb.Some? {
      TakeOut(s, a);
      var start := if fromNow then now else Minus(t.next, t.ms);
      EnterValid(s.(order := Erase(s.order, s.table, a)), a, t.(ms := ms, next := Plus(start, ms)));
    }
  }

  /** Neither changes what is in the set. */
  lemma RefreshMembers(s: State, a: nat, now: nat)
    requires Valid(s) && a in s.table
    ensures forall x :: x in RefreshOp(s, a, now).0.order <==> x in s.order
  {
    if s.table[a].cb.Some? {
      TakeOut(s, a);
      PutIn(Erase(s.order, s.table, a), s.table, a, s.table[a].(next := Plus(now, s.table[a].ms)));
    }
  }

  lemma ResetMembers(s: State, a: nat, ms: nat, fromNow: bool, now: nat)
    requires Valid(s) && a in s.table
    ensures forall x :: x in ResetOp(s, a, ms, fromNow, now).0.order <==> x in s.order
  {
    var t := s.table[a];
    if !(ms == t.ms && !fromNow) && t.cb.Some? {
      TakeOut(s, a);
      var start := if fromNow then now else Minus(t.next, t.ms);
      EnterValid(s.(order := Erase(s.order, s.table, a)), a, t.(ms := ms, next := Plus(start, ms)));
    }
  }

  /** Taken out and put in again as `t`. */
  lemma Reentered(s: State, a: nat, t: Timer, r: State, notify: bool)
    requires Valid(s) && Armed(s.table, a) && (r, notify) == EnterOp(s.(order := Erase(s.order, s.table, a)), a, t)
    ensures r.table == s.table[a := t] && r.previous == s.previous && (r.tickled <==> s.tickled || notify)
    ensures notify <==> !s.tickled && Foremost(s, a, t.next)
  {
    TakeOut(s, a);
    var out := s.(order := Erase(s.order, s.table, a));
    EnterFront(out, a, t, r, notify);
    assert Foremost(out, a, t.next) <==> Foremost(s, a, t.next);
  }

  /** What `reset` does to a timer with a callback, when it is not asked for the period that
      the timer has already: it goes in again as `t`. */
  lemma ResetEnters(s: State, a: nat, ms: nat, fromNow: bool, now: nat, t: Timer, r: State, ok: bool, notify: bool)
    requires Valid(s) && Armed(s.table, a) && !(ms == s.table[a].ms && !fromNow)
    requires var was := s.table[a];
      t == was.(ms := ms, next := Plus(if fromNow then now else Minus(was.next, was.ms), ms))
    requires (r, ok, notify) == ResetOp(s, a, ms, fromNow, now)
    ensures ok && r.previous == s.previous && (r.tickled <==> s.tickled || notify) && r.table == s.table[a := t]
    ensures notify <==> !s.tickled && Foremost(s, a, t.next)
  {
    Reentered(s, a, t, r, notify);
  }

  lemma ResetDoes(s: State, a: nat, ms: nat, fromNow: bool, now: nat, r: State, ok: bool, notify: bool)
    requires Valid(s) && a in s.table && !(ms == s.table[a].ms && !fromNow)
    requires (r, ok, notify) == ResetOp(s, a, ms, fromNow, now)
    ensures Valid(r) && forall x :: x in r.order <==> x in s.order
    ensures (ok <==> s.table[a].cb.Some?) && (!ok ==> r == s && !notify)
    ensures r.previous == s.previous && (r.tickled <==> s.tickled || notify)
    ensures ok ==> r.table == s.table[a := s.table[a].(ms := ms,
      next := Plus(if fromNow then now else Minus(s.table[a].next, s.table[a].ms), ms))]
    ensures ok ==> (notify <==> !s.tickled && Foremost(s, a, r.table[a].next))
  {
    ResetValid(s, a, ms, fromNow, now);
    ResetMembers(s, a, ms, fromNow, now);
    if s.table[a].cb.Some? {
      var was := s.table[a];
      var t := was.(ms := ms, next := Plus(if fromNow then now else Minus(was.next, was.ms), ms));
      ResetEnters(s, a, ms, fromNow, now, t, r, ok, notify);
    }
  }

  // --- listExpiredCb ---

  /** Whatever address the looked-up timer has, the scan stops behind the last timer that
      is due. */
  lemma {:induction false} DueSplits(order: seq<nat>, table: map<nat, Timer>, now: nat)
    requires Sorted(order, table)
    ensures var k := Due(order, table, now);
      && (forall i :: 0 <= i < k ==> table[order[i]].next <= now)
      && (forall i :: k <= i < |order| ==> table[order[i]].next > now)
  {
    if order != [] {
      SortedTail(order, table);
      DueSplits(order[1..], table, now);
      assert forall i :: 0 < i < |order| ==> order[i] == order[1..][i - 1] && Before(table, order[0], order[i]);
    }
  }

  lemma DueIs(order: seq<nat>, table: map<nat, Timer>, now: nat, it: nat)
    requires Sorted(order, table) && it <= |order|
    requires forall i :: 0 <= i < it ==> table[order[i]].next <= now
    requires it < |order| ==> table[order[it]].next > now
    ensures Due(order, table, now) == it
  {
    DueSplits(order, table, now);
    var k := Due(order, table, now);
    var other := if k < |order| then order[k] else 0;
    assert k < it ==> other in table;
  }

  /** What one expired timer turns into. */
  function After(t: Timer, now: nat): Timer {
    if t.recurring then t.(next := Plus(now, t.ms)) else t.(cb := None)
  }

  ghost predicate Apart(expired: seq<nat>, order: seq<nat>) {
    && (forall i, j :: 0 <= i < j < |expired| ==> expired[i] != expired[j])
    && (forall i :: 0 <= i < |expired| ==> expired[i] !in order)
  }

  /** What one round of the last loop does to the table and the set. */
  function SettleOne(table: map<nat, Timer>, order: seq<nat>, a: nat, now: nat): (map<nat, Timer>, seq<nat>)
    requires a in table
  {
    var more := table[a := After(table[a], now)];
    (more, if table[a].recurring then Insert(order, more, a) else order)
  }

  lemma SettleRound(table: map<nat, Timer>, order: seq<nat>, expired: seq<nat>, now: nat)
    requires expired != [] && AllIn(table, expired) && Apart(expired, order) && Sorted(order, table)
    ensures var r := SettleOne(table, order, expired[0], now);
      && Sorted(r.1, r.0) && AllIn(r.0, expired[1..]) && Apart(expired[1..], r.1)
      && (forall x :: x in r.1 <==> x in order || (x == expired[0] && table[x].recurring))
      && Settle(table, order, expired, now) == Settle(r.0, r.1, expired[1..], now)
      && (forall x :: x in expired[1..] ==> r.0[x] == table[x])
  {
    var a := expired[0];
    var t := After(table[a], now);
    SortedFrame(order, table, a, t);
    if table[a].recurring { InsertSorted(order, table[a := t], a); }
    assert forall i :: 0 <= i < |expired[1..]| ==> expired[1..][i] == expired[i + 1] && expired[i + 1] != expired[0];
  }

  /** The expired timers, and only they, are changed; those that recur are back in the
      set; the set stays in order. */
  lemma {:induction false} SettleDoes(table: map<nat, Timer>, order: seq<nat>, expired: seq<nat>, now: nat)
    requires AllIn(table, expired) && Apart(expired, order) && Sorted(order, table)
    ensures var r := Settle(table, order, expired, now);
      && Sorted(r.1, r.0) && r.0.Keys == table.Keys
      && (forall x :: x in table ==> r.0[x] == if x in expired then After(table[x], now) else table[x])
      && (forall x :: x in r.1 <==> x in order || (x in expired && table[x].recurring))
    decreases |expired|
  {
    if expired != [] {
      SettleRound(table, order, expired, now);
      var r := SettleOne(table, order, expired[0], now);
      SettleDoes(r.0, r.1, expired[1..], now);
      assert forall x :: x in expired <==> x == expired[0] || x in expired[1..];
    }
  }

  lemma ExpiredPrefix(s: State, now: nat)
    ensures Expired(s, now) == s.order[..|Expired(s, now)|] && |Expired(s, now)| <= |s.order|
  {}

  lemma Halves(order: seq<nat>, table: map<nat, Timer>, k: nat)
    requires Sorted(order, table) && k <= |order|
    ensures Apart(order[..k], order[k..]) && Sorted(order[k..], table)
    ensures forall x :: x in order <==> x in order[..k] || x in order[k..]
  {
    assert forall i, j :: 0 <= i < j < |order| ==> Before(table, order[i], order[j]);
    forall i, j | 0 <= i < j < |order[k..]| ensures Before(table, order[k..][i], order[k..][j]) {
      assert Before(table, order[k + i], order[k + j]);
    }
    assert order == order[..k] + order[k..];
  }

  lemma ExpireReady(s: State, now: nat)
    requires Valid(s)
    ensures var expired := Expired(s, now);
      AllIn(s.table, expired) && Apart(expired, s.order[|expired|..]) && Sorted(s.order[|expired|..], s.table)
    ensures forall x :: x in s.order <==> x in Expired(s, now) || x in s.order[|Expired(s, now)|..]
  {
    ExpiredPrefix(s, now);
    Halves(s.order, s.table, |Expired(s, now)|);
  }

  /** What `listExpiredCb` does to the state: exactly the expired timers change; the others
      stay where they are. */
  lemma ExpireDoes(s: State, now: nat)
    requires Valid(s)
    ensures var r := ExpireOp(s, now); var expired := Expired(s, now);
      && Valid(r) && r.table.Keys == s.table.Keys
      && (forall x :: x in s.table && x !in expired ==> r.table[x] == s.table[x])
      && (forall x :: x in s.table && x in expired && s.table[x].recurring ==>
            r.table[x] == s.table[x].(next := (now + s.table[x].ms) % TWO64))
      && (forall x :: x in s.table && x in expired && !s.table[x].recurring ==>
            r.table[x] == s.table[x].(cb := None))
      && (forall x :: x in r.order <==> x in s.order && (x in expired ==> s.table[x].recurring))
  {
    var expired := Expired(s, now);
    if s.order != [] {
      ExpireReady(s, now);
      SettleDoes(s.table, s.order[|expired|..], expired, now);
      var r := ExpireOp(s, now);
      forall x | Armed(r.table, x) ensures x in r.order {
        assert Armed(s.table, x) && x in s.order;
      }
    }
  }

  lemma ExpiredSorted(s: State, now: nat)
    requires Valid(s)
    ensures Sorted(Expired(s, now), s.table)
  {
    ExpiredPrefix(s, now);
    var k := |Expired(s, now)|;
    forall i, j | 0 <= i < j < k ensures Before(s.table, s.order[..k][i], s.order[..k][j]) {
      assert Before(s.table, s.order[i], s.order[j]);
    }
  }

  lemma DueExpires(s: State, now: nat, a: nat)
    requires Valid(s) && a in s.order && (Rollover(s.previous, now) || s.table[a].next <= now)
    ensures a in Expired(s, now)
  {
    DueSplits(s.order, s.table, now);
    var i :| 0 <= i < |s.order| && s.order[i] == a;
    ExpiredPrefix(s, now);
    assert s.order[..|Expired(s, now)|][i] == a;
  }

  lemma ExpiresDue(s: State, now: nat, a: nat)
    requires Valid(s) && a in Expired(s, now)
    ensures a in s.order && (Rollover(s.previous, now) || s.table[a].next <= now)
  {
    DueSplits(s.order, s.table, now);
    ExpiredPrefix(s, now);
    var i :| 0 <= i < |Expired(s, now)| && Expired(s, now)[i] == a;
    assert s.order[i] == a;
  }

  /** When the first timer is not due, only the time of the call is noted. */
  lemma NothingDue(s: State, now: nat)
    requires Valid(s) && s.order != [] && !Rollover(s.previous, now) && s.table[s.order[0]].next > now
    ensures Expired(s, now) == [] && ExpireOp(s, now) == s.(previous := now)
  {
    assert s.order[0..] == s.order;
  }

  /** Without a rollover the timers that are due expire, all of them and no others, in the
      order of their deadlines; on a rollover all do. */
  lemma ExpiredExactly(s: State, now: nat)
    requires Valid(s)
    ensures forall a :: a in Expired(s, now) <==>
      a in s.order && (Rollover(s.previous, now) || s.table[a].next <= now)
    ensures Sorted(Expired(s, now), s.table)
  {
    ExpiredSorted(s, now);
    forall a ensures a in Expired(s, now) <==>
      a in s.order && (Rollover(s.previous, now) || s.table[a].next <= now) {
      if a in Expired(s, now) {
        ExpiresDue(s, now, a);
      } else if a in s.order && (Rollover(s.previous, now) || s.table[a].next <= now) {
        DueExpires(s, now, a);
      }
    }
  }

  /** Afterwards nothing is due but recurring timers whose next deadline is not later than
      now: those of period 0, as long as the sum does not wrap. */
  lemma NothingDueRemains(s: State, now: nat, a: nat)
    requires Valid(s) && now < TWO64 && a in ExpireOp(s, now).order
    requires a in ExpireOp(s, now).table && ExpireOp(s, now).table[a].next <= now
    ensures a in Expired(s, now) && s.table[a].recurring
    ensures now + s.table[a].ms < TWO64 ==> s.table[a].ms == 0
  {
    ExpireDoes(s, now);
    ExpiredExactly(s, now);
    if now + s.table[a].ms < TWO64 { Unwrapped(now, s.table[a].ms); }
  }

  lemma Unwrapped(a: nat, b: nat)
    requires a + b < TWO64
    ensures Plus(a, b) == a + b
  {}

  /** The clock counts as rolled back exactly when it is more than an hour behind, or, in
      the first hour of the count, behind at all. */
  lemma RolloverExactly(previous: nat, now: nat)
    requires previous < TWO64
    ensures Rollover(previous, now) <==> now < previous && (previous < 3600000 || now < previous - 3600000)
  {
    if previous < HOUR { assert Minus(previous, HOUR) == previous + TWO64 - HOUR; }
    else { assert Minus(previous, HOUR) == previous - HOUR; }
  }

  // --- the manager ---

  class TimerManager {
    var table: map<nat, Timer>
    var order: seq<nat>
    var tickled: bool
    var previousTime: nat

    function Abs(): State
      reads this
    {
      State(table, order, tickled, previousTime)
    }

    constructor (now: nat)
      ensures Abs() == State(map[], [], false, now) && Valid(Abs())
    {
      table, order, tickled, previousTime := map[], [], false, now;
    }

    /** The private `addTimer`; `notify` stands for the call of `onTimerInsertedAtFront`. */
    method Enter(a: nat, t: Timer) returns (notify: bool)
      modifies this
      ensures (Abs(), notify) == EnterOp(old(Abs()), a, t)
    {
      table := table[a := t];
      order := Insert(order, table, a);
      notify := order[0] == a && !tickled;
      if notify {
        tickled := true;
      }
    }

    /** `addTimer`; `a` is the address of the new timer. */
    method AddTimer(a: nat, ms: nat, cb: Option<nat>, recurring: bool, now: nat) returns (notify: bool)
      requires Valid(Abs()) && a !in table
      modifies this
      ensures Valid(Abs()) && (Abs(), notify) == AddOp(old(Abs()), a, ms, cb, recurring, now)
      ensures table == old(table)[a := Timer(recurring, ms, (now + ms) % TWO64, cb)]
      ensures forall x :: x in order <==> x in old(order) || x == a
      ensures notify <==> !old(tickled) && Foremost(old(Abs()), a, table[a].next)
      ensures (tickled <==> old(tickled) || notify) && previousTime == old(previousTime)
    {
      EnterValid(Abs(), a, Timer(recurring, ms, Plus(now, ms), cb));
      AddValid(Abs(), a, ms, cb, recurring, now);
      notify := Enter(a, Timer(recurring, ms, Plus(now, ms), cb));
      EnterFront(old(Abs()), a, Timer(recurring, ms, Plus(now, ms), cb), Abs(), notify);
    }

    /** `Timer::cancel`. */
    method Cancel(a: nat) returns (ok: bool)
      requires Valid(Abs()) && a in table
      modifies this
      ensures Valid(Abs()) && (Abs(), ok) == CancelOp(old(Abs()), a)
      ensures ok <==> old(table)[a].cb.Some?
      ensures ok ==> table == old(table)[a := old(table)[a].(cb := None)]
      ensures ok ==> forall x :: x in order <==> x in old(order) && x != a
      ensures tickled == old(tickled) && previousTime == old(previousTime)
      ensures !ok ==> table == old(table) && order == old(order)
    {
      CancelValid(Abs(), a);
      if table[a].cb.None? {
        return false;
      }
      ArmedIsFound(Abs(), a);
      TakeOut(Abs(), a);
      var it := LowerBound(order, table, table[a].next, a);
      table := table[a := table[a].(cb := None)];
      order := order[..it] + order[it + 1..];
      ok := true;
    }

    /** `Timer::refresh`. */
    method Refresh(a: nat, now: nat) returns (ok: bool)
      requires Valid(Abs()) && a in table
      modifies this
      ensures Valid(Abs()) && (Abs(), ok) == RefreshOp(old(Abs()), a, now)
      ensures ok <==> old(table)[a].cb.Some?
      ensures ok ==> table == old(table)[a := old(table)[a].(next := (now + old(table)[a].ms) % TWO64)]
      ensures forall x :: x in order <==> x in old(order)
      ensures tickled == old(tickled) && previousTime == old(previousTime)
      ensures !ok ==> table == old(table) && order == old(order)
    {
      RefreshValid(Abs(), a, now);
      RefreshMembers(Abs(), a, now);
      if table[a].cb.None? {
        return false;
      }
      ArmedIsFound(Abs(), a);
      var it := LowerBound(order, table, table[a].next, a);
      order := order[..it] + order[it + 1..];
      table := table[a := table[a].(next := Plus(now, table[a].ms))];
      order := Insert(order, table, a);
      ok := true;
    }

    /** The locked part of `Timer::reset`. */
    method ResetLocked(a: nat, ms: nat, fromNow: bool, now: nat) returns (ok: bool, notify: bool)
      requires Valid(Abs()) && a in table && !(ms == table[a].ms && !fromNow)
      modifies this
      ensures (Abs(), ok, notify) == ResetOp(old(Abs()), a, ms, fromNow, now)
    {
      if table[a].cb.None? {
        return false, false;
      }
      ArmedIsFound(Abs(), a);
      var it := LowerBound(order, table, table[a].next, a);
      order := order[..it] + order[it + 1..];
      var start := if fromNow then now else Minus(table[a].next, table[a].ms);
      notify := Enter(a, table[a].(ms := ms, next := Plus(start, ms)));
      ok := true;
    }

    /** `Timer::reset` behind its first test. */
    method ResetChanged(a: nat, ms: nat, fromNow: bool, now: nat) returns (ok: bool, notify: bool)
      requires Valid(Abs()) && a in table && !(ms == table[a].ms && !fromNow)
      modifies this
      ensures Valid(Abs()) && (Abs(), ok, notify) == ResetOp(old(Abs()), a, ms, fromNow, now)
      ensures ok <==> old(table)[a].cb.Some?
      ensures !ok ==> Abs() == old(Abs()) && !notify
      ensures ok ==>
        var was := old(table)[a];
        table == old(table)[a := was.(ms := ms,
          next := Plus(if fromNow then now else Minus(was.next, was.ms), ms))]
      ensures forall x :: x in order <==> x in old(order)
      ensures ok ==> (notify <==> !old(tickled) && Foremost(old(Abs()), a, table[a].next))
      ensures (tickled <==> old(tickled) || notify) && previousTime == old(previousTime)
    {
      ok, notify := ResetLocked(a, ms, fromNow, now);
      ResetDoes(old(Abs()), a, ms, fromNow, now, Abs(), ok, notify);
    }

    /** `Timer::reset`. Nothing is looked at when only the period is given and it is the
        old one: the answer is true even for a timer that has no callback any more. */
    method Reset(a: nat, ms: nat, fromNow: bool, now: nat) returns (ok: bool, notify: bool)
      requires Valid(Abs()) && a in table
      modifies this
      ensures Valid(Abs()) && (Abs(), ok, notify) == ResetOp(old(Abs()), a, ms, fromNow, now)
      ensures ok <==> (ms == old(table)[a].ms && !fromNow) || old(table)[a].cb.Some?
      ensures !ok || (ms == old(table)[a].ms && !fromNow) ==> Abs() == old(Abs()) && !notify
      ensures ok && !(ms == old(table)[a].ms && !fromNow) ==>
        var was := old(table)[a];
        table == old(table)[a := was.(ms := ms,
          next := Plus(if fromNow then now else Minus(was.next, was.ms), ms))]
      ensures forall x :: x in order <==> x in old(order)
      ensures ok && !(ms == old(table)[a].ms && !fromNow) ==>
        (notify <==> !old(tickled) && Foremost(old(Abs()), a, table[a].next))
      ensures (tickled <==> old(tickled) || notify) && previousTime == old(previousTime)
    {
      if ms == table[a].ms && !fromNow {
        return true, false;
      }
      ok, notify := ResetChanged(a, ms, fromNow, now);
    }

    /** `getNextTimer`. */
    method GetNextTimer(now: nat) returns (timeout: nat)
      requires Valid(Abs())
      modifies this
      ensures Valid(Abs()) && Abs() == old(Abs()).(tickled := false)
      ensures Tells(Abs(), now, timeout)
    {
      NextTells(Abs(), now);
      tickled := false;
      if order == [] {
        return NEVER;
      }
      var next := table[order[0]].next;
      timeout := if now >= next then 0 else next - now;
    }

    /** `detectClockRollover`. */
    method DetectClockRollover(now: nat) returns (rollover: bool)
      modifies this`previousTime
      ensures rollover == Rollover(old(previousTime), now) && previousTime == now
    {
      rollover := false;
      if now < previousTime && now < Minus(previousTime, HOUR) {
        rollover := true;
      }
      previousTime := now;
    }

    /** `lower_bound` of a timer at address `temp`, then past the timers due right now. */
    method FirstNotDue(now: nat, temp: nat) returns (it: nat)
      requires Sorted(order, table)
      ensures it == Due(order, table, now)
    {
      LowerBoundSplits(order, table, now, temp);
      it := LowerBound(order, table, now, temp);
      while it < |order| && table[order[it]].next == now
        invariant it <= |order|
        invariant forall i :: 0 <= i < it ==> table[order[i]].next <= now
        invariant forall i :: it <= i < |order| ==> table[order[i]].next >= now
      {
        it := it + 1;
      }
      DueIs(order, table, now, it);
    }

    /** The locked part of `listExpiredCb`; `temp` is the address of the timer built for the
        search. */
    method ExpireLocked(now: nat, temp: nat) returns (cbs: seq<Option<nat>>)
      requires Valid(Abs())
      modifies this
      ensures Abs() == ExpireOp(old(Abs()), now)
      ensures cbs == Callbacks(old(table), Expired(old(Abs()), now))
    {
      ghost var s := Abs();
      if order == [] {
        return [];
      }
      var rollover := DetectClockRollover(now);
      if !rollover && table[order[0]].next > now {
        NothingDue(s, now);
        return [];
      }
      var it := |order|;
      if !rollover {
        it := FirstNotDue(now, temp);
      }
      assert s.order[..it] == Expired(s, now) && it == |Expired(s, now)|;
      ExpireReady(s, now);
      var expired := order[..it];
      order := order[it..];
      cbs := Collect(expired, now);
    }

    /** `listExpiredCb`, with its first look at the set outside the lock. */
    method ListExpiredCb(now: nat, temp: nat) returns (cbs: seq<Option<nat>>)
      requires Valid(Abs())
      modifies this
      ensures Valid(Abs()) && Abs() == ExpireOp(old(Abs()), now)
      ensures |cbs| == |Expired(old(Abs()), now)|
      ensures forall i :: 0 <= i < |cbs| ==> cbs[i] == old(table)[Expired(old(Abs()), now)[i]].cb
      ensures previousTime == (if old(order) == [] then old(previousTime) else now) && tickled == old(tickled)
    {
      ExpireDoes(Abs(), now);
      if order == [] {
        return [];
      }
      cbs := ExpireLocked(now, temp);
    }

    /** One round of the last loop. */
    method CollectOne(a: nat, now: nat) returns (cb: Option<nat>)
      requires a in table
      modifies this`table, this`order
      ensures (table, order) == SettleOne(old(table), old(order), a, now)
      ensures cb == old(table)[a].cb
    {
      cb := table[a].cb;
      if table[a].recurring {
        table := table[a := table[a].(next := Plus(now, table[a].ms))];
        order := Insert(order, table, a);
      } else {
        table := table[a := table[a].(cb := None)];
      }
    }

    /** The last loop of `listExpiredCb`. */
    method Collect(expired: seq<nat>, now: nat) returns (cbs: seq<Option<nat>>)
      requires AllIn(table, expired) && Apart(expired, order) && Sorted(order, table)
      modifies this`table, this`order
      ensures (table, order) == Settle(old(table), old(order), expired, now)
      ensures cbs == Callbacks(old(table), expired)
    {
      cbs := [];
      var i := 0;
      while i < |expired|
        invariant 0 <= i <= |expired|
        invariant AllIn(table, expired[i..]) && Apart(expired[i..], order) && Sorted(order, table)
        invariant Settle(table, order, expired[i..], now) == Settle(old(table), old(order), expired, now)
        invariant forall x :: x in expired[i..] ==> table[x] == old(table)[x]
        invariant |cbs| == i && forall k :: 0 <= k < i ==> cbs[k] == old(table)[expired[k]].cb
      {
        assert expired[i..][0] == expired[i] && expired[i..][1..] == expired[i + 1..];
        SettleRound(table, order, expired[i..], now);
        var cb := CollectOne(expired[i], now);
        cbs := cbs + [cb];
        i := i + 1;
      }
    }
  }
}
