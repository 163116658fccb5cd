/** How long `IOManager::idle` sleeps on the answer of `getNextTimer`. */
module Sleep {
  import opened Base
  import opened Timers
  import opened TimerRuns

  const MAX_TIMEOUT: nat := 3000
  const TWO31: nat := 0x8000_0000
  const TWO32: nat := 0x1_0000_0000

  /** `(int)` of a `uint64_t`: the low 32 bits, signed. */
  function AsInt(x: nat): int {
    var low := x % TWO32;
    if low < TWO31 then low else low - TWO32
  }

  /** One round of the loop around `epoll_wait`, before the call. */
  function Clamp(timeout: nat): nat {
    if timeout == NEVER || AsInt(timeout) > MAX_TIMEOUT then MAX_TIMEOUT else timeout
  }

  /** The last argument of `epoll_wait` in the first round. */
  function WaitArg(timeout: nat): int {
    AsInt(Clamp(timeout))
  }

  /** The arguments of the calls of `epoll_wait` when so many of them are interrupted by a
      signal: the timeout is not counted down. */
  method Poll(timeout: nat, interrupts: nat) returns (args: seq<int>)
    ensures |args| == interrupts + 1 && forall i :: 0 <= i < |args| ==> args[i] == WaitArg(timeout)
  {
    var nextTimeout := Clamp(timeout);
    args := [AsInt(nextTimeout)];
    while |args| <= interrupts
      invariant 1 <= |args| <= interrupts + 1
      invariant nextTimeout == Clamp(timeout) && forall i :: 0 <= i < |args| ==> args[i] == WaitArg(timeout)
    {
      nextTimeout := Clamp(nextTimeout);
      args := args + [AsInt(nextTimeout)];
    }
  }

  /** How long one call may last: a negative argument sets no limit. */
  predicate CanLast(arg: int, nap: nat) {
    arg < 0 || nap <= arg
  }

  /** A call after the answer `timeout` cannot last longer than that. */
  ghost predicate WakesInTime(timeout: nat) {
    forall nap: nat :: CanLast(WaitArg(timeout), nap) ==> nap <= timeout
  }

  /** The worker wakes in time exactly when it was told that there is no timer, or the low
      half of the answer is no negative `int`; it then sleeps no longer than the maximum. */
  lemma WakesInTimeExactly(timeout: nat)
    requires timeout < TWO64
    ensures WakesInTime(timeout) <==> timeout == NEVER || timeout % TWO32 < TWO31
    ensures WakesInTime(timeout) ==> 0 <= WaitArg(timeout) <= 3000
    ensures WakesInTime(timeout) && WaitArg(timeout) < 3000 ==> WaitArg(timeout) == timeout % 0x1_0000_0000
    ensures timeout == NEVER || (timeout < TWO31 && timeout >= 3000) ==> WaitArg(timeout) == 3000
  {
    if timeout == NEVER || timeout % TWO32 < TWO31 {
      assert timeout % TWO32 <= timeout;
    } else {
      assert CanLast(WaitArg(timeout), timeout + 1);
    }
  }

  function Total(naps: seq<nat>): nat {
    if naps == [] then 0 else naps[0] + Total(naps[1..])
  }

  /** The calls of one round of `idle`, all but the last of them interrupted. */
  predicate Naps(timeout: nat, naps: seq<nat>) {
    forall i :: 0 <= i < |naps| ==> CanLast(WaitArg(timeout), naps[i])
  }

  lemma {:induction false} NoNaps(timeout: nat, naps: seq<nat>)
    requires WaitArg(timeout) == 0 && Naps(timeout, naps)
    ensures Total(naps) == 0
    decreases |naps|
  {
    if naps != [] {
      assert CanLast(WaitArg(timeout), naps[0]);
      forall i | 0 <= i < |naps[1..]| ensures CanLast(WaitArg(timeout), naps[1..][i]) {
        assert naps[1..][i] == naps[i + 1];
      }
      NoNaps(timeout, naps[1..]);
    }
  }

  lemma {:induction false} ManyNaps(timeout: nat, n: nat) returns (naps: seq<nat>)
    requires WaitArg(timeout) != 0
    ensures Naps(timeout, naps) && Total(naps) == n
  {
    if n == 0 {
      naps := [];
    } else {
      var rest := ManyNaps(timeout, n - 1);
      naps := [1] + rest;
      assert naps[1..] == rest;
    }
  }

  /** Signals can keep the worker asleep past any deadline, unless it does not sleep at all. */
  lemma InterruptedSleep(timeout: nat)
    requires timeout < TWO64
    ensures (forall naps :: Naps(timeout, naps) ==> Total(naps) <= timeout) <==> timeout % TWO32 == 0
  {
    if timeout % TWO32 == 0 {
      forall naps | Naps(timeout, naps) ensures Total(naps) <= timeout { NoNaps(timeout, naps); }
    } else {
      var naps := ManyNaps(timeout, timeout + 1);
    }
  }

  function Later(a: nat, b: nat): nat {
    if a < b then b else a
  }

  /** The worker that asked last, as long as no wake-up has been sent since, and if it was
      told a timeout on which it wakes in time, is awake at the deadline of every timer in the
      set: counted from the moment it asked, one uninterrupted call does not outlast any. */
  lemma AwakeAtDeadlines(start: nat, calls: seq<Timed>, end: State, limit: nat, nap: nat, a: nat)
    requires Run(State(map[], [], false, start), calls, end) && Regular(calls, start, limit) && a in end.order
    requires var w := Watching(State(map[], [], false, start), calls, Watch(0, start, NEVER));
      w.woken == 0 && WakesInTime(w.told) && CanLast(WaitArg(w.told), nap)
    ensures var w := Watching(State(map[], [], false, start), calls, Watch(0, start, NEVER));
      a in end.table && w.asked + nap <= Later(w.asked, end.table[a].next)
  {
    NothingSleptThrough(start, calls, end, limit);
    var w := Watching(State(map[], [], false, start), calls, Watch(0, start, NEVER));
    assert InTime(w, end.table[a].next);
  }
}
