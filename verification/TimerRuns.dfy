/** Any sequence of calls on a `TimerManager`: how often a timer fires, and that no
    deadline is slept through. */
module TimerRuns {
  import opened Base
  import opened Timers

  datatype Call =
    | AddCall(a: nat, ms: nat, cb: Option<nat>, recurring: bool)
    | CancelCall(a: nat)
    | RefreshCall(a: nat)
    | ResetCall(a: nat, ms: nat, fromNow: bool)
    | NextCall
    | ExpireCall

  /** A call and the time it reads from the clock. */
  datatype Timed = Timed(call: Call, now: nat)

  /** A new timer has a new address; the others are called on a timer that exists. */
  predicate CanCall(s: State, call: Call) {
    match call
    case AddCall(a, _, _, _) => a !in s.table
    case CancelCall(a) => a in s.table
    case RefreshCall(a) => a in s.table
    case ResetCall(a, _, _) => a in s.table
    case _ => true
  }

  /** The state after a call. */
  ghost function Do(s: State, t: Timed): State
    requires Valid(s) && CanCall(s, t.call)
  {
    match t.call
    case AddCall(a, ms, cb, recurring) => AddOp(s, a, ms, cb, recurring, t.now).0
    case CancelCall(a) => CancelOp(s, a).0
    case RefreshCall(a) => RefreshOp(s, a, t.now).0
    case ResetCall(a, ms, fromNow) => ResetOp(s, a, ms, fromNow, t.now).0
    case NextCall => NextOp(s, t.now).0
    case ExpireCall => ExpireOp(s, t.now)
  }

  lemma DoValid(s: State, t: Timed)
    requires Valid(s) && CanCall(s, t.call)
    ensures Valid(Do(s, t))
  {
    match t.call
    case AddCall(a, ms, cb, recurring) => AddValid(s, a, ms, cb, recurring, t.now);
    case CancelCall(a) => CancelValid(s, a);
    case RefreshCall(a) => RefreshValid(s, a, t.now);
    case ResetCall(a, ms, fromNow) => ResetValid(s, a, ms, fromNow, t.now);
    case NextCall =>
    case ExpireCall => ExpireDoes(s, t.now);
  }

  /** The calls are possible one after the other, and `end` is the state they lead to. */
  ghost predicate Run(s: State, calls: seq<Timed>, end: State)
    requires Valid(s)
    decreases |calls|
  {
    if calls == [] then end == s
    else
      && CanCall(s, calls[0].call)
      && (DoValid(s, calls[0]); Run(Do(s, calls[0]), calls[1..], end))
  }

  // --- how often a timer fires ---

  /** The call hands the timer's callback out. */
  ghost predicate Delivers(s: State, t: Timed, a: nat) {
    t.call.ExpireCall? && a in Expired(s, t.now)
  }

  /** The call is a `cancel` of the timer while it has a callback. */
  predicate Cancels(s: State, t: Timed, a: nat) {
    t.call == CancelCall(a) && a in s.table && s.table[a].cb.Some?
  }

  /** How often the run hands the callback of timer `a` out. */
  ghost function Deliveries(s: State, calls: seq<Timed>, a: nat): nat
    requires Valid(s)
    decreases |calls|
  {
    if calls == [] || !CanCall(s, calls[0].call) then 0
    else
      DoValid(s, calls[0]);
      One(Delivers(s, calls[0], a)) + Deliveries(Do(s, calls[0]), calls[1..], a)
  }

  /** How many calls of `cancel` on timer `a` answer true. */
  ghost function Cancellations(s: State, calls: seq<Timed>, a: nat): nat
    requires Valid(s)
    decreases |calls|
  {
    if calls == [] || !CanCall(s, calls[0].call) then 0
    else
      DoValid(s, calls[0]);
      One(Cancels(s, calls[0], a)) + Cancellations(Do(s, calls[0]), calls[1..], a)
  }

  lemma ExpireBalance(s: State, now: nat, a: nat, r: State)
    requires Valid(s) && a in s.table && r == ExpireOp(s, now)
    ensures a in r.table && r.table[a].recurring == s.table[a].recurring
    ensures a in s.order <==> a in r.order || (!s.table[a].recurring && a in Expired(s, now))
    ensures a in r.order ==> s.table[a].recurring || a !in Expired(s, now)
  {
    ExpireDoes(s, now);
    ExpiredExactly(s, now);
  }

  /** One call on a timer that exists: it stays what it is, and it leaves the set exactly
      when it is cancelled or, being a one-shot, delivered. */
  lemma CallBalance(s: State, t: Timed, a: nat)
    requires Valid(s) && CanCall(s, t.call) && a in s.table
    ensures a in Do(s, t).table && Do(s, t).table[a].recurring == s.table[a].recurring
    ensures One(a in s.order)
         == One(a in Do(s, t).order) + One(Cancels(s, t, a)) + One(!s.table[a].recurring && Delivers(s, t, a))
  {
    match t.call
    case AddCall(x, ms, cb, recurring) =>
      EnterValid(s, x, Timer(recurring, ms, Plus(t.now, ms), cb));
    case CancelCall(x) =>
      if s.table[x].cb.Some? { TakeOut(s, x); }
    case RefreshCall(x) =>
      if s.table[x].cb.Some? { RefreshMembers(s, x, t.now); }
    case ResetCall(x, ms, fromNow) => ResetMembers(s, x, ms, fromNow, t.now);
    case NextCall =>
    case ExpireCall => ExpireBalance(s, t.now, a, ExpireOp(s, t.now));
  }

  /** Over any run, a timer in the set ends up in the set, or has been cancelled once; a
      one-shot may instead have been delivered once. So deliveries and successful cancels
      of a one-shot together never exceed one. */
  lemma {:induction false} FiresOnce(s: State, calls: seq<Timed>, end: State, a: nat)
    requires Valid(s) && Run(s, calls, end) && a in s.table
    ensures Valid(end) && a in end.table && end.table[a].recurring == s.table[a].recurring
    ensures One(a in s.order) == One(a in end.order) + Cancellations(s, calls, a)
         + if s.table[a].recurring then 0 else Deliveries(s, calls, a)
    decreases |calls|
  {
    if calls != [] {
      CallBalance(s, calls[0], a);
      DoValid(s, calls[0]);
      FiresOnce(Do(s, calls[0]), calls[1..], end, a);
    }
  }

  /** A timer is never delivered before its deadline, unless the clock was rolled back. */
  lemma NeverEarly(s: State, t: Timed, a: nat)
    requires Valid(s) && Delivers(s, t, a) && !Rollover(s.previous, t.now)
    ensures a in s.order && s.table[a].next <= t.now
  {
    ExpiredExactly(s, t.now);
  }

  // --- timers without a callback ---

  /** Every timer in the set has a callback. */
  ghost predicate Full(s: State) {
    forall a :: a in s.order ==> Armed(s.table, a)
  }

  /** The state is full before every call of the run and at its end. */
  ghost predicate StaysFull(s: State, calls: seq<Timed>)
    requires Valid(s)
    decreases |calls|
  {
    && Full(s)
    && (calls != [] && CanCall(s, calls[0].call) ==> (DoValid(s, calls[0]); StaysFull(Do(s, calls[0]), calls[1..])))
  }

  predicate AddsEmpty(t: Timed) {
    t.call.AddCall? && t.call.cb.None?
  }

  lemma FullAdd(s: State, t: Timed)
    requires Valid(s) && Full(s) && CanCall(s, t.call) && t.call.AddCall?
    ensures Full(Do(s, t)) <==> !AddsEmpty(t)
  {
    var c := t.call;
    EnterValid(s, c.a, Timer(c.recurring, c.ms, Plus(t.now, c.ms), c.cb));
    assert c.a in Do(s, t).order;
  }

  lemma FullExpire(s: State, t: Timed)
    requires Valid(s) && Full(s) && t.call.ExpireCall?
    ensures Full(Do(s, t))
  {
    ExpireDoes(s, t.now);
    forall a | a in Do(s, t).order ensures Armed(Do(s, t).table, a) { assert a in s.order; }
  }

  lemma FullRest(s: State, t: Timed)
    requires Valid(s) && Full(s) && CanCall(s, t.call) && !t.call.AddCall? && !t.call.ExpireCall?
    ensures Full(Do(s, t))
  {
    match t.call
    case CancelCall(a) =>
      if s.table[a].cb.Some? { TakeOut(s, a); }
    case RefreshCall(a) => RefreshMembers(s, a, t.now);
    case ResetCall(a, ms, fromNow) => ResetMembers(s, a, ms, fromNow, t.now);
    case NextCall =>
  }

  lemma FullStep(s: State, t: Timed)
    requires Valid(s) && Full(s) && CanCall(s, t.call)
    ensures Full(Do(s, t)) <==> !AddsEmpty(t)
  {
    match t.call
    case AddCall(_, _, _, _) => FullAdd(s, t);
    case ExpireCall => FullExpire(s, t);
    case _ => FullRest(s, t);
  }

  /** The timers in the set are those with a callback, throughout a run, exactly when no
      call adds an empty callback. */
  lemma {:induction false} FullExactly(s: State, calls: seq<Timed>, end: State)
    requires Valid(s) && Full(s) && Run(s, calls, end)
    ensures StaysFull(s, calls) <==> forall i :: 0 <= i < |calls| ==> !AddsEmpty(calls[i])
    decreases |calls|
  {
    if calls != [] {
      FullStep(s, calls[0]);
      DoValid(s, calls[0]);
      if !AddsEmpty(calls[0]) { FullExactly(Do(s, calls[0]), calls[1..], end); }
      assert forall i :: 1 <= i < |calls| ==> calls[i] == calls[1..][i - 1];
    }
  }

  /** A timer that is in the set without a callback cannot be cancelled, refreshed or given
      another deadline: it stays until it expires. */
  lemma EmptyStays(s: State, t: Timed, a: nat)
    requires Valid(s) && CanCall(s, t.call) && a in s.order && s.table[a].cb.None? && !Delivers(s, t, a)
    ensures a in Do(s, t).order && a in Do(s, t).table && Do(s, t).table[a] == s.table[a]
  {
    match t.call
    case AddCall(x, ms, cb, recurring) =>
      EnterValid(s, x, Timer(recurring, ms, Plus(t.now, ms), cb));
    case CancelCall(x) =>
      if s.table[x].cb.Some? { TakeOut(s, x); }
    case RefreshCall(x) => RefreshMembers(s, x, t.now);
    case ResetCall(x, ms, fromNow) => ResetMembers(s, x, ms, fromNow, t.now);
    case NextCall =>
    case ExpireCall => ExpireDoes(s, t.now);
  }

  // --- no deadline is slept through ---

  /** The call makes `onTimerInsertedAtFront` run. */
  predicate Notifies(s: State, t: Timed) {
    match t.call
    case AddCall(a, ms, cb, recurring) => AddOp(s, a, ms, cb, recurring, t.now).1
    case ResetCall(a, ms, fromNow) => a in s.table && ResetOp(s, a, ms, fromNow, t.now).2
    case _ => false
  }

  /** The worker that asked last for the next timer: how many wake-ups have been sent since,
      when it asked and the answer that it got. */
  datatype Watch = Watch(woken: nat, asked: nat, told: nat)

  function See(w: Watch, s: State, t: Timed): Watch {
    if t.call.NextCall? then Watch(0, t.now, NextOp(s, t.now).1)
    else w.(woken := w.woken + One(Notifies(s, t)))
  }

  /** The clock does not run backwards and no deadline overflows 64 bits. */
  predicate Regular(calls: seq<Timed>, clock: nat, limit: nat) {
    match |calls|
    case 0 => true
    case _ =>
      && clock <= calls[0].now <= limit
      && (calls[0].call.AddCall? || calls[0].call.ResetCall? ==> limit + calls[0].call.ms < TWO64)
      && Regular(calls[1..], calls[0].now, limit)
  }

  /** Each deadline is a period away from a time that has passed. */
  predicate Timely(t: Timer, clock: nat, limit: nat) {
    t.ms <= t.next <= clock + t.ms && limit + t.ms < TWO64
  }

  ghost predicate AllTimely(s: State, clock: nat, limit: nat) {
    s.previous <= clock && forall a :: a in s.table ==> Timely(s.table[a], clock, limit)
  }

  /** Sleeping as long as it was told, the worker misses no deadline; 0 makes it look at
      once. */
  predicate InTime(w: Watch, next: nat) {
    w.told == 0 || next >= w.asked + w.told
  }

  ghost predicate Covered(s: State, w: Watch)
    requires Sorted(s.order, s.table)
  {
    forall a :: a in s.order ==> InTime(w, s.table[a].next)
  }

  ghost predicate Watched(s: State, w: Watch)
    requires Sorted(s.order, s.table)
  {
    w.woken == One(s.tickled) && (s.tickled || Covered(s, w))
  }

  /** A timer that goes in either becomes the first one, and the worker is woken if it was
      not already, or comes behind one that was covered. */
  lemma EnterKeeps(s: State, a: nat, t: Timer, w: Watch)
    requires Sorted(s.order, s.table) && a !in s.order
    requires forall x :: x != a && Armed(s.table, x) ==> x in s.order
    requires w.woken == One(s.tickled)
    requires s.tickled || Covered(s, w)
    ensures Valid(EnterOp(s, a, t).0)
    ensures Watched(EnterOp(s, a, t).0, w.(woken := w.woken + One(EnterOp(s, a, t).1)))
  {
    EnterValid(s, a, t);
    var r := EnterOp(s, a, t).0;
    if !r.tickled {
      var x := r.order[0];
      assert x in r.order && x != a;
      FrontIsFirst(r, a);
    }
  }

  lemma AddKeeps(s: State, t: Timed, w: Watch)
    requires Valid(s) && Watched(s, w) && t.call.AddCall? && CanCall(s, t.call)
    ensures Valid(Do(s, t)) && Watched(Do(s, t), See(w, s, t))
  {
    var c := t.call;
    EnterKeeps(s, c.a, Timer(c.recurring, c.ms, Plus(t.now, c.ms), c.cb), w);
  }

  lemma CancelKeeps(s: State, t: Timed, w: Watch)
    requires Valid(s) && Watched(s, w) && t.call.CancelCall? && CanCall(s, t.call)
    ensures Valid(Do(s, t)) && Watched(Do(s, t), See(w, s, t))
  {
    DoValid(s, t);
    if s.table[t.call.a].cb.Some? { TakeOut(s, t.call.a); }
    forall x | x in Do(s, t).order ensures x in s.order && Do(s, t).table[x].next == s.table[x].next {}
  }

  /** `refresh` only ever moves a deadline back, so nobody has to be woken. */
  lemma RefreshKeeps(s: State, t: Timed, w: Watch, clock: nat, limit: nat)
    requires Valid(s) && Watched(s, w) && AllTimely(s, clock, limit) && clock <= t.now <= limit
    requires t.call.RefreshCall? && CanCall(s, t.call)
    ensures Valid(Do(s, t)) && Watched(Do(s, t), See(w, s, t))
  {
    var a := t.call.a;
    DoValid(s, t);
    RefreshMembers(s, a, t.now);
    assert Timely(s.table[a], clock, limit);
    Unwrapped(t.now, s.table[a].ms);
    forall x | x in Do(s, t).order ensures x in s.order && Do(s, t).table[x].next >= s.table[x].next {}
  }

  lemma ResetKeeps(s: State, t: Timed, w: Watch)
    requires Valid(s) && Watched(s, w) && t.call.ResetCall? && CanCall(s, t.call)
    ensures Valid(Do(s, t)) && Watched(Do(s, t), See(w, s, t))
  {
    var c := t.call;
    var was := s.table[c.a];
    if !(c.ms == was.ms && !c.fromNow) && was.cb.Some? {
      TakeOut(s, c.a);
      var start := if c.fromNow then t.now else Minus(was.next, was.ms);
      EnterKeeps(s.(order := Erase(s.order, s.table, c.a)), c.a, was.(ms := c.ms, next := Plus(start, c.ms)), w);
    }
  }

  lemma NextKeeps(s: State, t: Timed, w: Watch)
    requires Valid(s) && t.call.NextCall?
    ensures Valid(Do(s, t)) && Watched(Do(s, t), See(w, s, t))
  {
    NextTells(s, t.now);
  }

  /** A recurring timer goes back in with a deadline that is not before the one it had. */
  lemma ExpireKeeps(s: State, t: Timed, w: Watch, clock: nat, limit: nat)
    requires Valid(s) && Watched(s, w) && AllTimely(s, clock, limit) && clock <= t.now <= limit && t.call.ExpireCall?
    ensures Valid(Do(s, t)) && Watched(Do(s, t), See(w, s, t))
  {
    ExpireDoes(s, t.now);
    var r := Do(s, t);
    forall x | x in r.order ensures x in s.order && r.table[x].next >= s.table[x].next {
      assert Timely(s.table[x], clock, limit);
      Unwrapped(t.now, s.table[x].ms);
    }
  }

  lemma WatchedStep(s: State, t: Timed, w: Watch, clock: nat, limit: nat)
    requires Valid(s) && Watched(s, w) && AllTimely(s, clock, limit) && clock <= t.now <= limit && CanCall(s, t.call)
    ensures Valid(Do(s, t)) && Watched(Do(s, t), See(w, s, t))
  {
    match t.call
    case AddCall(_, _, _, _) => AddKeeps(s, t, w);
    case CancelCall(_) => CancelKeeps(s, t, w);
    case RefreshCall(_) => RefreshKeeps(s, t, w, clock, limit);
    case ResetCall(_, _, _) => ResetKeeps(s, t, w);
    case NextCall => NextKeeps(s, t, w);
    case ExpireCall => ExpireKeeps(s, t, w, clock, limit);
  }

  lemma ExpireTimely(s: State, now: nat, clock: nat, limit: nat)
    requires Valid(s) && AllTimely(s, clock, limit) && clock <= now <= limit
    ensures AllTimely(ExpireOp(s, now), now, limit)
  {
    ExpireDoes(s, now);
    var r := ExpireOp(s, now);
    forall x | x in r.table ensures Timely(r.table[x], now, limit) {
      OneTimely(s.table[x], r.table[x], now, clock, limit);
    }
  }

  /** A timer that is left alone, loses its callback or waits for another period. */
  lemma OneTimely(t: Timer, r: Timer, now: nat, clock: nat, limit: nat)
    requires Timely(t, clock, limit) && clock <= now <= limit
    requires r == t || r == t.(cb := None) || r == t.(next := (now + t.ms) % TWO64)
    ensures Timely(r, now, limit)
  {
    Unwrapped(now, t.ms);
  }

  lemma TimelyStep(s: State, t: Timed, clock: nat, limit: nat)
    requires Valid(s) && AllTimely(s, clock, limit) && clock <= t.now <= limit && CanCall(s, t.call)
    requires t.call.AddCall? || t.call.ResetCall? ==> limit + t.call.ms < TWO64
    ensures AllTimely(Do(s, t), t.now, limit)
  {
    if t.call.ExpireCall? {
      ExpireTimely(s, t.now, clock, limit);
    } else {
      OtherTimely(s, t, clock, limit);
    }
  }

  lemma OtherTimely(s: State, t: Timed, clock: nat, limit: nat)
    requires Valid(s) && AllTimely(s, clock, limit) && clock <= t.now <= limit && CanCall(s, t.call)
    requires t.call.AddCall? || t.call.ResetCall? ==> limit + t.call.ms < TWO64
    requires !t.call.ExpireCall?
    ensures AllTimely(Do(s, t), t.now, limit)
  {
    var r := Do(s, t);
    forall x | x in r.table ensures Timely(r.table[x], t.now, limit) {
      if x in s.table {
        assert Timely(s.table[x], clock, limit);
        Unwrapped(t.now, s.table[x].ms);
      }
      if t.call.AddCall? { Unwrapped(t.now, t.call.ms); }
      if t.call.ResetCall? && x == t.call.a { ResetTimely(s.table[x], t.call.ms, t.now, clock, limit); }
    }
  }

  lemma ResetTimely(t: Timer, ms: nat, now: nat, clock: nat, limit: nat)
    requires Timely(t, clock, limit) && clock <= now <= limit && limit + ms < TWO64
    ensures Minus(t.next, t.ms) == t.next - t.ms
    ensures Plus(now, ms) == now + ms && Plus(Minus(t.next, t.ms), ms) == t.next - t.ms + ms
  {}

  /** What the worker that asked last knows after a run. */
  ghost function Watching(s: State, calls: seq<Timed>, w: Watch): Watch
    requires Valid(s)
    decreases |calls|
  {
    if calls == [] || !CanCall(s, calls[0].call) then w
    else
      DoValid(s, calls[0]);
      Watching(Do(s, calls[0]), calls[1..], See(w, s, calls[0]))
  }

  lemma {:induction false} WatchedRun(s: State, calls: seq<Timed>, end: State, w: Watch, clock: nat, limit: nat)
    requires Valid(s) && Run(s, calls, end) && Watched(s, w) && AllTimely(s, clock, limit)
      && Regular(calls, clock, limit)
    ensures Valid(end) && Watched(end, Watching(s, calls, w))
    ensures exists last: nat :: AllTimely(end, last, limit) && (calls == [] || last <= limit)
    decreases |calls|
  {
    if calls != [] {
      WatchedStep(s, calls[0], w, clock, limit);
      TimelyStep(s, calls[0], clock, limit);
      DoValid(s, calls[0]);
      WatchedRun(Do(s, calls[0]), calls[1..], end, See(w, s, calls[0]), calls[0].now, limit);
    }
  }

  /** From a new manager, under a clock that does not run backwards: since a worker last asked
      for the next timer at most one wake-up has been sent, and as long as none has, no timer
      in the set is due earlier than that worker was told; if it was told that there is none,
      there is none. A worker that asked before it may have been told a later deadline. */
  lemma NothingSleptThrough(start: nat, calls: seq<Timed>, end: State, limit: nat)
    requires Run(State(map[], [], false, start), calls, end) && Regular(calls, start, limit)
    ensures var w := Watching(State(map[], [], false, start), calls, Watch(0, start, NEVER));
      && Valid(end) && w.woken <= 1 && (end.tickled <==> w.woken == 1)
      && (w.woken == 0 ==> Covered(end, w))
      && (w.woken == 0 && w.told == NEVER && w.asked > 0 ==> end.order == [])
  {
    var s := State(map[], [], false, start);
    var w := Watching(s, calls, Watch(0, start, NEVER));
    WatchedRun(s, calls, end, Watch(0, start, NEVER), start, limit);
    var last: nat :| AllTimely(end, last, limit) && (calls == [] || last <= limit);
    forall a | calls != [] && a in end.order ensures end.table[a].next < TWO64 {
      assert Timely(end.table[a], last, limit);
    }
    assert end.order == [] || end.order[0] in end.order;
  }
}
