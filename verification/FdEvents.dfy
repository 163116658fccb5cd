/** `IOManager`: the event contexts of each descriptor, the pending counter and the
    kernel's interest table, under `addEvent`, `delEvent`, `cancelEvent`,
    `cancelAll` and the delivery loop of `idle`. Whether an `epoll_ctl` call fails
    is the environment's choice and comes in as a parameter. */
module FdEvents {
  import opened Base
  import opened EventHistory

  /** `FdContext::EventContext`; the scheduler can be a null pointer. */
  datatype EventContext = EventContext(scheduler: Option<nat>, fiber: Option<nat>, cb: Option<nat>)

  const EMPTY := EventContext(None, None, None)

  predicate Armed(c: EventContext) {
    c.fiber.Some? <==> c.cb.None?
  }

  /** The continuation that `triggerEvent` takes: the callback if there is one. */
  function Resumes(c: EventContext): Continuation {
    if c.cb.Some? then CallbackCont(c.scheduler, c.cb.value)
    else if c.fiber.Some? then FiberCont(c.scheduler, c.fiber.value)
    else FiberCont(c.scheduler, 0)
  }

  function ArmedWith(cont: Continuation): (c: EventContext)
    ensures Armed(c) && Resumes(c) == cont
  {
    match cont
    case CallbackCont(scheduler, cb) => EventContext(scheduler, None, Some(cb))
    case FiberCont(scheduler, f) => EventContext(scheduler, Some(f), None)
  }

  /** `FdContext`. */
  datatype FdContext = FdContext(read: EventContext, write: EventContext, events: set<Kind>) {
    function Get(k: Kind): EventContext {
      if k == READ then read else write
    }

    function Set(k: Kind, c: EventContext): FdContext {
      if k == READ then this.(read := c) else this.(write := c)
    }
  }

  const UNUSED := FdContext(EMPTY, EMPTY, {})

  /** A bit is set exactly when its context is armed, and then the context holds the
      continuation of the live registration; otherwise the context is empty. */
  predicate Agrees(c: FdContext, live: map<Key, Continuation>, fd: nat, k: Kind) {
    && (k in c.events <==> Key(fd, k) in live)
    && (if k in c.events then Armed(c.Get(k)) && Resumes(c.Get(k)) == live[Key(fd, k)] else c.Get(k) == EMPTY)
  }

  ghost predicate Mirrored(table: seq<FdContext>, live: map<Key, Continuation>) {
    && (forall i, k :: 0 <= i < |table| ==> Agrees(table[i], live, i, k))
    && (forall key :: key in live ==> key.fd < |table|)
  }

  /** The kernel watches exactly the registered events. */
  ghost predicate Watched(table: seq<FdContext>, interest: map<nat, set<Kind>>) {
    && (forall fd :: fd in interest ==> fd < |table|)
    && (forall i :: 0 <= i < |table| ==> (i in interest <==> table[i].events != {}))
    && (forall i :: 0 <= i < |table| && i in interest ==> interest[i] == table[i].events)
  }

  /** The kernel's table follows a change of one context. */
  lemma WatchedUpdate(table: seq<FdContext>, interest: map<nat, set<Kind>>, fd: nat, c: FdContext)
    requires Watched(table, interest) && fd < |table|
    ensures Watched(table[fd := c], if c.events == {} then interest - {fd} else interest[fd := c.events])
  {}

  lemma MirrorUpdate(table: seq<FdContext>, live: map<Key, Continuation>, fd: nat, k: Kind, c: FdContext,
      live': map<Key, Continuation>)
    requires Mirrored(table, live) && fd < |table|
    requires live' - {Key(fd, k)} == live - {Key(fd, k)}
    requires Agrees(c, live', fd, k) && forall j :: j != k ==>
      c.Get(j) == table[fd].Get(j) && (j in c.events <==> j in table[fd].events)
    ensures Mirrored(table[fd := c], live')
  {
    var t := table[fd := c];
    assert forall key :: key != Key(fd, k) ==>
      (key in live' <==> key in live - {Key(fd, k)}) && (key in live <==> key in live - {Key(fd, k)});
    assert forall key :: key != Key(fd, k) && key in live ==> live'[key] == (live' - {Key(fd, k)})[key] == live[key];
    forall i, j | 0 <= i < |t| ensures Agrees(t[i], live', i, j) {
      assert Agrees(table[i], live, i, j);
    }
  }

  /** A free bit has an empty context. */
  lemma FreeBit(table: seq<FdContext>, live: map<Key, Continuation>, fd: nat, k: Kind)
    requires Mirrored(table, live) && fd < |table| && k !in table[fd].events
    ensures table[fd].Get(k) == EMPTY && Key(fd, k) !in live
  {
    assert Agrees(table[fd], live, fd, k);
  }

  lemma MirrorAdd(table: seq<FdContext>, h: History, fd: nat, k: Kind, cont: Continuation)
    requires Mirrored(table, Live(h)) && Legal(h) && fd < |table| && k !in table[fd].events
    ensures table[fd].Get(k) == EMPTY && Key(fd, k) !in Live(h)
    ensures Legal(h + [Added(Key(fd, k), cont)]) && Woken(h + [Added(Key(fd, k), cont)]) == Woken(h)
    ensures Mirrored(table[fd := Registered(table[fd], k, cont)], Live(h + [Added(Key(fd, k), cont)]))
    ensures |Live(h + [Added(Key(fd, k), cont)])| == |Live(h)| + 1
  {
    FreeBit(table, Live(h), fd, k);
    var o := Added(Key(fd, k), cont);
    Append(h, o);
    assert Live(h + [o]) == Live(h)[o.key := cont];
    MirrorUpdate(table, Live(h), fd, k, Registered(table[fd], k, cont), Live(h)[o.key := cont]);
  }

  function Registered(c: FdContext, k: Kind, cont: Continuation): FdContext {
    c.(events := c.events + {k}).Set(k, ArmedWith(cont))
  }

  function Ended(c: FdContext, k: Kind): FdContext {
    c.(events := c.events - {k}).Set(k, EMPTY)
  }

  /** Ending a registration by `o`. */
  lemma MirrorEnd(table: seq<FdContext>, h: History, fd: nat, k: Kind, o: Occurrence)
    requires Mirrored(table, Live(h)) && Legal(h) && fd < |table| && k in table[fd].events
    requires o == Deleted(Key(fd, k)) || o == Triggered(Key(fd, k), Resumes(table[fd].Get(k)))
    ensures Key(fd, k) in Live(h) && Live(h)[Key(fd, k)] == Resumes(table[fd].Get(k))
    ensures Legal(h + [o])
    ensures Mirrored(table[fd := Ended(table[fd], k)], Live(h + [o]))
    ensures |Live(h)| >= 1 && |Live(h + [o])| == |Live(h)| - 1
  {
    assert Agrees(table[fd], Live(h), fd, k);
    Append(h, o);
    OneLess(Live(h), Key(fd, k));
    MirrorUpdate(table, Live(h), fd, k, Ended(table[fd], k), Live(h) - {Key(fd, k)});
  }

  lemma OneLess(live: map<Key, Continuation>, key: Key)
    requires key in live
    ensures |live| >= 1 && |live - {key}| == |live| - 1
  {
    assert live == (live - {key})[key := live[key]];
  }

  datatype CtlOp = CTL_ADD | CTL_MOD | CTL_DEL

  /** What became of a call: it took effect, it returned an error or `false`, an
      assertion failed, it followed a null scheduler, or it read past the end of the
      context table. */
  datatype Outcome = Done | Refused | Aborted | NullDereference | OutOfRange

  /** `triggerEvent` on one context: the bit goes, the continuation moves out into
      the scheduler's hands, the context is left empty. */
  method TriggerEvent(ctx: FdContext, k: Kind) returns (outcome: Outcome, next: FdContext, c: Continuation)
    requires k in ctx.events ==> Armed(ctx.Get(k))
    ensures outcome == if k !in ctx.events then Aborted
      else if Resumes(ctx.Get(k)).scheduler.None? then NullDereference else Done
    ensures outcome == Done ==> c == Resumes(ctx.Get(k)) && next == Ended(ctx, k)
  {
    next, c := ctx, FiberCont(None, 0);
    if k !in ctx.events {
      outcome := Aborted;
      return;
    }
    next := ctx.(events := ctx.events - {k});
    var e := next.Get(k);
    if e.scheduler.None? {
      outcome := NullDereference;
      return;
    }
    if e.cb.Some? {
      c := CallbackCont(e.scheduler, e.cb.value);
      e := e.(cb := None);
    } else {
      c := FiberCont(e.scheduler, e.fiber.value);
      e := e.(fiber := None);
    }
    next := next.Set(k, e.(scheduler := None));
    outcome := Done;
  }

  /** What triggering an event ends in, by the live registrations. */
  function TriggerOutcome(live: map<Key, Continuation>, key: Key): Outcome {
    if key !in live then Aborted else if live[key].scheduler.None? then NullDereference else Done
  }

  /** What triggering the events in `bits` ends in, READ first. */
  function TriggersOutcome(live: map<Key, Continuation>, fd: nat, bits: set<Kind>): Outcome {
    var read := if READ in bits then TriggerOutcome(live, Key(fd, READ)) else Done;
    if read != Done then read
    else if WRITE in bits then TriggerOutcome(live, Key(fd, WRITE))
    else Done
  }

  /** An event of the descriptor was registered on a thread outside any scheduler. */
  predicate Unscheduled(live: map<Key, Continuation>, fd: nat) {
    || TriggerOutcome(live, Key(fd, READ)) == NullDereference
    || TriggerOutcome(live, Key(fd, WRITE)) == NullDereference
  }

  /** Nothing goes wrong exactly when each of the events is registered, and was registered on
      a thread of a scheduler. */
  lemma TriggersDone(live: map<Key, Continuation>, fd: nat, bits: set<Kind>)
    ensures TriggersOutcome(live, fd, bits) == Done <==>
      forall k :: k in bits ==> Key(fd, k) in live && live[Key(fd, k)].scheduler.Some?
    ensures TriggersOutcome(live, fd, bits) == Aborted ==> exists k :: k in bits && Key(fd, k) !in live
    ensures TriggersOutcome(live, fd, bits) == NullDereference ==>
      exists k :: k in bits && Key(fd, k) in live && live[Key(fd, k)].scheduler.None?
  {
    forall k | k in bits ensures k == READ || k == WRITE {}
  }

  class IOManager {
    var contexts: seq<FdContext>
    var pending: nat
    var interest: map<nat, set<Kind>>       // the kernel's epoll table
    var scheduled: seq<Continuation>        // handed to Scheduler::schedule
    ghost var history: History

    /** The contexts, the counter and the scheduler agree with what happened. */
    ghost predicate Books()
      reads this
    {
      Mirrored(contexts, Live(history)) && Legal(history) && pending == |Live(history)| && scheduled == Woken(history)
    }

    ghost predicate Valid()
      reads this
    {
      Books() && Watched(contexts, interest)
    }

    constructor ()
      ensures Valid() && history == [] && |contexts| == 32
    {
      contexts := seq(32, _ => UNUSED);
      pending, interest, scheduled, history := 0, map[], [], [];
    }

    /** `contextResize`: new contexts are unused. */
    method ContextResize(size: nat)
      requires Valid() && size >= |contexts|
      modifies `contexts
      ensures Valid() && |contexts| == size && old(contexts) <= contexts
    {
      contexts := contexts + seq(size - |contexts|, _ => UNUSED);
    }

    /** `epoll_ctl`: the precondition is what the kernel demands of the operation. */
    method EpollCtl(op: CtlOp, fd: nat, events: set<Kind>, fails: bool) returns (ok: bool)
      requires if op == CTL_ADD then fd !in interest else fd in interest
      modifies `interest
      ensures ok <==> !fails
      ensures interest == if fails then old(interest) else if op == CTL_DEL then old(interest) - {fd}
        else old(interest)[fd := events]
    {
      ok := !fails;
      if ok {
        interest := if op == CTL_DEL then interest - {fd} else interest[fd := events];
      }
    }

    /** `addEvent`. */
    method AddEvent(fd: nat, k: Kind, cont: Continuation, ctlFails: bool) returns (outcome: Outcome)
      requires Valid()
      modifies this
      ensures Valid()
      ensures |contexts| == if fd < old(|contexts|) then old(|contexts|) else old(|contexts|) * 3 / 2
      ensures outcome == OutOfRange <==> fd >= old(|contexts|) && fd >= old(|contexts|) * 3 / 2
      ensures outcome == Aborted <==> Key(fd, k) in Live(old(history))
      ensures outcome == Refused <==>
        ctlFails && (fd < old(|contexts|) || fd < old(|contexts|) * 3 / 2) && Key(fd, k) !in Live(old(history))
      ensures outcome == Done <==>
        !ctlFails && (fd < old(|contexts|) || fd < old(|contexts|) * 3 / 2) && Key(fd, k) !in Live(old(history))
      ensures outcome == Done ==> history == old(history) + [Added(Key(fd, k), cont)]
      ensures outcome != Done ==> history == old(history) && interest == old(interest)
    {
      if fd >= |contexts| {
        if |contexts| * 3 / 2 > |contexts| {
          ContextResize(|contexts| * 3 / 2);
        }
        if fd >= |contexts| {
          return OutOfRange;
        }
      }
      var ctx := contexts[fd];
      assert Agrees(ctx, Live(history), fd, k);
      if k in ctx.events {
        return Aborted;
      }
      var op := if ctx.events != {} then CTL_MOD else CTL_ADD;
      var ok := EpollCtl(op, fd, ctx.events + {k}, ctlFails);
      if !ok {
        return Refused;
      }
      WatchedUpdate(contexts, old(interest), fd, Registered(ctx, k, cont));
      Enroll(fd, k, cont);
      outcome := Done;
    }

    /** The end of `addEvent`: count, set the bit, fill in the context. */
    method Enroll(fd: nat, k: Kind, cont: Continuation)
      requires Books() && fd < |contexts| && k !in contexts[fd].events
      modifies this
      ensures Books() && contexts == old(contexts)[fd := Registered(old(contexts)[fd], k, cont)]
      ensures history == old(history) + [Added(Key(fd, k), cont)]
      ensures interest == old(interest) && scheduled == old(scheduled)
    {
      MirrorAdd(contexts, history, fd, k, cont);
      pending := pending + 1;
      assert contexts[fd].Get(k) == EMPTY;       // the assertion before the context is filled in
      contexts := contexts[fd := Registered(contexts[fd], k, cont)];
      history := history + [Added(Key(fd, k), cont)];
    }

    /** `delEvent`: the event goes without being triggered. */
    method DelEvent(fd: nat, k: Kind, ctlFails: bool) returns (ok: bool)
      requires Valid()
      modifies this
      ensures Valid()
      ensures ok <==> Key(fd, k) in Live(old(history)) && !ctlFails
      ensures history == old(history) + (if ok then [Deleted(Key(fd, k))] else [])
      ensures scheduled == old(scheduled)
      ensures !ok ==> contexts == old(contexts) && pending == old(pending) && interest == old(interest)
    {
      if |contexts| <= fd {
        return false;
      }
      var ctx := contexts[fd];
      assert Agrees(ctx, Live(history), fd, k);
      if k !in ctx.events {
        return false;
      }
      var left := ctx.events - {k};
      ok := EpollCtl(if left != {} then CTL_MOD else CTL_DEL, fd, left, ctlFails);
      if !ok {
        return;
      }
      WatchedUpdate(contexts, old(interest), fd, Ended(ctx, k));
      Drop(fd, k);
    }

    /** The end of `delEvent`: the bit goes and the context is reset. */
    method Drop(fd: nat, k: Kind)
      requires Books() && fd < |contexts| && k in contexts[fd].events
      modifies this
      ensures Books() && contexts == old(contexts)[fd := Ended(old(contexts)[fd], k)]
      ensures history == old(history) + [Deleted(Key(fd, k))]
      ensures interest == old(interest) && scheduled == old(scheduled)
    {
      MirrorEnd(contexts, history, fd, k, Deleted(Key(fd, k)));
      Append(history, Deleted(Key(fd, k)));
      pending := pending - 1;
      contexts := contexts[fd := Ended(contexts[fd], k)];
      history := history + [Deleted(Key(fd, k))];
    }

    /** `triggerEvent` and the decrement that follows every call of it. */
    method Trigger(fd: nat, k: Kind) returns (outcome: Outcome)
      requires Books() && fd < |contexts|
      modifies this
      ensures outcome == TriggerOutcome(Live(old(history)), Key(fd, k))
      ensures outcome == Done ==> Books()
      ensures outcome == Done ==>
        k in old(contexts)[fd].events && contexts == old(contexts)[fd := Ended(old(contexts)[fd], k)]
      ensures outcome == Done ==> history == old(history) + [Triggered(Key(fd, k), Live(old(history))[Key(fd, k)])]
      ensures interest == old(interest) && |contexts| == old(|contexts|)
    {
      assert Agrees(contexts[fd], Live(history), fd, k);
      var next, c;
      outcome, next, c := TriggerEvent(contexts[fd], k);
      if outcome != Done {
        return;
      }
      HandOver(fd, k, next, c);
    }

    /** The context is left, its continuation is with the scheduler, the event is counted down. */
    method HandOver(fd: nat, k: Kind, next: FdContext, c: Continuation)
      requires Books() && fd < |contexts| && k in contexts[fd].events
      requires next == Ended(contexts[fd], k) && c == Resumes(contexts[fd].Get(k))
      modifies this
      ensures Books() && contexts == old(contexts)[fd := next] && interest == old(interest)
      ensures Key(fd, k) in Live(old(history)) && c == Live(old(history))[Key(fd, k)]
      ensures history == old(history) + [Triggered(Key(fd, k), c)]
    {
      MirrorEnd(contexts, history, fd, k, Triggered(Key(fd, k), c));
      Append(history, Triggered(Key(fd, k), c));
      contexts := contexts[fd := next];
      scheduled := scheduled + [c];
      pending := pending - 1;
      history := history + [Triggered(Key(fd, k), c)];
    }

    /** `cancelEvent`: the event is triggered once and goes. */
    method CancelEvent(fd: nat, k: Kind, ctlFails: bool) returns (outcome: Outcome)
      requires Valid()
      modifies this
      ensures outcome == if Key(fd, k) !in Live(old(history)) || ctlFails then Refused
        else TriggerOutcome(Live(old(history)), Key(fd, k))
      ensures outcome != NullDereference ==> Valid()
      ensures outcome == Done ==> history == old(history) + [Triggered(Key(fd, k), Live(old(history))[Key(fd, k)])]
      ensures outcome == Refused ==>
        history == old(history) && contexts == old(contexts) && pending == old(pending) && interest == old(interest)
    {
      if |contexts| <= fd {
        return Refused;
      }
      assert Agrees(contexts[fd], Live(history), fd, k);
      if k !in contexts[fd].events {
        return Refused;
      }
      var left := contexts[fd].events - {k};
      var ok := EpollCtl(if left != {} then CTL_MOD else CTL_DEL, fd, left, ctlFails);
      if !ok {
        return Refused;
      }
      WatchedUpdate(contexts, old(interest), fd, Ended(contexts[fd], k));
      outcome := Trigger(fd, k);
    }

    /** `cancelAll`: every registered event of the descriptor is triggered once, READ first. */
    method CancelAll(fd: nat, ctlFails: bool) returns (outcome: Outcome)
      requires Valid()
      modifies this
      ensures outcome == Refused <==>
        !(Key(fd, READ) in Live(old(history)) || Key(fd, WRITE) in Live(old(history))) || ctlFails
      ensures outcome == NullDereference <==> !ctlFails && Unscheduled(Live(old(history)), fd)
      ensures outcome != NullDereference ==> Valid() && (outcome == Refused || outcome == Done)
      ensures outcome == Done ==> history == Woke(old(history), fd, {READ, WRITE})
      ensures outcome == Done ==> Key(fd, READ) !in Live(history) && Key(fd, WRITE) !in Live(history)
      ensures outcome == Refused ==>
        history == old(history) && contexts == old(contexts) && pending == old(pending) && interest == old(interest)
    {
      if |contexts| <= fd {
        return Refused;
      }
      SomeLive(contexts[fd], Live(history), fd);
      if contexts[fd].events == {} {
        return Refused;
      }
      var ok := EpollCtl(CTL_DEL, fd, {}, ctlFails);
      if !ok {
        return Refused;
      }
      AllRegistered(contexts[fd], Live(history), fd);
      WokeAll(contexts[fd], history, fd);
      outcome := TriggerBits(fd, contexts[fd].events);
      if outcome == Done {
        assert contexts[fd].events == {};       // the assertion at the end of cancelAll
        SomeLive(contexts[fd], Live(history), fd);
        WatchedUpdate(old(contexts), old(interest), fd, contexts[fd]);
      }
    }

    /** The two `if (bits & k) { triggerEvent(k); --m_pendingEventCount; }`. */
    method TriggerBits(fd: nat, bits: set<Kind>) returns (outcome: Outcome)
      requires Books() && fd < |contexts|
      modifies this
      ensures outcome == TriggersOutcome(Live(old(history)), fd, bits)
      ensures interest == old(interest) && |contexts| == old(|contexts|)
      ensures outcome == Done ==> Books() && contexts == old(contexts)[fd := contexts[fd]]
      ensures outcome == Done ==>
        bits <= old(contexts)[fd].events && contexts[fd].events == old(contexts)[fd].events - bits
      ensures outcome == Done ==> history == Woke(old(history), fd, bits)
    {
      ghost var h, events := history, contexts[fd].events;
      outcome := TriggerIf(fd, READ, bits);
      if outcome != Done {
        return;
      }
      outcome := TriggerIf(fd, WRITE, bits);
      if outcome != Done {
        return;
      }
      OnlyTwo(contexts[fd].events, events - bits);
      Inside(bits, events);
    }

    /** `if (bits & k) { triggerEvent(k); --m_pendingEventCount; }`. */
    method TriggerIf(fd: nat, k: Kind, bits: set<Kind>) returns (outcome: Outcome)
      requires Books() && fd < |contexts|
      modifies this
      ensures outcome == if k in bits then TriggerOutcome(Live(old(history)), Key(fd, k)) else Done
      ensures interest == old(interest) && |contexts| == old(|contexts|)
      ensures outcome == Done ==> Books() && contexts == old(contexts)[fd := contexts[fd]]
      ensures outcome == Done && k in bits ==> k in old(contexts)[fd].events
      ensures outcome == Done ==>
        contexts[fd].events == if k in bits then old(contexts)[fd].events - {k} else old(contexts)[fd].events
      ensures outcome == Done ==> WakesIf(old(history), history, Key(fd, k), k in bits)
    {
      outcome := Done;
      if k in bits {
        outcome := Trigger(fd, k);
        if outcome == Done { Append(old(history), Triggered(Key(fd, k), Live(old(history))[Key(fd, k)])); }
      }
    }

    /** One round of the delivery loop in `idle`. Readiness `in`/`out` or an error on
        the descriptor wakes the events concerned; the kernel keeps the rest. */
    method Deliver(fd: nat, canRead: bool, canWrite: bool, broken: bool, ctlFails: bool) returns (outcome: Outcome)
      requires Valid() && fd < |contexts|
      modifies this
      ensures |contexts| == old(|contexts|)
      ensures outcome == RoundOutcome(Live(old(history)), Ready(fd, canRead, canWrite, broken, ctlFails))
      ensures outcome == Refused || outcome == Done ==> Valid()
      ensures outcome == Refused ==> history == old(history) && contexts == old(contexts)
      ensures outcome == Done ==> history == Woke(old(history), fd,
        (if canRead || (broken && Key(fd, READ) in Live(old(history))) then {READ} else {})
        + (if canWrite || (broken && Key(fd, WRITE) in Live(old(history))) then {WRITE} else {}))
      ensures outcome == Done ==>
        && (Key(fd, READ) in Live(history) <==> Key(fd, READ) in Live(old(history)) && !canRead && !broken)
        && (Key(fd, WRITE) in Live(history) <==> Key(fd, WRITE) in Live(old(history)) && !canWrite && !broken)
        && forall key: Key :: key.fd != fd ==> (key in Live(history) <==> key in Live(old(history)))
    {
      var events := contexts[fd].events;
      var bits := Real(events, canRead, canWrite, broken);
      RoundBits(contexts[fd], Live(history), fd, canRead, canWrite, broken, ctlFails);
      RoundLeaves(history, fd, bits);
      outcome := DeliverBits(fd, bits, ctlFails);
    }

    /** The round once `real_events` is known. */
    method DeliverBits(fd: nat, bits: set<Kind>, ctlFails: bool) returns (outcome: Outcome)
      requires Valid() && fd < |contexts|
      modifies this
      ensures |contexts| == old(|contexts|)
      ensures outcome == if old(contexts)[fd].events * bits == {} || ctlFails then Refused
        else TriggersOutcome(Live(old(history)), fd, bits)
      ensures outcome == Refused || outcome == Done ==> Valid()
      ensures outcome == Refused ==> history == old(history) && contexts == old(contexts)
      ensures outcome == Done ==> history == Woke(old(history), fd, bits)
    {
      var events := contexts[fd].events;
      if events * bits == {} {
        return Refused;
      }
      var left := events - bits;
      var ok := EpollCtl(if left != {} then CTL_MOD else CTL_DEL, fd, left, ctlFails);
      if !ok {
        return Refused;
      }
      outcome := TriggerBits(fd, bits);
      if outcome == Done {
        WatchedUpdate(old(contexts), old(interest), fd, contexts[fd]);
      }
    }

    /** One round of the loop: a descriptor, or the wake-up pipe, whose bytes are read away. */
    method Round(ready: seq<Readiness>, n: nat, ghost h: History) returns (outcome: Outcome)
      requires Valid() && n < |ready| && (ready[n].Ready? ==> ready[n].fd < |contexts|)
      requires history == Rounds(h, ready, n) && AllPass(h, ready, n)
      modifies this
      ensures outcome == Done || outcome == Refused ==>
        Valid() && |contexts| == old(|contexts|) && history == Rounds(h, ready, n + 1) && AllPass(h, ready, n + 1)
      ensures outcome == Done || outcome == Refused || FaultAt(h, ready, n, outcome)
    {
      outcome := Done;
      if ready[n].Ready? {
        var r := ready[n];
        outcome := Deliver(r.fd, r.canRead, r.canWrite, r.broken, r.ctlFails);
      }
    }

    /** The rounds one after the other. */
    method PlayRounds(ready: seq<Readiness>, ghost h: History) returns (outcome: Outcome, at: nat)
      requires Valid() && forall i :: 0 <= i < |ready| && ready[i].Ready? ==> ready[i].fd < |contexts|
      requires h == history
      modifies this
      ensures outcome == Done ==> Valid() && |contexts| == old(|contexts|)
      ensures outcome == Done ==> history == Rounds(h, ready, |ready|) && AllPass(h, ready, |ready|)
      ensures outcome != Done ==> FaultAt(h, ready, at, outcome)
    {
      outcome, at := Done, 0;
      while at < |ready| && outcome == Done
        invariant at <= |ready|
        invariant outcome == Done ==> Valid() && |contexts| == old(|contexts|)
        invariant outcome == Done ==> history == Rounds(h, ready, at) && AllPass(h, ready, at)
        invariant outcome != Done ==> FaultAt(h, ready, at, outcome)
        decreases |ready| - at, outcome == Done
      {
        outcome := Round(ready, at, h);
        if outcome == Done || outcome == Refused {
          outcome, at := Done, at + 1;
        }
      }
    }

    /** The delivery loop of `idle` over what `epoll_wait` returned; it answers how the round
        that stopped the program went, if one did, and how many rounds came before it. */
    method DeliverAll(ready: seq<Readiness>) returns (outcome: Outcome, at: nat)
      requires Valid() && forall i :: 0 <= i < |ready| && ready[i].Ready? ==> ready[i].fd < |contexts|
      modifies this
      ensures outcome == Done ==> Valid() && |contexts| == old(|contexts|) && OnlyWakes(old(history), history)
      ensures outcome == Done ==>
        history == Rounds(old(history), ready, |ready|) && AllPass(old(history), ready, |ready|)
      ensures outcome != Done ==> FaultAt(old(history), ready, at, outcome)
    {
      RoundsExtend(history, ready, |ready|);
      outcome, at := PlayRounds(ready, history);
    }
  }

  /** How one round of the delivery loop goes, by the registrations that are live before it:
      READ is asked for when the descriptor is ready to read, or broken with READ registered;
      WRITE likewise. */
  function RoundOutcome(live: map<Key, Continuation>, r: Readiness): (o: Outcome)
    ensures o == Done || o == Refused || o == Aborted || o == NullDereference
    ensures r.Pipe? ==> o == Done
  {
    match r
    case Pipe => Done
    case Ready(fd, canRead, canWrite, broken, ctlFails) =>
      var read := canRead || (broken && Key(fd, READ) in live);
      var write := canWrite || (broken && Key(fd, WRITE) in live);
      if ctlFails || !((read && Key(fd, READ) in live) || (write && Key(fd, WRITE) in live)) then Refused
      else if read && Key(fd, READ) !in live then Aborted
      else if read && live[Key(fd, READ)].scheduler.None? then NullDereference
      else if write && Key(fd, WRITE) !in live then Aborted
      else if write && live[Key(fd, WRITE)].scheduler.None? then NullDereference
      else Done
  }

  /** The same in what was reported and what is registered. Nothing is done when nothing that
      is registered was asked for. Readiness for what is not registered is a failed assertion,
      and a registered event without a scheduler a null pointer, whichever comes first in the
      order of READ and WRITE. */
  lemma OutcomeExactly(live: map<Key, Continuation>, fd: nat, canRead: bool, canWrite: bool, broken: bool,
      ctlFails: bool)
    ensures var o := RoundOutcome(live, Ready(fd, canRead, canWrite, broken, ctlFails));
      var r, w := Key(fd, READ), Key(fd, WRITE);
      var read, write := canRead || broken, canWrite || broken;
      var refused := ctlFails || ((r !in live || !read) && (w !in live || !write));
      var aborts :=
        if r in live then w !in live && canWrite && read && live[r].scheduler.Some? else canRead && w in live && write;
      var dangling :=
        || (r in live && read && live[r].scheduler.None?)
        || (w in live && write && live[w].scheduler.None? && (r in live || !canRead));
      && (o == Refused <==> refused)
      && (o == Aborted <==> !ctlFails && aborts)
      && (o == NullDereference <==> !ctlFails && dangling)
  {}

  /** The history after a round that lets the loop go on. */
  function RoundHistory(h: History, r: Readiness): History {
    if r.Pipe? || RoundOutcome(Live(h), r) != Done then h
    else
      var read := if r.canRead || (r.broken && Key(r.fd, READ) in Live(h)) then WakeIfLive(h, Key(r.fd, READ)) else h;
      if r.canWrite || (r.broken && Key(r.fd, WRITE) in Live(h)) then WakeIfLive(read, Key(r.fd, WRITE)) else read
  }

  /** The history after the first `n` rounds. */
  function Rounds(h: History, ready: seq<Readiness>, n: nat): History
    requires n <= |ready|
  {
    if n == 0 then h else RoundHistory(Rounds(h, ready, n - 1), ready[n - 1])
  }

  /** The round lets the loop go on. */
  predicate GoesOn(h: History, r: Readiness) {
    RoundOutcome(Live(h), r) == Done || RoundOutcome(Live(h), r) == Refused
  }

  /** None of the first `n` rounds ends in a fault. */
  predicate AllPass(h: History, ready: seq<Readiness>, n: nat)
    requires n <= |ready|
  {
    n == 0 || (AllPass(h, ready, n - 1) && GoesOn(Rounds(h, ready, n - 1), ready[n - 1]))
  }

  /** Round `n` is the first that ends in a fault, and this is which. */
  ghost predicate FaultAt(h: History, ready: seq<Readiness>, n: nat, outcome: Outcome) {
    && n < |ready| && AllPass(h, ready, n)
    && (outcome == Aborted || outcome == NullDereference)
    && RoundOutcome(Live(Rounds(h, ready, n)), ready[n]) == outcome
  }

  lemma RoundExtends(h: History, r: Readiness)
    ensures OnlyWakes(h, RoundHistory(h, r))
  {}

  lemma {:induction false} RoundsExtend(h: History, ready: seq<Readiness>, n: nat)
    requires n <= |ready|
    ensures OnlyWakes(h, Rounds(h, ready, n))
  {
    if n > 0 {
      RoundsExtend(h, ready, n - 1);
      RoundExtends(Rounds(h, ready, n - 1), ready[n - 1]);
    }
  }

  /** The round by the context's mask is the round by the live registrations. */
  lemma RoundBits(c: FdContext, live: map<Key, Continuation>, fd: nat, canRead: bool, canWrite: bool, broken: bool,
      ctlFails: bool)
    requires forall k :: Agrees(c, live, fd, k)
    ensures var bits := Real(c.events, canRead, canWrite, broken);
      && (READ in bits <==> canRead || (broken && Key(fd, READ) in live))
      && (WRITE in bits <==> canWrite || (broken && Key(fd, WRITE) in live))
      && bits == (if canRead || (broken && Key(fd, READ) in live) then {READ} else {})
           + (if canWrite || (broken && Key(fd, WRITE) in live) then {WRITE} else {})
      && RoundOutcome(live, Ready(fd, canRead, canWrite, broken, ctlFails))
           == if c.events * bits == {} || ctlFails then Refused else TriggersOutcome(live, fd, bits)
  {
    assert Agrees(c, live, fd, READ) && Agrees(c, live, fd, WRITE);
    var bits := Real(c.events, canRead, canWrite, broken);
    assert READ in c.events * bits <==> READ in c.events && READ in bits;
    assert WRITE in c.events * bits <==> WRITE in c.events && WRITE in bits;
    if c.events * bits != {} {
      var k :| k in c.events * bits;
      assert k == READ || k == WRITE;
    }
  }

  /** The continuations that wake-ups of one descriptor hand to the scheduler, READ's first. */
  lemma WokeOrder(h: History, fd: nat, bits: set<Kind>)
    ensures Woken(Woke(h, fd, bits)) == Woken(h)
      + (if READ in bits && Key(fd, READ) in Live(h) then [Live(h)[Key(fd, READ)]] else [])
      + (if WRITE in bits && Key(fd, WRITE) in Live(h) then [Live(h)[Key(fd, WRITE)]] else [])
  {
    var read := if READ in bits then WakeIfLive(h, Key(fd, READ)) else h;
    if Key(fd, READ) in Live(h) { Append(h, Triggered(Key(fd, READ), Live(h)[Key(fd, READ)])); }
    if Key(fd, WRITE) in Live(read) { Append(read, Triggered(Key(fd, WRITE), Live(read)[Key(fd, WRITE)])); }
  }

  /** What is left registered after wake-ups of one descriptor. */
  lemma RoundLeaves(h: History, fd: nat, bits: set<Kind>)
    ensures var after := Live(Woke(h, fd, bits));
      && (forall key: Key :: key.fd != fd ==> (key in after <==> key in Live(h)))
      && (Key(fd, READ) in after <==> Key(fd, READ) in Live(h) && READ !in bits)
      && (Key(fd, WRITE) in after <==> Key(fd, WRITE) in Live(h) && WRITE !in bits)
  {
    var read := if READ in bits then WakeIfLive(h, Key(fd, READ)) else h;
    if Key(fd, READ) in Live(h) { Append(h, Triggered(Key(fd, READ), Live(h)[Key(fd, READ)])); }
    if Key(fd, WRITE) in Live(read) { Append(read, Triggered(Key(fd, WRITE), Live(read)[Key(fd, WRITE)])); }
  }

  /** One entry of the array that `epoll_wait` fills: the wake-up pipe, or a descriptor. */
  datatype Readiness = Pipe | Ready(fd: nat, canRead: bool, canWrite: bool, broken: bool, ctlFails: bool)

  /** `real_events`: what is ready, and everything registered when the descriptor is broken. */
  function Real(events: set<Kind>, canRead: bool, canWrite: bool, broken: bool): set<Kind> {
    (if canRead || (broken && READ in events) then {READ} else {})
    + (if canWrite || (broken && WRITE in events) then {WRITE} else {})
  }

  /** The wake-ups of the events in `bits`, READ first. */
  function Woke(h: History, fd: nat, bits: set<Kind>): History {
    var read := if READ in bits then WakeIfLive(h, Key(fd, READ)) else h;
    if WRITE in bits then WakeIfLive(read, Key(fd, WRITE)) else read
  }

  /** Only `key` may have been woken; the other registrations are as they were. */
  ghost predicate WakesIf(h: History, h': History, key: Key, wanted: bool) {
    && h' == (if wanted then WakeIfLive(h, key) else h)
    && forall other :: other != key ==>
      (other in Live(h') <==> other in Live(h)) && (other in Live(h) ==> Live(h')[other] == Live(h)[other])
  }

  /** `h'` continues `h` with wake-ups and nothing else. */
  ghost predicate OnlyWakes(h: History, h': History) {
    h <= h' && forall i :: |h| <= i < |h'| ==> h'[i].Triggered?
  }

  lemma OnlyTwo(a: set<Kind>, b: set<Kind>)
    requires (READ in a <==> READ in b) && (WRITE in a <==> WRITE in b)
    ensures a == b
  {
    forall k: Kind ensures k in a <==> k in b { assert k == READ || k == WRITE; }
  }

  lemma Inside(a: set<Kind>, b: set<Kind>)
    requires (READ in a ==> READ in b) && (WRITE in a ==> WRITE in b)
    ensures a <= b
  {
    forall k: Kind | k in a ensures k in b { assert k == READ || k == WRITE; }
  }

  /** Triggering what is registered fails only on a null scheduler. */
  lemma AllRegistered(c: FdContext, live: map<Key, Continuation>, fd: nat)
    requires forall k :: Agrees(c, live, fd, k)
    ensures var outcome := TriggersOutcome(live, fd, c.events);
      && (outcome == Done || outcome == NullDereference)
      && (outcome == NullDereference <==> Unscheduled(live, fd))
  {
    assert Agrees(c, live, fd, READ) && Agrees(c, live, fd, WRITE);
  }

  /** Asking for every event wakes the registered ones. */
  lemma WokeAll(c: FdContext, h: History, fd: nat)
    requires forall k :: Agrees(c, Live(h), fd, k)
    ensures Woke(h, fd, c.events) == Woke(h, fd, {READ, WRITE})
  {
    assert Agrees(c, Live(h), fd, READ) && Agrees(c, Live(h), fd, WRITE);
    if Key(fd, READ) in Live(h) { Append(h, Triggered(Key(fd, READ), Live(h)[Key(fd, READ)])); }
  }

  /** The descriptor has a live registration exactly when its mask is not empty. */
  lemma SomeLive(c: FdContext, live: map<Key, Continuation>, fd: nat)
    requires forall k :: Agrees(c, live, fd, k)
    ensures c.events != {} <==> Key(fd, READ) in live || Key(fd, WRITE) in live
  {
    assert Agrees(c, live, fd, READ) && Agrees(c, live, fd, WRITE);
    if c.events != {} {
      var k :| k in c.events;
      assert k == READ || k == WRITE;
    }
  }

  function WakeIfLive(h: History, k: Key): History {
    if k in Live(h) then h + [Triggered(k, Live(h)[k])] else h
  }
}
