/** What the steps of the reactor do, told by the list, the workers and the fibers alone, and
    how they fit together: a submission is run, a fiber that gave way is taken up again, a
    callback fiber is used for the next callback. */
module ReactorSteps {
  import opened Base
  import opened RunQueue
  import opened Reactor

  // --- picking ---

  /** Worker `w` is at its loop head and entry `k` is the first that it does not pass over. */
  ghost predicate Next(s: State, w: nat, k: nat) {
    w < |s.workers| && s.workers[w].pc.Head? && FirstFree(s.queue, w, s.fibers, k)
  }

  lemma NextIs(s: State, w: nat, k: nat)
    requires Next(s, w, k)
    ensures FirstEligible(s.queue, w, s.fibers) == Some(k)
  {
    PickedExactly(s.queue, w, s.fibers);
  }

  /** A fiber that can be continued is picked and swapped in here; one that has ended is taken
      off the list and dropped. */
  lemma FiberPicked(cfg: Config, s: State, w: nat, k: nat, f: nat)
    requires Next(s, w, k) && s.queue[k].job == FiberJob(f) && f < |s.fibers|
    ensures ActionEnabled(cfg, s, w, Pick)
    ensures var t := Acted(cfg, s, w, Pick); var me := s.workers[w];
      && t.queue == s.queue[..k] + s.queue[k + 1..] && t.active == s.active + 1
      && (s.fibers[f] == INIT || s.fibers[f] == HOLD || s.fibers[f] == READY ==>
            t.fibers == s.fibers[f := EXEC] && t.workers == s.workers[w := me.(pc := RunFiber(s.queue[k], f))])
      && (s.fibers[f] == TERM || s.fibers[f] == EXCEPT ==>
            t.fibers == s.fibers && t.workers == s.workers[w := me.(pc := Drop(s.queue[k]))])
  {
    NextIs(s, w, k);
  }

  /** A callback runs in the worker's kept fiber, or in a new one. */
  lemma CallbackPicked(cfg: Config, s: State, w: nat, k: nat, slot: nat)
    requires Next(s, w, k) && s.queue[k].job.CallbackJob?
    requires match s.workers[w].cbFiber
             case Some(f) => slot == f < |s.fibers| && s.fibers[f] !in {EXEC, HOLD, READY}
             case None => slot == |s.fibers|
    ensures ActionEnabled(cfg, s, w, Pick)
    ensures var t := Acted(cfg, s, w, Pick); var me := s.workers[w];
      && t.queue == s.queue[..k] + s.queue[k + 1..] && t.active == s.active + 1
      && t.fibers == (if slot < |s.fibers| then s.fibers[slot := EXEC] else s.fibers + [EXEC])
      && t.workers == s.workers[w := me.(pc := RunCallback(s.queue[k], slot), cbFiber := Some(slot))]
  {
    NextIs(s, w, k);
  }

  /** A worker goes idle, or leaves, exactly when there is nothing in the list for it. */
  lemma IdleExactly(cfg: Config, s: State, w: nat)
    requires w < |s.workers|
    ensures ActionEnabled(cfg, s, w, Idle(Enter)) || ActionEnabled(cfg, s, w, Leave) <==>
      s.workers[w].pc.Head? && forall i :: 0 <= i < |s.queue| ==> PassedOver(s.queue[i], w, s.fibers)
    ensures ActionEnabled(cfg, s, w, Leave) ==> s.workers[w].idle == TERM
    ensures ActionEnabled(cfg, s, w, Idle(Enter)) ==> s.workers[w].idle != TERM
  {
    PickedExactly(s.queue, w, s.fibers);
  }

  // --- two and more steps ---

  /** A wake-up gets through: an event is triggered with a fiber on hold and the list empty;
      then any other worker at its loop head can take the fiber up again, and does, and the
      two counters follow. */
  lemma WokenRuns(cfg: Config, s: State, v: nat, w: nat, f: nat) returns (a: State, b: State, c: State)
    requires v < |s.workers| && w < |s.workers| && v != w && s.queue == [] && s.events > 0
    requires f < |s.fibers| && s.fibers[f] == HOLD && s.workers[w].pc.Head?
    requires ActionEnabled(cfg, s, v, Trigger(FiberJob(f)))
    ensures a == Acted(cfg, s, v, Trigger(FiberJob(f))) && ActionEnabled(cfg, a, w, Pick)
    ensures b == Acted(cfg, a, w, Pick) && ActionEnabled(cfg, b, v, Settle)
    ensures c == Acted(cfg, b, v, Settle)
    ensures c.workers[w].pc == RunFiber(Entry(s.tickets, FiberJob(f), -1), f) && c.fibers == s.fibers[f := EXEC]
    ensures c.queue == [] && c.active == s.active + 1
    ensures c.events == s.events - 1 && c.pending == s.pending - 1 && c.timers == s.timers
  {
    a := Acted(cfg, s, v, Trigger(FiberJob(f)));
    assert a.queue == [Entry(s.tickets, FiberJob(f), -1)];
    FiberPicked(cfg, a, w, 0, f);
    assert a.queue[..0] + a.queue[1..] == [];
    b := Acted(cfg, a, w, Pick);
    c := Acted(cfg, b, v, Settle);
  }

  /** A running fiber can come back in every way there is: held, ended, failed, or, when tasks
      yield, ready. */
  lemma ComesBackExactly(cfg: Config, s: State, w: nat, o: FiberState)
    requires w < |s.workers| && (s.workers[w].pc.RunFiber? || s.workers[w].pc.RunCallback?)
    requires s.workers[w].owes == 0 && cfg.endsScheduled && !Blank(s, w)
    ensures ActionEnabled(cfg, s, w, Finish(o)) <==>
      o != INIT && o != EXEC && (o == READY ==> cfg.yieldsReady)
  {}

  /** A fiber that yields READY goes to the end of the list, free for any worker, with both
      counters as before it ran. */
  lemma ReadyReturns(cfg: Config, s: State, w: nat)
    requires w < |s.workers| && ActionEnabled(cfg, s, w, Finish(READY))
    requires s.workers[w].pc.fiber < |s.fibers|
    ensures var f, a := s.workers[w].pc.fiber, Acted(cfg, s, w, Finish(READY));
      && a.queue == s.queue && a.active == s.active - 1 && ActionEnabled(cfg, a, w, Reschedule)
      && var b := Acted(cfg, a, w, Reschedule);
        && b.queue == s.queue + [Entry(s.tickets, FiberJob(f), -1)] && b.fibers == s.fibers[f := READY]
        && b.active == s.active - 1 && b.workers[w].pc == Head
        && (s.workers[w].pc.RunCallback? ==> b.workers[w].cbFiber == None)
        && (s.workers[w].pc.RunFiber? ==> b.workers[w].cbFiber == s.workers[w].cbFiber)
  {}

  /** A fiber that is held is left alone: in no list and in no worker's slot. */
  lemma HeldRests(cfg: Config, s: State, w: nat)
    requires w < |s.workers| && ActionEnabled(cfg, s, w, Finish(HOLD)) && s.workers[w].pc.fiber < |s.fibers|
    ensures var f, a := s.workers[w].pc.fiber, Acted(cfg, s, w, Finish(HOLD));
      && a.queue == s.queue && a.fibers == s.fibers[f := HOLD] && a.active == s.active - 1
      && a.workers[w].pc == Head && (s.workers[w].pc.RunCallback? ==> a.workers[w].cbFiber == None)
  {}

  /** One that ends stays ended, in the state it ended in; a callback's fiber is used for the
      worker's next callback instead. */
  lemma EndedFiberServes(cfg: Config, s: State, w: nat, o: FiberState, a: State, k: nat) returns (b: State)
    requires w < |s.workers| && (o == TERM || o == EXCEPT) && ActionEnabled(cfg, s, w, Finish(o))
    requires s.workers[w].pc.RunCallback? && s.workers[w].pc.fiber < |s.fibers|
    requires s.workers[w].cbFiber == Some(s.workers[w].pc.fiber) && s.fibers[s.workers[w].pc.fiber] == EXEC
    requires a == Acted(cfg, s, w, Finish(o)) && FirstFree(a.queue, w, a.fibers, k) && a.queue[k].job.CallbackJob?
    ensures a.queue == s.queue && a.fibers == s.fibers[s.workers[w].pc.fiber := INIT] && a.active == s.active - 1
    ensures w < |a.workers| && a.workers[w].pc == Head && ActionEnabled(cfg, a, w, Pick)
    ensures b == Acted(cfg, a, w, Pick) && b.fibers == s.fibers && b.active == s.active
    ensures w < |b.workers| && b.workers[w].pc == RunCallback(s.queue[k], s.workers[w].pc.fiber)
  {
    CallbackPicked(cfg, a, w, k, s.workers[w].pc.fiber);
    b := Acted(cfg, a, w, Pick);
  }

  lemma EndedStays(cfg: Config, s: State, w: nat, o: FiberState)
    requires w < |s.workers| && (o == TERM || o == EXCEPT) && ActionEnabled(cfg, s, w, Finish(o))
    requires s.workers[w].pc.RunFiber? && s.workers[w].pc.fiber < |s.fibers|
    ensures var a := Acted(cfg, s, w, Finish(o));
      && a.queue == s.queue && a.fibers == s.fibers[s.workers[w].pc.fiber := o] && a.active == s.active - 1
      && a.workers == s.workers[w := s.workers[w].(pc := Head)]
  {}

  /** The expired timers' callbacks go to the end of the list, in order, free for any worker;
      the one-shots among them are armed no longer. */
  lemma {:induction false} AllAppended(s: State, cbs: seq<nat>)
    ensures EnqueueAll(s, cbs).queue == s.queue + seq(|cbs|, i requires 0 <= i < |cbs| =>
      Entry(s.tickets + i, CallbackJob(cbs[i]), -1))
    decreases |cbs|
  {
    if cbs != [] {
      var u := Enqueue(s, CallbackJob(cbs[0]), -1);
      AllAppended(u, cbs[1..]);
      var rest := seq(|cbs| - 1, i requires 0 <= i < |cbs| - 1 =>
        Entry(u.tickets + i, CallbackJob(cbs[1..][i]), -1));
      var all := seq(|cbs|, i requires 0 <= i < |cbs| => Entry(s.tickets + i, CallbackJob(cbs[i]), -1));
      assert all == [all[0]] + rest;
      assert s.queue + [all[0]] + rest == s.queue + all;
    }
  }

  lemma CollectedSubmitted(cfg: Config, s: State, w: nat, cbs: seq<nat>, oneShots: nat)
    requires w < |s.workers| && ActionEnabled(cfg, s, w, Idle(Collect(cbs, oneShots)))
    ensures var a := Acted(cfg, s, w, Idle(Collect(cbs, oneShots)));
      && a.queue == s.queue && a.timers == s.timers - oneShots && ActionEnabled(cfg, a, w, Idle(ScheduleCollected))
      && var b := Acted(cfg, a, w, Idle(ScheduleCollected));
        && b.queue == s.queue + seq(|cbs|, i requires 0 <= i < |cbs| =>
             Entry(s.tickets + i, CallbackJob(cbs[i]), -1))
        && b.timers == s.timers - oneShots && b.active == s.active && b.fibers == s.fibers
  {
    AllAppended(Acted(cfg, s, w, Idle(Collect(cbs, oneShots))), cbs);
  }

  /** A new fiber can be scheduled: it is INIT, and the only change but for the entry at the
      end of the list. */
  lemma NewScheduled(cfg: Config, s: State, thread: int)
    requires forall w :: 0 <= w < |s.workers| ==> s.workers[w].cbFiber != Some(|s.fibers|)
    ensures var a, spawn := TaskDone(s, NewFiber), Spawn(FiberJob(|s.fibers|), thread);
      && a == s.(fibers := s.fibers + [INIT]) && TaskEnabled(cfg, a, spawn)
      && var b := TaskDone(a, spawn);
        && b.queue == s.queue + [Entry(s.tickets, FiberJob(|s.fibers|), thread)]
        && b.fibers == s.fibers + [INIT] && b.workers == s.workers && b.active == s.active
        && b.timers == s.timers && b.events == s.events && b.pending == s.pending
  {}

  /** What a task or somebody outside creates and takes away again leaves no trace but its
      number. */
  lemma ArmDisarm(cfg: Config, s: State)
    ensures TaskEnabled(cfg, s, Arm) && TaskDone(s, Arm).timers == s.timers + 1
    ensures TaskEnabled(cfg, TaskDone(s, Arm), Disarm) && TaskDone(TaskDone(s, Arm), Disarm) == s
  {}

  lemma RegisterUnregister(cfg: Config, s: State)
    ensures TaskEnabled(cfg, s, Register)
    ensures TaskDone(s, Register).events == s.events + 1 && TaskDone(s, Register).pending == s.pending + 1
    ensures TaskEnabled(cfg, TaskDone(s, Register), Unregister) && TaskDone(TaskDone(s, Register), Unregister) == s
  {}

  /** `cancelEvent` by somebody outside: the continuation is submitted and the event counted
      down, with nothing owed in the end. */
  lemma CancelledOutside(cfg: Config, s: State, job: Job)
    requires OutsideEnabled(cfg, s, Cancels(job))
    ensures var a := OutsideDone(cfg, s, Cancels(job));
      && a.queue == s.queue + [Entry(s.tickets, job, -1)] && a.pending == s.pending && OutsideEnabled(cfg, a, Settles)
      && var b := OutsideDone(cfg, a, Settles);
        && b.events == s.events - 1 && b.pending == s.pending - 1 && b.outsideOwes == s.outsideOwes
        && b.queue == a.queue && b.workers == s.workers
  {}

  // --- going idle ---

  /** `stopping()` in one step or in three reads: it says no exactly when one of the things it
      looks at is not so, and the worker then waits. */
  lemma StoppingExactly(cfg: Config, s: State, w: nat)
    requires w < |s.workers|
    ensures cfg.atomicStopping && s.workers[w].pc == Poll(0) ==>
      var quiet := s.timers == 0 && s.pending == 0 && s.stopped && s.queue == [] && s.active == 0;
      && (ActionEnabled(cfg, s, w, Idle(SeeStopping)) <==> quiet)
      && (ActionEnabled(cfg, s, w, Idle(KeepGoing)) <==> !quiet)
    ensures !cfg.atomicStopping && s.workers[w].pc == Poll(0) ==>
      && (ActionEnabled(cfg, s, w, Idle(ReadTimers)) <==> s.timers == 0)
      && (ActionEnabled(cfg, s, w, Idle(KeepGoing)) <==> s.timers > 0)
    ensures !cfg.atomicStopping && s.workers[w].pc == Poll(1) ==>
      && (ActionEnabled(cfg, s, w, Idle(ReadPending)) <==> s.pending == 0)
      && (ActionEnabled(cfg, s, w, Idle(KeepGoing)) <==> s.pending != 0)
    ensures !cfg.atomicStopping && s.workers[w].pc == Poll(2) ==>
      var quiet := s.stopped && s.queue == [] && s.active == 0;
      && (ActionEnabled(cfg, s, w, Idle(ReadQueue)) <==> quiet)
      && (ActionEnabled(cfg, s, w, Idle(KeepGoing)) <==> !quiet)
    ensures ActionEnabled(cfg, s, w, Idle(KeepGoing)) ==> Acted(cfg, s, w, Idle(KeepGoing)).workers[w].pc == Wait
  {}

  lemma PollMoves(cfg: Config, s: State, w: nat) returns (a: Action)
    requires w < |s.workers| && s.workers[w].pc.Poll?
    requires s.workers[w].pc.seen == 0 || (!cfg.atomicStopping && s.workers[w].pc.seen <= 2)
    ensures ActionEnabled(cfg, s, w, a)
  {
    var seen := s.workers[w].pc.seen;
    a := Idle(if cfg.atomicStopping then SeeStopping else if seen == 0 then ReadTimers
              else if seen == 1 then ReadPending else ReadQueue);
    if !ActionEnabled(cfg, s, w, a) { a := Idle(KeepGoing); }
  }

  lemma HeadMoves(cfg: Config, s: State, w: nat)
    requires w < |s.workers| && s.workers[w].pc.Head?
    ensures ActionEnabled(cfg, s, w, Pick) || ActionEnabled(cfg, s, w, Idle(Enter)) || ActionEnabled(cfg, s, w, Leave)
      <==> forall k :: Next(s, w, k) ==> EntryRuns(s, w, k)
  {
    PickedExactly(s.queue, w, s.fibers);
  }

  /** A worker that can go no further has left its loop, or fails an assertion on the next
      entry: the fiber to swap in is EXEC, or the one kept for callbacks is in use. */
  lemma StuckExactly(cfg: Config, s: State, w: nat)
    requires w < |s.workers| && s.workers[w].owes == 0
    requires s.workers[w].pc.Poll? ==> s.workers[w].pc.seen == 0 || (!cfg.atomicStopping && s.workers[w].pc.seen <= 2)
    ensures (exists a :: ActionEnabled(cfg, s, w, a)) <==>
      && !s.workers[w].pc.Gone?
      && forall k :: Next(s, w, k) ==> EntryRuns(s, w, k)
  {
    match s.workers[w].pc
    case Head => HeadMoves(cfg, s, w);
    case RunFiber(_, _) => assert ActionEnabled(cfg, s, w, Finish(EXCEPT));
    case RunCallback(_, _) => assert ActionEnabled(cfg, s, w, Finish(HOLD));
    case Drop(_) => assert ActionEnabled(cfg, s, w, Dropped);
    case Requeue(_) => assert ActionEnabled(cfg, s, w, Reschedule);
    case Poll(_) =>
      var a := PollMoves(cfg, s, w);
    case Wait => assert ActionEnabled(cfg, s, w, Idle(Collect([], 0)));
    case Collected(_) => assert ActionEnabled(cfg, s, w, Idle(ScheduleCollected));
    case Deliver => assert ActionEnabled(cfg, s, w, Idle(SwapOut));
    case Gone =>
  }
}
