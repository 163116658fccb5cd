/** The fiber life cycle under the reactor protocol, whatever tasks schedule: no fiber runs
    on two workers, no worker runs an entry pinned to another thread, and every fiber goes
    through the states in order. */
module ReactorFibers {
  import opened Base
  import opened RunQueue
  import opened Reactor

  predicate IdleShape(me: Worker) {
    && (InIdle(me.pc) ==> me.idle == EXEC)
    && (!InIdle(me.pc) ==> me.idle == INIT || me.idle == HOLD || me.idle == TERM)
    && (me.pc.Gone? ==> me.idle == TERM)
  }

  /** The worker's fiber slots agree with where it is. The fiber that it keeps for its next
      callback has been reset; a stray entry may be running it, or have run it into an
      exception. */
  predicate FiberShape(me: Worker, fibers: seq<FiberState>) {
    && (me.cbFiber.Some? ==> me.cbFiber.value < |fibers|)
    && (me.cbFiber.Some? && !me.pc.RunCallback? ==> Kept(fibers[me.cbFiber.value]))
    && (me.pc.RunCallback? ==> me.cbFiber == Some(me.pc.fiber) && me.pc.entry.job.CallbackJob?)
    && (me.pc.RunFiber? ==> me.pc.entry.job == FiberJob(me.pc.fiber))
    && (Running(me.pc) ==> me.pc.fiber < |fibers| && fibers[me.pc.fiber] == EXEC)
    && (me.pc.Requeue? ==> me.pc.fiber < |fibers| && me.cbFiber != Some(me.pc.fiber))
  }

  predicate Kept(st: FiberState) {
    st == INIT || st == EXEC || st == EXCEPT
  }

  /** Two workers neither keep nor run the same fiber. */
  predicate Apart(a: Worker, b: Worker) {
    && (a.cbFiber.Some? ==> a.cbFiber != b.cbFiber)
    && (a.cbFiber.Some? && b.pc.Requeue? ==> a.cbFiber.value != b.pc.fiber)
    && (Executing(a.pc).Some? ==> Executing(a.pc) != Executing(b.pc))
  }

  /** A worker holds only entries that are free or pinned to it. */
  predicate Pinned(me: Worker, w: nat) {
    Busy(me.pc) ==> MayHold(me.pc.entry, w)
  }

  predicate MayHold(e: Entry, w: nat) {
    e.thread == -1 || e.thread == w
  }

  ghost predicate Wired(s: State) {
    && (forall w :: 0 <= w < |s.workers| ==> Pinned(s.workers[w], w))
    && (forall w :: 0 <= w < |s.workers| ==> IdleShape(s.workers[w]) && FiberShape(s.workers[w], s.fibers))
    && (forall v, w :: 0 <= v < |s.workers| && 0 <= w < |s.workers| && v != w ==> Apart(s.workers[v], s.workers[w]))
    && (forall i :: 0 <= i < |s.queue| && s.queue[i].job.FiberJob? ==> s.queue[i].job.fiber < |s.fibers|)
  }

  lemma InitWired(cfg: Config, s: State)
    requires Init(cfg, s)
    ensures Wired(s)
  {}

  predicate Exists(s: State, job: Job) {
    job.FiberJob? ==> job.fiber < |s.fibers|
  }

  lemma EnqueueWired(s: State, job: Job, thread: int)
    requires Wired(s) && Exists(s, job)
    ensures Wired(Enqueue(s, job, thread))
  {}

  lemma {:induction false} EnqueueAllWired(s: State, cbs: seq<nat>)
    requires Wired(s)
    ensures Wired(EnqueueAll(s, cbs))
    decreases |cbs|
  {
    if cbs != [] {
      EnqueueWired(s, CallbackJob(cbs[0]), -1);
      EnqueueAllWired(Enqueue(s, CallbackJob(cbs[0]), -1), cbs[1..]);
    }
  }

  /** A worker moves on without touching any fiber. */
  lemma MoveWired(s: State, w: nat, x: Worker)
    requires Wired(s) && w < |s.workers| && IdleShape(x) && !Running(x.pc) && !x.pc.Requeue? && Pinned(x, w)
    requires !s.workers[w].pc.RunCallback? && x.cbFiber == s.workers[w].cbFiber
    ensures Wired(With(s, w, x))
  {}

  lemma WithoutWired(s: State, k: nat)
    requires Wired(s) && k < |s.queue|
    ensures Wired(s.(queue := Without(s.queue, k)))
  {
    var t := s.(queue := Without(s.queue, k));
    forall i | 0 <= i < |t.queue| ensures t.queue[i] == s.queue[if i < k then i else i + 1] {}
  }

  lemma RunFiberWired(s: State, w: nat, e: Entry, f: nat)
    requires Wired(s) && w < |s.workers| && s.workers[w].pc.Head? && e.job == FiberJob(f) && MayHold(e, w)
    requires f < |s.fibers| && s.fibers[f] != EXEC
    ensures Wired(SetFiber(With(s, w, s.workers[w].(pc := RunFiber(e, f))), f, EXEC))
  {
    forall v | 0 <= v < |s.workers| ensures Executing(s.workers[v].pc) != Some(f) {
      assert FiberShape(s.workers[v], s.fibers);
    }
  }

  lemma ReuseWired(s: State, w: nat, e: Entry)
    requires Wired(s) && w < |s.workers| && s.workers[w].pc.Head? && e.job.CallbackJob? && MayHold(e, w)
    requires s.workers[w].cbFiber.Some? && s.fibers[s.workers[w].cbFiber.value] != EXEC
    ensures Wired(SetFiber(With(s, w, s.workers[w].(pc := RunCallback(e, s.workers[w].cbFiber.value))),
      s.workers[w].cbFiber.value, EXEC))
  {
    forall v | 0 <= v < |s.workers| ensures Executing(s.workers[v].pc) != s.workers[w].cbFiber {
      assert FiberShape(s.workers[v], s.fibers);
    }
  }

  lemma FreshWired(s: State, w: nat, e: Entry)
    requires Wired(s) && w < |s.workers| && s.workers[w].pc.Head? && e.job.CallbackJob? && MayHold(e, w)
      && s.workers[w].cbFiber.None?
    ensures Wired(With(s, w,
      s.workers[w].(pc := RunCallback(e, |s.fibers|), cbFiber := Some(|s.fibers|))).(fibers := s.fibers + [EXEC]))
  {}

  /** Nobody else runs the fiber that a worker runs. */
  lemma OnlyRunner(s: State, w: nat, v: nat)
    requires Wired(s) && w < |s.workers| && v < |s.workers| && v != w && Running(s.workers[w].pc)
    ensures Executing(s.workers[v].pc) != Some(s.workers[w].pc.fiber)
    ensures s.workers[w].pc.RunCallback? ==> s.workers[v].cbFiber != Some(s.workers[w].pc.fiber)
  {
    assert Apart(s.workers[v], s.workers[w]) && Apart(s.workers[w], s.workers[v]);
  }

  /** A fiber picked from the list comes back, with an exception if it was blank. */
  lemma FiberBackWired(s: State, w: nat, o: FiberState, pc: Pc)
    requires Wired(s) && w < |s.workers| && s.workers[w].pc.RunFiber? && o != EXEC
    requires pc == Head || (pc == Requeue(s.workers[w].pc.fiber) && o == READY)
    requires Blank(s, w) ==> o == EXCEPT
    ensures Wired(SetFiber(With(s, w, s.workers[w].(pc := pc)), s.workers[w].pc.fiber, o))
  {
    var f := s.workers[w].pc.fiber;
    var t := SetFiber(With(s, w, s.workers[w].(pc := pc)), f, o);
    forall v | 0 <= v < |s.workers| ensures s.workers[v].cbFiber == Some(f) ==>
      o == EXCEPT && !s.workers[v].pc.RunCallback? {
      if v != w { OnlyRunner(s, w, v); }
    }
    forall v | 0 <= v < |s.workers| ensures IdleShape(t.workers[v]) && FiberShape(t.workers[v], t.fibers) {
      assert IdleShape(s.workers[v]) && FiberShape(s.workers[v], s.fibers);
      if v != w { OnlyRunner(s, w, v); }
    }
    forall u, v | 0 <= u < |s.workers| && 0 <= v < |s.workers| && u != v ensures Apart(t.workers[u], t.workers[v]) {
      assert Apart(s.workers[u], s.workers[v]);
    }
  }

  /** A callback fiber that is held or ready leaves the worker's slot. */
  lemma CallbackOutWired(s: State, w: nat, o: FiberState, pc: Pc)
    requires Wired(s) && w < |s.workers| && s.workers[w].pc.RunCallback? && o != EXEC
    requires pc == Head || pc == Requeue(s.workers[w].pc.fiber)
    ensures Wired(SetFiber(With(s, w, s.workers[w].(pc := pc, cbFiber := None)), s.workers[w].pc.fiber, o))
  {
    forall v | 0 <= v < |s.workers| && v != w ensures s.workers[v].cbFiber != Some(s.workers[w].pc.fiber)
      && Executing(s.workers[v].pc) != Some(s.workers[w].pc.fiber) {
      OnlyRunner(s, w, v);
    }
  }

  /** A callback fiber that ended is reset and stays in the slot. */
  lemma CallbackResetWired(s: State, w: nat)
    requires Wired(s) && w < |s.workers| && s.workers[w].pc.RunCallback?
    ensures Wired(SetFiber(With(s, w, s.workers[w].(pc := Head)), s.workers[w].pc.fiber, INIT))
  {
    forall v | 0 <= v < |s.workers| && v != w ensures s.workers[v].cbFiber != Some(s.workers[w].pc.fiber)
      && Executing(s.workers[v].pc) != Some(s.workers[w].pc.fiber) {
      OnlyRunner(s, w, v);
    }
  }

  /** `Wired` does not look at the counters. */
  lemma CountersWired(s: State, t: State)
    requires Wired(s) && t.queue == s.queue && t.workers == s.workers && t.fibers == s.fibers
    ensures Wired(t)
  {}

  lemma TakenWired(s: State, w: nat, k: nat)
    requires Wired(s) && w < |s.workers| && k < |s.queue|
    ensures Wired(s.(queue := Without(s.queue, k), active := s.active + 1))
  {
    WithoutWired(s, k);
    var u := s.(queue := Without(s.queue, k));
    CountersWired(u, u.(active := s.active + 1));
  }

  lemma PickedWired(s: State, w: nat)
    requires Wired(s) && w < |s.workers| && s.workers[w].pc.Head? && FirstEligible(s.queue, w, s.fibers).Some?
    requires EntryRuns(s, w, FirstEligible(s.queue, w, s.fibers).value)
    ensures Wired(Picked(s, w))
  {
    var k := FirstEligible(s.queue, w, s.fibers).value;
    TakenWired(s, w, k);
    if s.queue[k].job.FiberJob? { PickedFiberWired(s, w, k); } else { PickedCallbackWired(s, w, k); }
  }

  lemma PickedFiberWired(s: State, w: nat, k: nat)
    requires Wired(s) && w < |s.workers| && s.workers[w].pc.Head? && FirstEligible(s.queue, w, s.fibers) == Some(k)
    requires s.queue[k].job.FiberJob?
    requires Wired(s.(queue := Without(s.queue, k), active := s.active + 1))
    ensures Wired(Picked(s, w))
  {
    var e := s.queue[k];
    var f, taken := e.job.fiber, s.(queue := Without(s.queue, k), active := s.active + 1);
    TakeFiberWired(taken, w, e, f);
    if StateOf(s.fibers, f) == TERM || StateOf(s.fibers, f) == EXCEPT {
      assert Picked(s, w) == With(taken, w, s.workers[w].(pc := Drop(e)));
    } else {
      assert Picked(s, w) == SetFiber(With(taken, w, s.workers[w].(pc := RunFiber(e, f))), f, EXEC);
    }
  }

  lemma PickedCallbackWired(s: State, w: nat, k: nat)
    requires w < |s.workers| && s.workers[w].pc.Head? && FirstEligible(s.queue, w, s.fibers) == Some(k)
    requires s.queue[k].job.CallbackJob? && EntryRuns(s, w, k)
    requires Wired(s.(queue := Without(s.queue, k), active := s.active + 1))
    ensures Wired(Picked(s, w))
  {
    var u := s.(queue := Without(s.queue, k), active := s.active + 1);
    assert FiberShape(u.workers[w], u.fibers);
    if s.workers[w].cbFiber.Some? { ReuseWired(u, w, s.queue[k]); } else { FreshWired(u, w, s.queue[k]); }
  }

  lemma TakeFiberWired(s: State, w: nat, e: Entry, f: nat)
    requires Wired(s) && w < |s.workers| && s.workers[w].pc.Head? && e.job == FiberJob(f) && MayHold(e, w)
    requires f < |s.fibers| && s.fibers[f] != EXEC
    ensures Wired(With(s, w, s.workers[w].(pc := Drop(e))))
    ensures Wired(SetFiber(With(s, w, s.workers[w].(pc := RunFiber(e, f))), f, EXEC))
  {
    MoveWired(s, w, s.workers[w].(pc := Drop(e)));
    RunFiberWired(s, w, e, f);
  }

  lemma FinishedWired(s: State, w: nat, o: FiberState)
    requires Wired(s) && w < |s.workers| && Running(s.workers[w].pc)
    requires o == HOLD || o == TERM || o == EXCEPT || o == READY
    requires Blank(s, w) ==> o == EXCEPT
    ensures Wired(Finished(s, w, o))
  {
    var me := s.workers[w];
    var f := me.pc.fiber;
    var u := s.(active := s.active - 1, done := s.done + multiset{me.pc.entry});
    CountersWired(s, u);
    if me.pc.RunFiber? {
      assert Blank(u, w) ==> Blank(s, w);
      FiberBackWired(u, w, o, if o == READY then Requeue(f) else Head);
    } else if o == READY || o == HOLD {
      CallbackOutWired(u, w, o, if o == READY then Requeue(f) else Head);
    } else {
      CallbackResetWired(u, w);
    }
  }

  lemma RescheduledWired(s: State, w: nat)
    requires Wired(s) && w < |s.workers| && s.workers[w].pc.Requeue?
    ensures Wired(Rescheduled(s, w))
  {
    var f := s.workers[w].pc.fiber;
    assert FiberShape(s.workers[w], s.fibers);
    EnqueueWired(s, FiberJob(f), -1);
    var u := Enqueue(s, FiberJob(f), -1);
    MoveWired(u, w, s.workers[w].(pc := Head));
  }

  lemma TaskWired(cfg: Config, s: State, a: TaskAction)
    requires Wired(s) && TaskEnabled(cfg, s, a)
    ensures Wired(TaskDone(s, a))
  {
    if a.Spawn? { EnqueueWired(s, a.job, a.thread); }
  }

  lemma OwesWired(s: State, w: nat, owes: nat)
    requires Wired(s) && w < |s.workers|
    ensures Wired(With(s, w, s.workers[w].(owes := owes)))
  {}

  lemma IdleWired(cfg: Config, s: State, w: nat, a: IdleAction)
    requires Wired(s) && w < |s.workers| && IdleEnabled(cfg, s, w, a)
    ensures Wired(IdleMoved(s, w, a))
  {
    var me := s.workers[w];
    if a.ScheduleCollected? {
      EnqueueAllWired(s, me.pc.cbs);
      MoveWired(EnqueueAll(s, me.pc.cbs), w, IdleNext(me, a));
    } else {
      MoveWired(s, w, IdleNext(me, a));
    }
  }

  lemma TriggeredWired(s: State, w: nat, job: Job)
    requires Wired(s) && w < |s.workers| && s.events > 0 && Exists(s, job)
    ensures Wired(Triggered(s, w, job))
  {
    EnqueueWired(s, job, -1);
    var u := Enqueue(s, job, -1);
    CountersWired(u, u.(events := s.events - 1));
    OwesWired(u.(events := s.events - 1), w, s.workers[w].owes + 1);
  }

  lemma SettledWired(s: State, w: nat)
    requires Wired(s) && w < |s.workers| && s.workers[w].owes > 0
    ensures Wired(Settled(s, w))
  {
    OwesWired(s, w, s.workers[w].owes - 1);
    var u := With(s, w, s.workers[w].(owes := s.workers[w].owes - 1));
    CountersWired(u, Settled(s, w));
  }

  lemma DiscardedWired(s: State, w: nat)
    requires Wired(s) && w < |s.workers| && s.workers[w].pc.Drop?
    ensures Wired(Discarded(s, w))
  {
    MoveWired(s, w, s.workers[w].(pc := Head));
    CountersWired(With(s, w, s.workers[w].(pc := Head)), Discarded(s, w));
  }

  lemma LeftWired(s: State, w: nat)
    requires Wired(s) && w < |s.workers| && s.workers[w].pc.Head? && s.workers[w].idle == TERM
    ensures Wired(With(s, w, s.workers[w].(pc := Gone)))
  {
    MoveWired(s, w, s.workers[w].(pc := Gone));
  }

  lemma ActedWired(cfg: Config, s: State, w: nat, action: Action)
    requires Wired(s) && w < |s.workers| && ActionEnabled(cfg, s, w, action)
    ensures Wired(Acted(cfg, s, w, action))
  {
    match action
    case Pick => PickedWired(s, w);
    case Dropped => DiscardedWired(s, w);
    case Task(a) => TaskWired(cfg, s, a);
    case Trigger(job) => TriggeredWired(s, w, job);
    case Settle => SettledWired(s, w);
    case Finish(o) => FinishedWired(s, w, o);
    case Reschedule => RescheduledWired(s, w);
    case Idle(a) => IdleWired(cfg, s, w, a);
    case Leave => LeftWired(s, w);
  }

  lemma OutsideWired(cfg: Config, s: State, o: OutsideAction)
    requires Wired(s) && OutsideEnabled(cfg, s, o)
    ensures Wired(OutsideDone(cfg, s, o))
  {
    match o
    case Does(a) => TaskWired(cfg, s, a);
    case Cancels(job) =>
      EnqueueWired(s, job, -1);
      CountersWired(Enqueue(s, job, -1), OutsideDone(cfg, s, o));
    case Settles => CountersWired(s, OutsideDone(cfg, s, o));
    case Stop => CountersWired(s, OutsideDone(cfg, s, o));
  }

  lemma StepWired(cfg: Config, s: State, e: Event)
    requires Wired(s) && Enabled(cfg, s, e)
    ensures Wired(Apply(cfg, s, e))
  {
    match e
    case Event(w, action) => ActedWired(cfg, s, w, action);
    case Outside(o) => OutsideWired(cfg, s, o);
  }

  lemma {:induction false} RunWired(cfg: Config, s: State, trace: seq<Event>, t: State)
    requires Wired(s) && Run(cfg, s, trace, t)
    ensures Wired(t)
    decreases |trace|
  {
    if trace != [] {
      StepWired(cfg, s, trace[0]);
      RunWired(cfg, Apply(cfg, s, trace[0]), trace[1..], t);
    }
  }

  /** No two workers execute the same fiber, and none executes an entry pinned elsewhere. */
  lemma NoSharedFiber(cfg: Config, s: State, trace: seq<Event>, t: State, v: nat, w: nat)
    requires Init(cfg, s) && Run(cfg, s, trace, t)
    requires v < |t.workers| && w < |t.workers| && Running(t.workers[v].pc)
    ensures t.workers[v].pc.entry.thread == -1 || t.workers[v].pc.entry.thread == v
    ensures t.workers[v].pc.fiber < |t.fibers| && t.fibers[t.workers[v].pc.fiber] == EXEC
    ensures v != w && Running(t.workers[w].pc) ==> t.workers[w].pc.fiber != t.workers[v].pc.fiber
  {
    InitWired(cfg, s);
    RunWired(cfg, s, trace, t);
    assert Pinned(t.workers[v], v) && FiberShape(t.workers[v], t.fibers);
    if v != w { assert Apart(t.workers[v], t.workers[w]); }
  }

  /** The transitions of `m_state` that the protocol can make: entry from INIT, HOLD or
      READY, or through `reset`. A callback fiber's end and its reset for the next callback
      appear as one transition. */
  predicate Edge(a: FiberState, b: FiberState, reset: bool) {
    || a == b
    || (b == EXEC && (a == INIT || a == HOLD || a == READY || (reset && (a == TERM || a == EXCEPT))))
    || (a == EXEC && (b == HOLD || b == READY || b == TERM || b == EXCEPT || b == INIT))
  }

  /** The step takes a callback and resets fiber `f` for it. */
  predicate Resets(s: State, e: Event, f: nat) {
    && e.Event? && e.action.Pick? && e.worker < |s.workers| && s.workers[e.worker].cbFiber == Some(f)
    && FirstEligible(s.queue, e.worker, s.fibers).Some?
    && s.queue[FirstEligible(s.queue, e.worker, s.fibers).value].job.CallbackJob?
  }

  lemma PickedEdge(s: State, w: nat, f: nat)
    requires w < |s.workers| && FiberShape(s.workers[w], s.fibers) && s.workers[w].pc.Head?
    requires FirstEligible(s.queue, w, s.fibers).Some? && f < |s.fibers|
    requires EntryRuns(s, w, FirstEligible(s.queue, w, s.fibers).value)
    ensures f < |Picked(s, w).fibers| && Edge(s.fibers[f], Picked(s, w).fibers[f], Resets(s, Event(w, Pick), f))
  {}

  lemma FinishedEdge(s: State, w: nat, o: FiberState, f: nat)
    requires w < |s.workers| && Running(s.workers[w].pc) && FiberShape(s.workers[w], s.fibers)
    requires (o == HOLD || o == TERM || o == EXCEPT || o == READY) && f < |s.fibers|
    ensures f < |Finished(s, w, o).fibers| && Edge(s.fibers[f], Finished(s, w, o).fibers[f], false)
  {}

  lemma ActedEdge(cfg: Config, s: State, w: nat, action: Action, f: nat)
    requires Wired(s) && w < |s.workers| && ActionEnabled(cfg, s, w, action) && f < |s.fibers|
    ensures f < |Acted(cfg, s, w, action).fibers|
    ensures Edge(s.fibers[f], Acted(cfg, s, w, action).fibers[f], Resets(s, Event(w, action), f))
  {
    assert FiberShape(s.workers[w], s.fibers);
    match action
    case Pick => PickedEdge(s, w, f);
    case Finish(o) => FinishedEdge(s, w, o, f);
    case _ =>
  }

  lemma OutsideEdge(cfg: Config, s: State, o: OutsideAction, f: nat)
    requires OutsideEnabled(cfg, s, o) && f < |s.fibers|
    ensures f < |OutsideDone(cfg, s, o).fibers| && OutsideDone(cfg, s, o).fibers[f] == s.fibers[f]
  {}

  lemma StepEdge(cfg: Config, s: State, e: Event, f: nat)
    requires Wired(s) && Enabled(cfg, s, e) && f < |s.fibers|
    ensures f < |Apply(cfg, s, e).fibers| && Edge(s.fibers[f], Apply(cfg, s, e).fibers[f], Resets(s, e, f))
  {
    match e
    case Event(w, action) => ActedEdge(cfg, s, w, action, f);
    case Outside(o) => OutsideEdge(cfg, s, o, f);
  }

  /** Every fiber follows the life cycle, step by step, whatever tasks schedule. */
  lemma LifeCycle(cfg: Config, s: State, trace: seq<Event>, t: State, e: Event, f: nat)
    requires Init(cfg, s) && Run(cfg, s, trace, t) && Enabled(cfg, t, e) && f < |t.fibers|
    ensures f < |Apply(cfg, t, e).fibers| && Edge(t.fibers[f], Apply(cfg, t, e).fibers[f], Resets(t, e, f))
  {
    InitWired(cfg, s);
    RunWired(cfg, s, trace, t);
    StepEdge(cfg, t, e, f);
  }
}
