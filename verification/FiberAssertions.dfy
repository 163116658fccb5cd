/** Whether the assertions of `Fiber::swapIn` and `Fiber::reset` can fail. */
module FiberAssertions {
  import opened Base
  import opened RunQueue
  import opened Reactor
  import opened ReactorFibers

  /** A worker at the loop head passes every assertion on its way into the next fiber: the
      taken one, the callback fiber that it resets, or the idle fiber. */
  predicate Passes(s: State, w: nat)
    requires w < |s.workers|
  {
    match FirstEligible(s.queue, w, s.fibers)
    case Some(k) => EntryRuns(s, w, k)
    case None => s.workers[w].idle != EXEC
  }

  ghost predicate NeverFails(cfg: Config) {
    forall s, trace, t, w: nat ::
      Init(cfg, s) && Run(cfg, s, trace, t) && w < |t.workers| && t.workers[w].pc.Head? ==> Passes(t, w)
  }

  /** No fiber that a worker keeps is running, unless the worker itself runs it. */
  ghost predicate Idling(s: State) {
    forall w :: 0 <= w < |s.workers| ==> SlotIdle(s, s.workers[w])
  }

  predicate SlotIdle(s: State, me: Worker) {
    me.cbFiber.Some? && Executing(me.pc) != me.cbFiber ==> StateOf(s.fibers, me.cbFiber.value) != EXEC
  }

  lemma IdlingPasses(s: State, w: nat)
    requires Wired(s) && Idling(s) && w < |s.workers| && s.workers[w].pc.Head?
    ensures Passes(s, w)
  {
    var me := s.workers[w];
    assert IdleShape(me) && FiberShape(me, s.fibers) && SlotIdle(s, me);
  }

  // --- a lone worker ---

  lemma LonePick(s: State)
    requires Wired(s) && Idling(s) && |s.workers| == 1 && s.workers[0].pc.Head?
      && FirstEligible(s.queue, 0, s.fibers).Some?
    ensures Idling(Picked(s, 0))
  {
    assert FiberShape(s.workers[0], s.fibers) && SlotIdle(s, s.workers[0]);
  }

  lemma LoneFinish(s: State, o: FiberState)
    requires Wired(s) && Idling(s) && |s.workers| == 1 && Running(s.workers[0].pc)
    requires o == HOLD || o == TERM || o == EXCEPT || o == READY
    ensures Idling(Finished(s, 0, o))
  {
    assert FiberShape(s.workers[0], s.fibers) && SlotIdle(s, s.workers[0]);
  }

  lemma LoneIdle(cfg: Config, s: State, a: IdleAction)
    requires Wired(s) && Idling(s) && |s.workers| == 1 && IdleEnabled(cfg, s, 0, a)
    ensures Idling(IdleMoved(s, 0, a))
  {
    assert FiberShape(s.workers[0], s.fibers) && SlotIdle(s, s.workers[0]);
  }

  lemma LoneRest(cfg: Config, s: State, action: Action)
    requires Wired(s) && Idling(s) && |s.workers| == 1 && ActionEnabled(cfg, s, 0, action)
    requires !action.Pick? && !action.Finish? && !action.Idle?
    ensures Idling(Acted(cfg, s, 0, action))
  {
    assert FiberShape(s.workers[0], s.fibers) && SlotIdle(s, s.workers[0]);
  }

  lemma LoneOutside(cfg: Config, s: State, o: OutsideAction)
    requires Wired(s) && Idling(s) && |s.workers| == 1 && OutsideEnabled(cfg, s, o)
    ensures |OutsideDone(cfg, s, o).workers| == 1 && Idling(OutsideDone(cfg, s, o))
  {
    assert FiberShape(s.workers[0], s.fibers) && SlotIdle(s, s.workers[0]);
  }

  lemma LoneStep(cfg: Config, s: State, e: Event)
    requires Wired(s) && Idling(s) && |s.workers| == 1 && Enabled(cfg, s, e)
    ensures |Apply(cfg, s, e).workers| == 1 && Idling(Apply(cfg, s, e))
  {
    match e
    case Outside(o) => LoneOutside(cfg, s, o);
    case Event(_, Pick) => LonePick(s);
    case Event(_, Finish(o)) => LoneFinish(s, o);
    case Event(_, Idle(a)) => LoneIdle(cfg, s, a);
    case Event(_, action) => LoneRest(cfg, s, action);
  }

  lemma {:induction false} LoneRun(cfg: Config, s: State, trace: seq<Event>, t: State)
    requires Wired(s) && Idling(s) && |s.workers| == 1 && Run(cfg, s, trace, t)
    ensures Wired(t) && Idling(t)
    decreases |trace|
  {
    if trace != [] {
      LoneStep(cfg, s, trace[0]);
      StepWired(cfg, s, trace[0]);
      LoneRun(cfg, Apply(cfg, s, trace[0]), trace[1..], t);
    }
  }

  // --- nobody refers to a kept fiber ---

  predicate Disciplined(cfg: Config) {
    !cfg.endsScheduled && !cfg.schedulesKept
  }

  /** A fiber that a worker keeps is INIT, and nothing refers to it. */
  predicate Untouched(s: State, f: nat) {
    StateOf(s.fibers, f) == INIT && Unreferenced(s, f)
  }

  predicate Keeps(me: Worker) {
    me.cbFiber.Some? && !me.pc.RunCallback?
  }

  ghost predicate Tidy(s: State) {
    forall w :: 0 <= w < |s.workers| && Keeps(s.workers[w]) ==> Untouched(s, s.workers[w].cbFiber.value)
  }

  lemma TidyIdles(s: State)
    requires Wired(s) && Tidy(s)
    ensures Idling(s)
  {
    forall w | 0 <= w < |s.workers| ensures SlotIdle(s, s.workers[w]) {
      assert FiberShape(s.workers[w], s.fibers);
    }
  }

  lemma EnqueueTidy(cfg: Config, s: State, job: Job, thread: int)
    requires Tidy(s) && MaySubmit(cfg, s, job) && !cfg.schedulesKept
    ensures Tidy(Enqueue(s, job, thread))
  {
    var t := Enqueue(s, job, thread);
    forall w | 0 <= w < |s.workers| && Keeps(s.workers[w]) ensures Untouched(t, s.workers[w].cbFiber.value) {
      assert Untouched(s, s.workers[w].cbFiber.value);
    }
  }

  lemma {:induction false} EnqueueAllTidy(cfg: Config, s: State, cbs: seq<nat>)
    requires Tidy(s) && !cfg.schedulesKept
    ensures Tidy(EnqueueAll(s, cbs))
    decreases |cbs|
  {
    if cbs != [] {
      EnqueueTidy(cfg, s, CallbackJob(cbs[0]), -1);
      EnqueueAllTidy(cfg, Enqueue(s, CallbackJob(cbs[0]), -1), cbs[1..]);
    }
  }

  /** Picking touches a kept fiber only to run a callback in it. */
  lemma PickedSpares(s: State, w: nat, f: nat)
    requires w < |s.workers| && s.workers[w].pc.Head? && FirstEligible(s.queue, w, s.fibers).Some?
    requires f < |s.fibers| && Untouched(s, f)
    requires s.workers[w].cbFiber == Some(f) ==> !Picked(s, w).workers[w].pc.RunCallback?
    ensures Untouched(Picked(s, w), f)
  {
    var k := FirstEligible(s.queue, w, s.fibers).value;
    var t := Picked(s, w);
    PickedFrame(s, w);
    assert s.queue[k].job != FiberJob(f);
    forall i | 0 <= i < |t.queue| ensures t.queue[i].job != FiberJob(f) {
      assert t.queue[i] == s.queue[if i < k then i else i + 1];
    }
  }

  lemma PickedTidy(s: State, w: nat)
    requires Wired(s) && Tidy(s) && w < |s.workers| && s.workers[w].pc.Head?
      && FirstEligible(s.queue, w, s.fibers).Some?
    ensures Tidy(Picked(s, w))
  {
    var t := Picked(s, w);
    forall v | 0 <= v < |t.workers| && Keeps(t.workers[v]) ensures Untouched(t, t.workers[v].cbFiber.value) {
      assert Keeps(s.workers[v]) && t.workers[v].cbFiber == s.workers[v].cbFiber;
      assert Untouched(s, s.workers[v].cbFiber.value) && FiberShape(s.workers[v], s.fibers);
      if v != w { assert Apart(s.workers[v], s.workers[w]); }
      PickedSpares(s, w, s.workers[v].cbFiber.value);
    }
  }

  lemma FinishedTidy(cfg: Config, s: State, w: nat, o: FiberState)
    requires Wired(s) && Tidy(s) && !cfg.endsScheduled && w < |s.workers| && ActionEnabled(cfg, s, w, Finish(o))
    ensures Tidy(Finished(s, w, o))
  {
    var t := Finished(s, w, o);
    assert FiberShape(s.workers[w], s.fibers);
    forall v | 0 <= v < |t.workers| && Keeps(t.workers[v]) ensures Untouched(t, t.workers[v].cbFiber.value) {
      if v != w || s.workers[w].pc.RunFiber? {
        assert Untouched(s, s.workers[v].cbFiber.value) && FiberShape(s.workers[v], s.fibers);
      }
    }
  }

  lemma RescheduledTidy(s: State, w: nat)
    requires Wired(s) && Tidy(s) && w < |s.workers| && s.workers[w].pc.Requeue?
    ensures Tidy(Rescheduled(s, w))
  {
    var t := Rescheduled(s, w);
    forall v | 0 <= v < |t.workers| && Keeps(t.workers[v]) ensures Untouched(t, t.workers[v].cbFiber.value) {
      assert Untouched(s, s.workers[v].cbFiber.value);
      assert s.workers[w].pc != Requeue(s.workers[v].cbFiber.value);
    }
  }

  lemma MovedTidy(s: State, w: nat, x: Worker)
    requires Tidy(s) && w < |s.workers| && x.cbFiber == s.workers[w].cbFiber && !s.workers[w].pc.RunCallback?
    requires !x.pc.Requeue?
    ensures Tidy(With(s, w, x))
  {
    var t := With(s, w, x);
    forall v | 0 <= v < |t.workers| && Keeps(t.workers[v]) ensures Untouched(t, t.workers[v].cbFiber.value) {
      assert Untouched(s, s.workers[v].cbFiber.value);
    }
  }

  lemma IdleTidy(cfg: Config, s: State, w: nat, a: IdleAction)
    requires Tidy(s) && !cfg.schedulesKept && w < |s.workers| && IdleEnabled(cfg, s, w, a)
    ensures Tidy(IdleMoved(s, w, a))
  {
    var me := s.workers[w];
    if a.ScheduleCollected? {
      EnqueueAllTidy(cfg, s, me.pc.cbs);
      MovedTidy(EnqueueAll(s, me.pc.cbs), w, IdleNext(me, a));
    } else {
      MovedTidy(s, w, IdleNext(me, a));
    }
  }

  lemma TriggeredTidy(cfg: Config, s: State, w: nat, job: Job)
    requires Tidy(s) && !cfg.schedulesKept && w < |s.workers| && s.events > 0 && MaySubmit(cfg, s, job)
    ensures Tidy(Triggered(s, w, job))
  {
    EnqueueTidy(cfg, s, job, -1);
    var u, t := Enqueue(s, job, -1), Triggered(s, w, job);
    forall v | 0 <= v < |t.workers| && Keeps(t.workers[v]) ensures Untouched(t, t.workers[v].cbFiber.value) {
      assert Untouched(u, u.workers[v].cbFiber.value);
    }
  }

  lemma SettledTidy(s: State, w: nat)
    requires Tidy(s) && w < |s.workers| && s.workers[w].owes > 0
    ensures Tidy(Settled(s, w))
  {
    var t := Settled(s, w);
    forall v | 0 <= v < |t.workers| && Keeps(t.workers[v]) ensures Untouched(t, t.workers[v].cbFiber.value) {
      assert Untouched(s, s.workers[v].cbFiber.value);
    }
  }

  lemma TaskTidy(cfg: Config, s: State, a: TaskAction)
    requires Wired(s) && Tidy(s) && !cfg.schedulesKept && TaskEnabled(cfg, s, a)
    ensures Tidy(TaskDone(s, a))
  {
    var t := TaskDone(s, a);
    if a.Spawn? {
      EnqueueTidy(cfg, s, a.job, a.thread);
    } else {
      forall v | 0 <= v < |t.workers| && Keeps(t.workers[v]) ensures Untouched(t, t.workers[v].cbFiber.value) {
        assert Untouched(s, s.workers[v].cbFiber.value) && FiberShape(s.workers[v], s.fibers);
      }
    }
  }

  lemma DroppedTidy(s: State, w: nat)
    requires Tidy(s) && w < |s.workers| && s.workers[w].pc.Drop?
    ensures Tidy(Discarded(s, w))
  {
    var t := Discarded(s, w);
    forall v | 0 <= v < |t.workers| && Keeps(t.workers[v]) ensures Untouched(t, t.workers[v].cbFiber.value) {
      assert Untouched(s, s.workers[v].cbFiber.value);
    }
  }

  lemma CountersTidy(s: State, t: State)
    requires Tidy(s) && t.queue == s.queue && t.workers == s.workers && t.fibers == s.fibers
    ensures Tidy(t)
  {
    forall v | 0 <= v < |t.workers| && Keeps(t.workers[v]) ensures Untouched(t, t.workers[v].cbFiber.value) {
      assert Untouched(s, s.workers[v].cbFiber.value);
    }
  }

  lemma OutsideTidy(cfg: Config, s: State, o: OutsideAction)
    requires Wired(s) && Tidy(s) && Disciplined(cfg) && OutsideEnabled(cfg, s, o)
    ensures Tidy(OutsideDone(cfg, s, o))
  {
    match o
    case Does(a) => TaskTidy(cfg, s, a);
    case Cancels(job) =>
      EnqueueTidy(cfg, s, job, -1);
      CountersTidy(Enqueue(s, job, -1), OutsideDone(cfg, s, o));
    case Settles => CountersTidy(s, OutsideDone(cfg, s, o));
    case Stop => CountersTidy(s, OutsideDone(cfg, s, o));
  }

  lemma ActedTidy(cfg: Config, s: State, w: nat, action: Action)
    requires Wired(s) && Tidy(s) && Disciplined(cfg) && w < |s.workers| && ActionEnabled(cfg, s, w, action)
    ensures Tidy(Acted(cfg, s, w, action))
  {
    match action
    case Pick => PickedTidy(s, w);
    case Dropped => DroppedTidy(s, w);
    case Task(a) => TaskTidy(cfg, s, a);
    case Trigger(job) => TriggeredTidy(cfg, s, w, job);
    case Settle => SettledTidy(s, w);
    case Finish(o) => FinishedTidy(cfg, s, w, o);
    case Reschedule => RescheduledTidy(s, w);
    case Idle(a) => IdleTidy(cfg, s, w, a);
    case Leave => MovedTidy(s, w, s.workers[w].(pc := Gone));
  }

  lemma StepTidy(cfg: Config, s: State, e: Event)
    requires Wired(s) && Tidy(s) && Disciplined(cfg) && Enabled(cfg, s, e)
    ensures Tidy(Apply(cfg, s, e))
  {
    match e
    case Event(w, action) => ActedTidy(cfg, s, w, action);
    case Outside(o) => OutsideTidy(cfg, s, o);
  }

  lemma {:induction false} TidyRun(cfg: Config, s: State, trace: seq<Event>, t: State)
    requires Wired(s) && Tidy(s) && Disciplined(cfg) && Run(cfg, s, trace, t)
    ensures Wired(t) && Tidy(t)
    decreases |trace|
  {
    if trace != [] {
      StepTidy(cfg, s, trace[0]);
      StepWired(cfg, s, trace[0]);
      TidyRun(cfg, Apply(cfg, s, trace[0]), trace[1..], t);
    }
  }

  lemma HoldsWhen(cfg: Config)
    requires cfg.workers == 1 || (!cfg.endsScheduled && !cfg.schedulesKept)
    ensures NeverFails(cfg)
  {
    forall s, trace, t, w: nat | Init(cfg, s) && Run(cfg, s, trace, t) && w < |t.workers| && t.workers[w].pc.Head?
      ensures Passes(t, w)
    {
      InitWired(cfg, s);
      if cfg.workers == 1 {
        LoneRun(cfg, s, trace, t);
      } else {
        TidyRun(cfg, s, trace, t);
        TidyIdles(t);
      }
      IdlingPasses(t, w);
    }
  }

  // --- the two runs in which reset fails ---

  const FIRST := Entry(0, CallbackJob(0), 0)
  const HELPER := Entry(1, CallbackJob(1), 1)
  const SECOND := Entry(2, CallbackJob(2), 0)
  const STRAY := Entry(3, FiberJob(0), -1)

  const KEEPING := Worker(Head, INIT, Some(0), 0)

  /** Two callbacks for worker 0 and one for worker 1. */
  function Begin(n: nat): State
    requires n >= 2
  {
    State([FIRST, HELPER, SECOND], Team(n, FRESH, FRESH, FRESH), [], 0, 0, 0, 0, false, 0, 3,
      multiset{FIRST, HELPER, SECOND}, multiset{})
  }

  /** The list and what was issued, before or after fiber 0 was scheduled. */
  function Strayed(s: State, strayed: bool): State {
    if strayed then s.(queue := s.queue + [STRAY], tickets := 4, issued := s.issued + multiset{STRAY}) else s
  }

  /** Worker 0 runs the first callback in fiber 0. */
  function Running0(n: nat, strayed: bool): State
    requires n >= 2
  {
    Strayed(Begin(n).(queue := [HELPER, SECOND], fibers := [EXEC], active := 1,
      workers := Team(n, KEEPING.(pc := RunCallback(FIRST, 0)), FRESH, FRESH)), strayed)
  }

  /** It has ended, and worker 0 keeps its fiber. */
  function Kept0(n: nat, strayed: bool): State
    requires n >= 2
  {
    Strayed(Begin(n).(queue := [HELPER, SECOND], fibers := [INIT], done := multiset{FIRST},
      workers := Team(n, KEEPING, FRESH, FRESH)), strayed)
  }

  /** Worker 1 runs its callback. */
  function Helping(n: nat, strayed: bool): State
    requires n >= 2
  {
    Strayed(Begin(n).(queue := [SECOND], fibers := [INIT, EXEC], active := 1, done := multiset{FIRST},
      workers := Team(n, KEEPING, Worker(RunCallback(HELPER, 1), INIT, Some(1), 0), FRESH)), strayed)
  }

  /** That callback's fiber holds. */
  function Helped(n: nat): State
    requires n >= 2
  {
    Strayed(Begin(n).(queue := [SECOND], fibers := [INIT, HOLD], done := multiset{FIRST, HELPER},
      workers := Team(n, KEEPING, FRESH, FRESH)), true)
  }

  /** Worker 1 runs fiber 0 from the list. */
  function Stolen(n: nat): State
    requires n >= 2
  {
    Helped(n).(queue := [SECOND], fibers := [EXEC, HOLD], active := 1,
      workers := Team(n, KEEPING, FRESH.(pc := RunFiber(STRAY, 0)), FRESH))
  }

  lemma BeginInit(cfg: Config)
    requires cfg.workers >= 2
    ensures Init(cfg, Begin(cfg.workers))
  {
    var s := Begin(cfg.workers);
    assert s.queue == [FIRST] + [HELPER] + [SECOND];
    assert multiset(s.queue) == multiset{FIRST, HELPER, SECOND};
  }

  lemma FirstStarts(cfg: Config)
    requires cfg.workers >= 2
    ensures Reaches(cfg, Begin(cfg.workers), Running0(cfg.workers, false))
  {
    var n := cfg.workers;
    var s, e := Begin(n), Event(0, Pick);
    assert Run(cfg, s, [], s);
    TeamUpdate(n, FRESH, FRESH, FRESH, KEEPING.(pc := RunCallback(FIRST, 0)));
    Then(cfg, s, s, e);
    assert Apply(cfg, s, e).queue == [HELPER, SECOND] && Apply(cfg, s, e).fibers == [EXEC];
    assert Apply(cfg, s, e) == Running0(n, false);
  }

  /** The callback schedules its own fiber. */
  lemma FirstSchedules(cfg: Config)
    requires cfg.workers >= 2
    ensures Reaches(cfg, Begin(cfg.workers), Running0(cfg.workers, true))
  {
    FirstStarts(cfg);
    var s, e := Running0(cfg.workers, false), Event(0, Task(Spawn(FiberJob(0), -1)));
    Then(cfg, Begin(cfg.workers), s, e);
    assert Apply(cfg, s, e) == Running0(cfg.workers, true);
  }

  lemma FirstEnds(cfg: Config, strayed: bool)
    requires cfg.workers >= 2 && (strayed ==> cfg.endsScheduled)
    ensures Reaches(cfg, Begin(cfg.workers), Kept0(cfg.workers, strayed))
  {
    var n := cfg.workers;
    if strayed { FirstSchedules(cfg); } else { FirstStarts(cfg); }
    var s, e := Running0(n, strayed), Event(0, Finish(TERM));
    FirstFinished(n, strayed);
    Then(cfg, Begin(n), s, e);
  }

  lemma FirstFinished(n: nat, strayed: bool)
    requires n >= 2
    ensures Finished(Running0(n, strayed), 0, TERM) == Kept0(n, strayed)
  {
    TeamUpdate(n, KEEPING.(pc := RunCallback(FIRST, 0)), FRESH, FRESH, KEEPING);
    assert Finished(Running0(n, strayed), 0, TERM).fibers == [INIT];
  }

  lemma HelperStarts(cfg: Config, strayed: bool)
    requires cfg.workers >= 2 && (strayed ==> cfg.endsScheduled)
    ensures Reaches(cfg, Begin(cfg.workers), Helping(cfg.workers, strayed))
  {
    var n := cfg.workers;
    FirstEnds(cfg, strayed);
    var s, e := Kept0(n, strayed), Event(1, Pick);
    FirstIs(s.queue, 0, 1, s.fibers);
    TeamUpdate(n, KEEPING, FRESH, FRESH, Worker(RunCallback(HELPER, 1), INIT, Some(1), 0));
    Then(cfg, Begin(n), s, e);
    assert Apply(cfg, s, e).queue == Helping(n, strayed).queue && Apply(cfg, s, e).fibers == [INIT, EXEC];
    assert Apply(cfg, s, e) == Helping(n, strayed);
  }

  /** Worker 1's callback schedules the fiber that worker 0 keeps. */
  lemma HelperSchedules(cfg: Config)
    requires cfg.workers >= 2 && cfg.schedulesKept
    ensures Reaches(cfg, Begin(cfg.workers), Helping(cfg.workers, true))
  {
    HelperStarts(cfg, false);
    var s, e := Helping(cfg.workers, false), Event(1, Task(Spawn(FiberJob(0), -1)));
    Then(cfg, Begin(cfg.workers), s, e);
    assert Apply(cfg, s, e) == Helping(cfg.workers, true);
  }

  lemma HelperEnds(cfg: Config)
    requires cfg.workers >= 2 && (cfg.endsScheduled || cfg.schedulesKept)
    ensures Reaches(cfg, Begin(cfg.workers), Helped(cfg.workers))
  {
    var n := cfg.workers;
    if cfg.endsScheduled { HelperStarts(cfg, true); } else { HelperSchedules(cfg); }
    var s, e := Helping(n, true), Event(1, Finish(HOLD));
    TeamUpdate(n, KEEPING, Worker(RunCallback(HELPER, 1), INIT, Some(1), 0), FRESH, FRESH);
    Then(cfg, Begin(n), s, e);
    assert Apply(cfg, s, e).fibers == [INIT, HOLD];
    assert Apply(cfg, s, e) == Helped(n);
  }

  /** Either way, worker 1 swaps in the fiber that worker 0 keeps. */
  lemma StrayRuns(cfg: Config)
    requires cfg.workers >= 2 && (cfg.endsScheduled || cfg.schedulesKept)
    ensures Reaches(cfg, Begin(cfg.workers), Stolen(cfg.workers))
  {
    var n := cfg.workers;
    HelperEnds(cfg);
    var s, e := Helped(n), Event(1, Pick);
    FirstIs(s.queue, 1, 1, s.fibers);
    TeamUpdate(n, KEEPING, FRESH, FRESH, FRESH.(pc := RunFiber(STRAY, 0)));
    Then(cfg, Begin(n), s, e);
    assert Apply(cfg, s, e).queue == [SECOND] && Apply(cfg, s, e).fibers == [EXEC, HOLD];
    assert Apply(cfg, s, e) == Stolen(n);
  }

  lemma FailsWhen(cfg: Config)
    requires cfg.workers >= 2 && (cfg.endsScheduled || cfg.schedulesKept)
    ensures !NeverFails(cfg)
  {
    StrayRuns(cfg);
    BeginInit(cfg);
    var s, t := Begin(cfg.workers), Stolen(cfg.workers);
    var trace :| Run(cfg, s, trace, t);
    FirstIs(t.queue, 0, 0, t.fibers);
    assert !Passes(t, 0);
  }

  /** The assertions hold in every run, for every program, exactly when there is one worker,
      or no callback ends while its own fiber is scheduled and nobody schedules a fiber that
      a worker keeps for its next callback. */
  lemma AssertionsHold(cfg: Config)
    requires cfg.workers > 0
    ensures NeverFails(cfg) <==> cfg.workers == 1 || (!cfg.endsScheduled && !cfg.schedulesKept)
  {
    if cfg.workers == 1 || (!cfg.endsScheduled && !cfg.schedulesKept) { HoldsWhen(cfg); } else { FailsWhen(cfg); }
  }
}
