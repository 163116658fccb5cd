/** The scheduler/reactor protocol as a transition system: `Scheduler::run` and
    `IOManager::idle` on every worker and the calls of threads that are no workers,
    interleaved at the points where the code takes or releases a lock or touches a
    counter. Picking an entry and swapping its fiber in is one step, and so is
    setting a fiber's state and swapping out. */
module Reactor {
  import opened Base
  import opened RunQueue

  /** Where a worker is in `run` and, inside its idle fiber, in `idle`. */
  datatype Pc =
    | Head                                     // top of the loop in run, hands empty
    | RunFiber(entry: Entry, fiber: nat)       // inside ft.fiber->swapIn()
    | RunCallback(entry: Entry, fiber: nat)    // inside cb_fiber->swapIn()
    | Drop(entry: Entry)                       // took an entry whose fiber has ended
    | Requeue(fiber: nat)                      // fiber yielded READY: counted down, not yet rescheduled
    | Poll(seen: nat)                          // in stopping(): 0, 1 or 2 of its reads passed
    | Wait                                     // in epoll_wait
    | Collected(cbs: seq<nat>)                 // listExpiredCb returned, callbacks not yet scheduled
    | Deliver                                  // going through the delivered events
    | Gone                                     // left run()

  /** `owes` counts events triggered (scheduled) whose `--m_pendingEventCount` is still to come. */
  datatype Worker = Worker(pc: Pc, idle: FiberState, cbFiber: Option<nat>, owes: nat)

  datatype State = State(
    queue: seq<Entry>,
    workers: seq<Worker>,
    fibers: seq<FiberState>,
    active: int,                // m_activeThreadCount
    pending: int,               // m_pendingEventCount
    events: nat,                // registered (fd, event) pairs
    timers: nat,                // armed timers
    stopped: bool,              // m_autoStop and m_stopping are set
    outsideOwes: nat,           // like `owes`, of threads that are no workers
    tickets: nat,
    issued: multiset<Entry>,    // everything ever scheduled
    done: multiset<Entry>)      // everything whose run has ended

  /** `atomicStopping`: the reads of `stopping()` happen as one step.
      `yieldsReady`: some task calls `Fiber::YieldToReady`.
      `endsScheduled`: a callback may end while its own fiber is still scheduled.
      `schedulesKept`: a fiber that a worker keeps for its next callback may be scheduled.
      `outsideWork`, `lateWork`: threads that are no workers schedule, arm timers or register
      events while the stop flags are unset, and after `stop()` has set them. */
  datatype Config = Config(
    workers: nat,
    atomicStopping: bool,
    yieldsReady: bool,
    endsScheduled: bool,
    schedulesKept: bool,
    outsideWork: bool,
    lateWork: bool)

  /** What a running task, or a thread that is no worker, does to the shared state. */
  datatype TaskAction =
    | NewFiber
    | Spawn(job: Job, thread: int)
    | Arm
    | Disarm
    | Register
    | Unregister

  /** The stages of the idle fiber. */
  datatype IdleAction =
    | Enter
    | SeeStopping               // stopping() as one step, true
    | ReadTimers                // the three reads of stopping() one by one, each passing
    | ReadPending
    | ReadQueue
    | KeepGoing                 // stopping() is false
    | Collect(cbs: seq<nat>, oneShots: nat)
    | ScheduleCollected
    | SwapOut

  datatype Action =
    | Pick
    | Dropped
    | Task(task: TaskAction)
    | Trigger(job: Job)
    | Settle
    | Finish(outcome: FiberState)
    | Reschedule
    | Idle(idle: IdleAction)
    | Leave

  /** What threads that are no workers do: the same as tasks, `cancelEvent` in two steps, and
      `stop()` up to the point where both flags are set. */
  datatype OutsideAction =
    | Does(task: TaskAction)
    | Cancels(job: Job)
    | Settles
    | Stop

  datatype Event = Event(worker: nat, action: Action) | Outside(what: OutsideAction)

  // --- reading the state ---

  predicate Busy(p: Pc) {
    p.RunFiber? || p.RunCallback? || p.Drop?
  }

  predicate Running(p: Pc) {
    p.RunFiber? || p.RunCallback?
  }

  predicate InIdle(p: Pc) {
    p.Poll? || p.Wait? || p.Collected? || p.Deliver?
  }

  function HandOf(p: Pc): multiset<Entry> {
    if Busy(p) then multiset{p.entry} else multiset{}
  }

  /** The entries that workers hold and that `m_activeThreadCount` counts. */
  function Hands(ws: seq<Worker>): multiset<Entry> {
    if ws == [] then multiset{} else HandOf(ws[0].pc) + Hands(ws[1..])
  }

  function Owed(ws: seq<Worker>): nat {
    if ws == [] then 0 else ws[0].owes + Owed(ws[1..])
  }

  /** The fiber that a worker is executing for a task. */
  function Executing(p: Pc): Option<nat> {
    match p
    case RunFiber(_, f) => Some(f)
    case RunCallback(_, f) => Some(f)
    case _ => None
  }

  /** Fiber `f` waits in some worker's `cb_fiber` for the next callback. */
  predicate Recycled(s: State, f: nat) {
    exists w :: 0 <= w < |s.workers| && s.workers[w].cbFiber == Some(f) && !s.workers[w].pc.RunCallback?
  }

  /** The fiber that worker `w` runs for an entry is kept in a `cb_fiber`: its callback was
      reset to null, so running it throws at once. */
  predicate Blank(s: State, w: nat)
    requires w < |s.workers|
  {
    s.workers[w].pc.RunFiber? && Recycled(s, s.workers[w].pc.fiber)
  }

  /** Callbacks and fibers that exist can be submitted. */
  predicate MaySubmit(cfg: Config, s: State, job: Job) {
    job.FiberJob? ==> job.fiber < |s.fibers| && (cfg.schedulesKept || !Recycled(s, job.fiber))
  }

  /** What `Fiber::reset` asserts. */
  predicate Resettable(st: FiberState) {
    st == TERM || st == EXCEPT || st == INIT
  }

  /** The assertions on the way from taking the entry at position `k` to running it:
      `swapIn` wants a fiber that is not EXEC, `reset` one that is not in use. */
  predicate EntryRuns(s: State, w: nat, k: nat)
    requires w < |s.workers| && k < |s.queue|
  {
    match s.queue[k].job
    case FiberJob(f) => StateOf(s.fibers, f) != EXEC
    case CallbackJob(_) => s.workers[w].cbFiber.Some? ==> Resettable(StateOf(s.fibers, s.workers[w].cbFiber.value))
  }

  /** No queued entry and no pending reschedule refers to fiber `f`. */
  predicate Unreferenced(s: State, f: nat) {
    && (forall i :: 0 <= i < |s.queue| ==> s.queue[i].job != FiberJob(f))
    && (forall w :: 0 <= w < |s.workers| ==> s.workers[w].pc != Requeue(f))
  }

  /** `Scheduler::stopping`. */
  predicate MayStop(s: State) {
    s.stopped && s.queue == [] && s.active == 0
  }

  // --- steps ---

  /** There is something to disarm or to unregister. */
  predicate Possible(s: State, a: TaskAction) {
    (a.Disarm? ==> s.timers > 0) && (a.Unregister? ==> s.events > 0)
  }

  predicate TaskEnabled(cfg: Config, s: State, a: TaskAction) {
    match a
    case NewFiber | Arm | Register => true
    case Spawn(job, _) => MaySubmit(cfg, s, job)
    case Disarm | Unregister => Possible(s, a)
  }

  predicate Creates(a: TaskAction) {
    a.Spawn? || a.Arm? || a.Register?
  }

  predicate OutsideEnabled(cfg: Config, s: State, o: OutsideAction) {
    match o
    case Does(a) => TaskEnabled(cfg, s, a) && (Creates(a) ==> if s.stopped then cfg.lateWork else cfg.outsideWork)
    case Cancels(job) => s.events > 0 && MaySubmit(cfg, s, job)
    case Settles => s.outsideOwes > 0
    case Stop => true
  }

  predicate IdleEnabled(cfg: Config, s: State, w: nat, a: IdleAction)
    requires w < |s.workers|
  {
    var me := s.workers[w];
    match a
    case Enter => me.pc.Head? && me.idle != TERM && FirstEligible(s.queue, w, s.fibers).None?
    case SeeStopping => cfg.atomicStopping && me.pc == Poll(0) && s.timers == 0 && s.pending == 0 && MayStop(s)
    case ReadTimers => !cfg.atomicStopping && me.pc == Poll(0) && s.timers == 0
    case ReadPending => !cfg.atomicStopping && me.pc == Poll(1) && s.pending == 0
    case ReadQueue => !cfg.atomicStopping && me.pc == Poll(2) && MayStop(s)
    case KeepGoing =>
      if cfg.atomicStopping then me.pc == Poll(0) && (s.timers > 0 || s.pending != 0 || !MayStop(s))
      else
        || (me.pc == Poll(0) && s.timers > 0)
        || (me.pc == Poll(1) && s.pending != 0)
        || (me.pc == Poll(2) && !MayStop(s))
    case Collect(cbs, oneShots) => me.pc.Wait? && oneShots <= |cbs| <= s.timers
    case ScheduleCollected => me.pc.Collected?
    case SwapOut => me.pc.Deliver? && me.owes == 0
  }

  /** A worker whose assertion fails goes no further. */
  predicate ActionEnabled(cfg: Config, s: State, w: nat, action: Action)
    requires w < |s.workers|
  {
    var me := s.workers[w];
    match action
    case Pick =>
      && me.pc.Head? && FirstEligible(s.queue, w, s.fibers).Some?
      && EntryRuns(s, w, FirstEligible(s.queue, w, s.fibers).value)
    case Dropped => me.pc.Drop?
    case Task(a) => Running(me.pc) && !Blank(s, w) && TaskEnabled(cfg, s, a)
    case Trigger(job) =>
      ((Running(me.pc) && !Blank(s, w)) || me.pc.Deliver?) && s.events > 0 && MaySubmit(cfg, s, job)
    case Settle => me.owes > 0
    case Finish(o) =>
      && Running(me.pc) && me.owes == 0
      && (o == HOLD || o == TERM || o == EXCEPT || (o == READY && cfg.yieldsReady))
      && (Blank(s, w) ==> o == EXCEPT)
      && (!cfg.endsScheduled && me.pc.RunCallback? && (o == TERM || o == EXCEPT) ==> Unreferenced(s, me.pc.fiber))
    case Reschedule => me.pc.Requeue?
    case Idle(a) => IdleEnabled(cfg, s, w, a)
    case Leave => me.pc.Head? && me.idle == TERM && FirstEligible(s.queue, w, s.fibers).None?
  }

  predicate Enabled(cfg: Config, s: State, e: Event) {
    match e
    case Event(w, action) => w < |s.workers| && ActionEnabled(cfg, s, w, action)
    case Outside(o) => OutsideEnabled(cfg, s, o)
  }

  function With(s: State, w: nat, me: Worker): State
    requires w < |s.workers|
  {
    s.(workers := s.workers[w := me])
  }

  function Enqueue(s: State, job: Job, thread: int): State {
    var e := Entry(s.tickets, job, thread);
    s.(queue := s.queue + [e], tickets := s.tickets + 1, issued := s.issued + multiset{e})
  }

  function EnqueueAll(s: State, cbs: seq<nat>): (t: State)
    ensures t == s.(queue := t.queue, tickets := t.tickets, issued := t.issued)
    decreases |cbs|
  {
    if cbs == [] then s else EnqueueAll(Enqueue(s, CallbackJob(cbs[0]), -1), cbs[1..])
  }

  function SetFiber(s: State, f: nat, st: FiberState): State {
    if f < |s.fibers| then s.(fibers := s.fibers[f := st]) else s
  }

  /** The entry leaves the list; its fiber (for a callback, the worker's recycled
      or a new one) goes to EXEC. A fiber that has ended is not swapped in. */
  function Picked(s: State, w: nat): State
    requires w < |s.workers| && FirstEligible(s.queue, w, s.fibers).Some?
  {
    var k := FirstEligible(s.queue, w, s.fibers).value;
    var e := s.queue[k];
    var me := s.workers[w];
    var taken := s.(queue := Without(s.queue, k), active := s.active + 1);
    match e.job
    case FiberJob(f) =>
      var st := StateOf(s.fibers, f);
      if st == TERM || st == EXCEPT then With(taken, w, me.(pc := Drop(e)))
      else SetFiber(With(taken, w, me.(pc := RunFiber(e, f))), f, EXEC)
    case CallbackJob(_) =>
      if me.cbFiber.Some? then
        SetFiber(With(taken, w, me.(pc := RunCallback(e, me.cbFiber.value))), me.cbFiber.value, EXEC)
      else
        With(taken, w, me.(pc := RunCallback(e, |s.fibers|), cbFiber := Some(|s.fibers|))).(fibers := s.fibers + [EXEC])
  }

  /** What picking changes besides the worker's own place and the fibers. */
  lemma PickedFrame(s: State, w: nat)
    requires w < |s.workers| && FirstEligible(s.queue, w, s.fibers).Some?
    ensures var t := Picked(s, w);
      && t.queue == Without(s.queue, FirstEligible(s.queue, w, s.fibers).value) && t.active == s.active + 1
      && |t.workers| == |s.workers| && t.workers == s.workers[w := t.workers[w]]
      && t.issued == s.issued && t.done == s.done && t.tickets == s.tickets
  {}

  /** The worker after its fiber came back: READY leaves the fiber in its hand, and a
      callback fiber stays in its slot only if it ended. */
  function Back(me: Worker, o: FiberState): Worker
    requires Running(me.pc)
  {
    me.(
      pc := if o == READY then Requeue(me.pc.fiber) else Head,
      cbFiber := if me.pc.RunCallback? && (o == READY || o == HOLD) then None else me.cbFiber
    )
  }

  /** The state in which a fiber is left: a callback fiber that ended is reset for the next
      callback. */
  function LeftIn(p: Pc, o: FiberState): FiberState {
    if p.RunCallback? && o != READY && o != HOLD then INIT else o
  }

  /** The counter goes down when the fiber comes back, before a READY one is put back. */
  function Finished(s: State, w: nat, o: FiberState): State
    requires w < |s.workers| && Running(s.workers[w].pc)
  {
    var me := s.workers[w];
    var ended := s.(active := s.active - 1, done := s.done + multiset{me.pc.entry});
    SetFiber(With(ended, w, Back(me, o)), me.pc.fiber, LeftIn(me.pc, o))
  }

  function TaskDone(s: State, a: TaskAction): State
    requires Possible(s, a)
  {
    match a
    case NewFiber => s.(fibers := s.fibers + [INIT])
    case Spawn(job, thread) => Enqueue(s, job, thread)
    case Arm => s.(timers := s.timers + 1)
    case Disarm => s.(timers := s.timers - 1)
    case Register => s.(events := s.events + 1, pending := s.pending + 1)
    case Unregister => s.(events := s.events - 1, pending := s.pending - 1)
  }

  function Triggered(s: State, w: nat, job: Job): State
    requires w < |s.workers| && s.events > 0
  {
    With(Enqueue(s, job, -1).(events := s.events - 1), w, s.workers[w].(owes := s.workers[w].owes + 1))
  }

  /** The worker after a stage of its idle fiber. */
  function IdleNext(me: Worker, a: IdleAction): Worker {
    match a
    case Enter => me.(pc := Poll(0), idle := EXEC)
    case SeeStopping | ReadQueue => me.(pc := Head, idle := TERM)
    case ReadTimers => me.(pc := Poll(1))
    case ReadPending => me.(pc := Poll(2))
    case KeepGoing => me.(pc := Wait)
    case Collect(cbs, _) => me.(pc := Collected(cbs))
    case ScheduleCollected => me.(pc := Deliver)
    case SwapOut => me.(pc := Head, idle := HOLD)
  }

  function IdleMoved(s: State, w: nat, a: IdleAction): State
    requires w < |s.workers|
    requires a.Collect? ==> a.oneShots <= s.timers
    requires a.ScheduleCollected? ==> s.workers[w].pc.Collected?
  {
    var me := s.workers[w];
    var rest := if a.Collect? then s.(timers := s.timers - a.oneShots)
                else if a.ScheduleCollected? then EnqueueAll(s, me.pc.cbs)
                else s;
    With(rest, w, IdleNext(me, a))
  }

  function Discarded(s: State, w: nat): State
    requires w < |s.workers| && Busy(s.workers[w].pc)
  {
    var me := s.workers[w];
    With(s, w, me.(pc := Head)).(active := s.active - 1, done := s.done + multiset{me.pc.entry})
  }

  function Settled(s: State, w: nat): State
    requires w < |s.workers| && s.workers[w].owes > 0
  {
    With(s, w, s.workers[w].(owes := s.workers[w].owes - 1)).(pending := s.pending - 1)
  }

  function Rescheduled(s: State, w: nat): State
    requires w < |s.workers| && s.workers[w].pc.Requeue?
  {
    With(Enqueue(s, FiberJob(s.workers[w].pc.fiber), -1), w, s.workers[w].(pc := Head))
  }

  function OutsideDone(cfg: Config, s: State, o: OutsideAction): State
    requires OutsideEnabled(cfg, s, o)
  {
    match o
    case Does(a) => TaskDone(s, a)
    case Cancels(job) => Enqueue(s, job, -1).(events := s.events - 1, outsideOwes := s.outsideOwes + 1)
    case Settles => s.(pending := s.pending - 1, outsideOwes := s.outsideOwes - 1)
    case Stop => s.(stopped := true)
  }

  function Acted(cfg: Config, s: State, w: nat, action: Action): State
    requires w < |s.workers| && ActionEnabled(cfg, s, w, action)
  {
    match action
    case Pick => Picked(s, w)
    case Dropped => Discarded(s, w)
    case Task(a) => TaskDone(s, a)
    case Trigger(job) => Triggered(s, w, job)
    case Settle => Settled(s, w)
    case Finish(o) => Finished(s, w, o)
    case Reschedule => Rescheduled(s, w)
    case Idle(a) => IdleMoved(s, w, a)
    case Leave => With(s, w, s.workers[w].(pc := Gone))
  }

  function Apply(cfg: Config, s: State, e: Event): State
    requires Enabled(cfg, s, e)
  {
    match e
    case Event(w, action) => Acted(cfg, s, w, action)
    case Outside(o) => OutsideDone(cfg, s, o)
  }

  /** A run is a finite interleaving of enabled steps. */
  ghost predicate Run(cfg: Config, s: State, trace: seq<Event>, t: State)
    decreases |trace|
  {
    if trace == [] then s == t
    else Enabled(cfg, s, trace[0]) && Run(cfg, Apply(cfg, s, trace[0]), trace[1..], t)
  }

  const FRESH := Worker(Head, INIT, None, 0)

  /** `start()` has returned, every worker is about to enter its loop, and nothing runs: any
      queue, any number of events and timers. */
  ghost predicate Init(cfg: Config, s: State) {
    && cfg.workers == |s.workers| > 0
    && (forall w :: 0 <= w < |s.workers| ==> s.workers[w] == FRESH)
    && s.active == 0 && s.pending == s.events && !s.stopped && s.outsideOwes == 0
    && s.issued == multiset(s.queue) && s.done == multiset{}
    && Distinct(s.queue) && Below(s.queue, s.tickets)
    && (forall i :: 0 <= i < |s.queue| ==> s.queue[i].job.FiberJob? ==> s.queue[i].job.fiber < |s.fibers|)
    && (forall f :: 0 <= f < |s.fibers| ==> s.fibers[f] != EXEC)
  }

  ghost predicate Reaches(cfg: Config, s: State, t: State) {
    exists trace :: Run(cfg, s, trace, t)
  }

  lemma {:induction false} RunThen(cfg: Config, s: State, trace: seq<Event>, t: State, e: Event)
    requires Run(cfg, s, trace, t) && Enabled(cfg, t, e)
    ensures Run(cfg, s, trace + [e], Apply(cfg, t, e))
    decreases |trace|
  {
    if trace == [] {
      assert (trace + [e])[1..] == [];
      assert Run(cfg, Apply(cfg, t, e), [], Apply(cfg, t, e));
    } else {
      RunThen(cfg, Apply(cfg, s, trace[0]), trace[1..], t, e);
      assert (trace + [e])[1..] == trace[1..] + [e];
    }
  }

  lemma Then(cfg: Config, s: State, t: State, e: Event)
    requires Reaches(cfg, s, t) && Enabled(cfg, t, e)
    ensures Reaches(cfg, s, Apply(cfg, t, e))
  {
    var trace :| Run(cfg, s, trace, t);
    RunThen(cfg, s, trace, t, e);
  }

  /** Workers 0 and 1, then a crew of which those below `k` are `d` and the rest `c`. */
  function Crew(n: nat, a: Worker, b: Worker, k: nat, d: Worker, c: Worker): (ws: seq<Worker>)
    requires n >= 2
    ensures |ws| == n && ws[0] == a && ws[1] == b
    ensures forall i :: 2 <= i < n ==> ws[i] == if i < k then d else c
  {
    seq(n, i => if i == 0 then a else if i == 1 then b else if i < k then d else c)
  }

  function Team(n: nat, a: Worker, b: Worker, c: Worker): seq<Worker>
    requires n >= 2
  {
    Crew(n, a, b, n, c, c)
  }

  lemma TeamUpdate(n: nat, a: Worker, b: Worker, c: Worker, x: Worker)
    requires n >= 2
    ensures Team(n, a, b, c)[0 := x] == Team(n, x, b, c)
    ensures Team(n, a, b, c)[1 := x] == Team(n, a, x, c)
  {}
}
