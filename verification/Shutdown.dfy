/** Shutdown safety: once every worker has left `run`, nothing is queued, armed or
    registered. Nobody outside may create work after `stop()`; with several workers no task
    may yield READY; and the reads of `stopping()` have to be one step, unless there is one
    worker and nobody but tasks creates work. */
module Shutdown {
  import opened Base
  import opened RunQueue
  import opened Reactor
  import opened ReactorInvariants
  import opened ReactorFibers

  ghost predicate AllGone(s: State) {
    forall w :: 0 <= w < |s.workers| ==> s.workers[w].pc.Gone?
  }

  /** Nothing queued, running, armed, registered, collected or waiting to be rescheduled. */
  ghost predicate Quiet(s: State) {
    && s.queue == [] && s.active == 0 && s.timers == 0 && s.events == 0 && s.pending == 0
    && forall w :: 0 <= w < |s.workers| ==>
      !s.workers[w].pc.Requeue? && (s.workers[w].pc.Collected? ==> s.workers[w].pc.cbs == [])
  }

  ghost predicate Safe(cfg: Config) {
    forall s, trace, t :: Init(cfg, s) && Run(cfg, s, trace, t) && AllGone(t) ==> Quiet(t)
  }

  // --- when shutdown is safe ---

  /** Some worker has not been told to stop. */
  ghost predicate Watched(s: State) {
    exists w :: 0 <= w < |s.workers| && s.workers[w].idle != TERM
  }

  predicate Stage(cfg: Config, me: Worker) {
    && (me.pc.Requeue? ==> cfg.yieldsReady)
    && (me.pc.Poll? ==> me.pc.seen <= 2 && (cfg.atomicStopping ==> me.pc.seen == 0))
    && (me.owes > 0 ==> Running(me.pc) || me.pc.Deliver?)
  }

  /** What a lone worker has read is still so. */
  predicate StillSo(s: State, me: Worker) {
    me.pc.Poll? ==> (me.pc.seen >= 1 ==> s.timers == 0) && (me.pc.seen >= 2 ==> s.pending == 0)
  }

  ghost predicate Guarded(cfg: Config, s: State) {
    && |s.workers| == cfg.workers
    && Conserved(s) && Wired(s)
    && (forall w :: 0 <= w < |s.workers| ==> Stage(cfg, s.workers[w]))
    && (Lone(cfg) ==> StillSo(s, s.workers[0]))
    && Held(s)
  }

  /** Either nothing is left to do and nothing comes from outside, or somebody watches. */
  ghost predicate Held(s: State) {
    (Quiet(s) && s.stopped) || Watched(s)
  }

  /** One worker, and all work comes from its tasks. */
  predicate Lone(cfg: Config) {
    cfg.workers == 1 && !cfg.outsideWork && !cfg.lateWork
  }

  predicate SafeConfig(cfg: Config) {
    !cfg.lateWork && (cfg.workers == 1 || !cfg.yieldsReady) && (cfg.atomicStopping || Lone(cfg))
  }

  lemma {:induction false} NoHands(ws: seq<Worker>, w: nat)
    requires w < |ws| && |Hands(ws)| == 0
    ensures !Busy(ws[w].pc)
  {
    if w > 0 { NoHands(ws[1..], w - 1); }
  }

  /** A step changes only the worker that takes it. */
  lemma OneMoves(cfg: Config, s: State, w: nat, action: Action)
    requires w < |s.workers| && ActionEnabled(cfg, s, w, action)
    ensures |Acted(cfg, s, w, action).workers| == |s.workers|
    ensures Acted(cfg, s, w, action).workers == s.workers[w := Acted(cfg, s, w, action).workers[w]]
  {
    match action
    case Task(_) =>
    case _ =>
  }

  lemma NobodyMoves(cfg: Config, s: State, o: OutsideAction)
    requires OutsideEnabled(cfg, s, o)
    ensures OutsideDone(cfg, s, o).workers == s.workers
  {}

  lemma HeldStage(cfg: Config, s: State, w: nat)
    requires w < |s.workers| && s.workers[w].pc.Head? && FirstEligible(s.queue, w, s.fibers).Some?
    requires Stage(cfg, s.workers[w])
    ensures Stage(cfg, Picked(s, w).workers[w]) && !Picked(s, w).workers[w].pc.Poll?
    ensures Picked(s, w).workers[w].idle == s.workers[w].idle
  {}

  lemma FinishedStage(cfg: Config, s: State, w: nat, o: FiberState)
    requires w < |s.workers| && Running(s.workers[w].pc) && s.workers[w].owes == 0 && (o == READY ==> cfg.yieldsReady)
    ensures Stage(cfg, Finished(s, w, o).workers[w]) && !Finished(s, w, o).workers[w].pc.Poll?
    ensures Finished(s, w, o).workers[w].idle == s.workers[w].idle
  {}

  lemma IdleStage(cfg: Config, s: State, w: nat, a: IdleAction)
    requires w < |s.workers| && IdleEnabled(cfg, s, w, a) && Stage(cfg, s.workers[w])
    ensures Stage(cfg, IdleNext(s.workers[w], a))
  {}

  /** A step within a task, or the end of a delivery. */
  lemma InsideStage(cfg: Config, s: State, w: nat, action: Action)
    requires w < |s.workers| && ActionEnabled(cfg, s, w, action) && Stage(cfg, s.workers[w])
    requires action.Task? || action.Trigger? || action.Settle?
    ensures var me := Acted(cfg, s, w, action).workers[w];
      Stage(cfg, me) && me.pc == s.workers[w].pc && me.idle == s.workers[w].idle && !me.pc.Poll?
  {}

  /** A step back to the loop head, or out. */
  lemma LeavingStage(cfg: Config, s: State, w: nat, action: Action)
    requires w < |s.workers| && ActionEnabled(cfg, s, w, action) && Stage(cfg, s.workers[w])
    requires action.Dropped? || action.Reschedule? || action.Leave?
    ensures var me := Acted(cfg, s, w, action).workers[w];
      Stage(cfg, me) && me.idle == s.workers[w].idle && !me.pc.Poll?
  {}

  lemma StageKept(cfg: Config, s: State, w: nat, action: Action)
    requires w < |s.workers| && ActionEnabled(cfg, s, w, action) && Stage(cfg, s.workers[w])
    ensures |Acted(cfg, s, w, action).workers| == |s.workers|
    ensures Stage(cfg, Acted(cfg, s, w, action).workers[w])
    ensures !action.Idle? ==> !Acted(cfg, s, w, action).workers[w].pc.Poll?
    ensures !action.Idle? ==> Acted(cfg, s, w, action).workers[w].idle == s.workers[w].idle
  {
    OneMoves(cfg, s, w, action);
    match action
    case Pick => HeldStage(cfg, s, w);
    case Finish(o) => FinishedStage(cfg, s, w, o);
    case Idle(a) => IdleStage(cfg, s, w, a);
    case Task(_) => InsideStage(cfg, s, w, action);
    case Trigger(_) => InsideStage(cfg, s, w, action);
    case Settle => InsideStage(cfg, s, w, action);
    case _ => LeavingStage(cfg, s, w, action);
  }

  /** Told to stop and nobody else watching: nothing is left to do. */
  lemma LastStop(cfg: Config, s: State, w: nat)
    requires Conserved(s) && Wired(s) && w < |s.workers|
    requires s.timers == 0 && s.pending == 0 && MayStop(s)
    requires forall v :: 0 <= v < |s.workers| && v != w ==> s.workers[v].idle == TERM
    requires forall v :: 0 <= v < |s.workers| ==> !s.workers[v].pc.Requeue?
    requires s.workers[w].pc.Poll?
    ensures Quiet(With(s, w, s.workers[w].(pc := Head, idle := TERM)))
  {
    forall v | 0 <= v < |s.workers| && v != w ensures !InIdle(s.workers[v].pc) {
      assert IdleShape(s.workers[v]);
    }
  }

  /** Nobody watching: the only step left to a worker is to leave. */
  lemma QuietActed(cfg: Config, s: State, w: nat, action: Action)
    requires Conserved(s) && Wired(s) && Quiet(s) && !Watched(s) && w < |s.workers| && ActionEnabled(cfg, s, w, action)
    requires forall v :: 0 <= v < |s.workers| ==> Stage(cfg, s.workers[v])
    ensures Quiet(Acted(cfg, s, w, action)) && Acted(cfg, s, w, action).stopped == s.stopped
  {
    var me := s.workers[w];
    NoHands(s.workers, w);
    assert IdleShape(me) && Stage(cfg, me);
    assert me.idle == TERM;
    assert action.Leave?;
  }

  /** And from outside comes nothing any more. */
  lemma QuietOutside(cfg: Config, s: State, o: OutsideAction)
    requires Conserved(s) && Quiet(s) && s.stopped && !cfg.lateWork && OutsideEnabled(cfg, s, o)
    ensures Quiet(OutsideDone(cfg, s, o)) && OutsideDone(cfg, s, o).stopped
  {}

  /** Only the end of `stopping()` tells a worker to stop. */
  lemma WhoStops(cfg: Config, s: State, w: nat, action: Action, a: nat)
    requires w < |s.workers| && ActionEnabled(cfg, s, w, action) && Stage(cfg, s.workers[w])
    requires a < |s.workers| && s.workers[a].idle != TERM
    ensures a < |Acted(cfg, s, w, action).workers|
    ensures Acted(cfg, s, w, action).workers[a].idle == TERM ==>
      a == w && (action == Idle(SeeStopping) || action == Idle(ReadQueue))
  {
    OneMoves(cfg, s, w, action);
    StageKept(cfg, s, w, action);
  }

  lemma StopSeen(cfg: Config, s: State, a: nat, act: IdleAction)
    requires Conserved(s) && Wired(s) && SafeConfig(cfg) && |s.workers| == cfg.workers && a < |s.workers|
    requires forall w :: 0 <= w < |s.workers| ==> Stage(cfg, s.workers[w])
    requires Lone(cfg) ==> StillSo(s, s.workers[0])
    requires act == SeeStopping || act == ReadQueue
    requires IdleEnabled(cfg, s, a, act)
    ensures Held(IdleMoved(s, a, act))
  {
    if forall v :: 0 <= v < |s.workers| && v != a ==> s.workers[v].idle == TERM {
      forall v | 0 <= v < |s.workers| ensures !s.workers[v].pc.Requeue? {
        assert Stage(cfg, s.workers[v]);
      }
      LastStop(cfg, s, a);
    } else {
      var b :| 0 <= b < |s.workers| && b != a && s.workers[b].idle != TERM;
      assert IdleMoved(s, a, act).workers[b].idle != TERM;
    }
  }

  lemma WatchKept(cfg: Config, s: State, w: nat, action: Action)
    requires Guarded(cfg, s) && SafeConfig(cfg) && Watched(s) && w < |s.workers| && ActionEnabled(cfg, s, w, action)
    ensures Held(Acted(cfg, s, w, action))
  {
    var a :| 0 <= a < |s.workers| && s.workers[a].idle != TERM;
    WhoStops(cfg, s, w, action, a);
    if Acted(cfg, s, w, action).workers[a].idle == TERM {
      StopSeen(cfg, s, a, action.idle);
    }
  }

  lemma WatchOutside(cfg: Config, s: State, o: OutsideAction)
    requires Watched(s) && OutsideEnabled(cfg, s, o)
    ensures Watched(OutsideDone(cfg, s, o))
  {
    NobodyMoves(cfg, s, o);
    var a :| 0 <= a < |s.workers| && s.workers[a].idle != TERM;
    assert OutsideDone(cfg, s, o).workers[a].idle != TERM;
  }

  lemma StillSoActed(cfg: Config, s: State, action: Action)
    requires |s.workers| == 1 && Stage(cfg, s.workers[0]) && StillSo(s, s.workers[0])
    requires ActionEnabled(cfg, s, 0, action)
    ensures |Acted(cfg, s, 0, action).workers| == 1
    ensures StillSo(Acted(cfg, s, 0, action), Acted(cfg, s, 0, action).workers[0])
  {
    StageKept(cfg, s, 0, action);
    if action.Idle? { IdleStillSo(cfg, s, action.idle); }
  }

  lemma IdleStillSo(cfg: Config, s: State, a: IdleAction)
    requires |s.workers| == 1 && StillSo(s, s.workers[0]) && IdleEnabled(cfg, s, 0, a)
    ensures StillSo(IdleMoved(s, 0, a), IdleNext(s.workers[0], a))
  {}

  /** What has been cancelled from outside is counted down; nothing is created. */
  lemma StillSoOutside(cfg: Config, s: State, o: OutsideAction)
    requires Conserved(s) && Lone(cfg) && |s.workers| == 1 && StillSo(s, s.workers[0]) && OutsideEnabled(cfg, s, o)
    ensures StillSo(OutsideDone(cfg, s, o), s.workers[0])
  {}

  lemma StagesKept(cfg: Config, s: State, e: Event)
    requires Enabled(cfg, s, e) && forall w :: 0 <= w < |s.workers| ==> Stage(cfg, s.workers[w])
    ensures |Apply(cfg, s, e).workers| == |s.workers|
    ensures forall w :: 0 <= w < |s.workers| ==> Stage(cfg, Apply(cfg, s, e).workers[w])
  {
    match e
    case Event(w, action) =>
      StageKept(cfg, s, w, action);
      OneMoves(cfg, s, w, action);
    case Outside(o) => NobodyMoves(cfg, s, o);
  }

  lemma OutcomeKept(cfg: Config, s: State, e: Event)
    requires Guarded(cfg, s) && SafeConfig(cfg) && Enabled(cfg, s, e)
    ensures Held(Apply(cfg, s, e))
  {
    match e
    case Event(w, action) =>
      if Watched(s) { WatchKept(cfg, s, w, action); } else { QuietActed(cfg, s, w, action); }
    case Outside(o) =>
      if Watched(s) { WatchOutside(cfg, s, o); } else { QuietOutside(cfg, s, o); }
  }

  lemma LoneKept(cfg: Config, s: State, e: Event)
    requires Guarded(cfg, s) && Enabled(cfg, s, e) && Lone(cfg)
    ensures |Apply(cfg, s, e).workers| == 1 && StillSo(Apply(cfg, s, e), Apply(cfg, s, e).workers[0])
  {
    match e
    case Event(_, action) => StillSoActed(cfg, s, action);
    case Outside(o) =>
      NobodyMoves(cfg, s, o);
      StillSoOutside(cfg, s, o);
  }

  lemma GuardKept(cfg: Config, s: State, e: Event)
    requires Guarded(cfg, s) && SafeConfig(cfg) && Enabled(cfg, s, e)
    ensures Guarded(cfg, Apply(cfg, s, e))
  {
    var t := Apply(cfg, s, e);
    assert Conserved(t) by { StepConserved(cfg, s, e); }
    assert Wired(t) by { StepWired(cfg, s, e); }
    StagesKept(cfg, s, e);
    OutcomeKept(cfg, s, e);
    if Lone(cfg) { LoneKept(cfg, s, e); }
  }

  lemma {:induction false} RunGuarded(cfg: Config, s: State, trace: seq<Event>, t: State)
    requires Guarded(cfg, s) && SafeConfig(cfg) && Run(cfg, s, trace, t)
    ensures Guarded(cfg, t)
    decreases |trace|
  {
    if trace != [] {
      GuardKept(cfg, s, trace[0]);
      RunGuarded(cfg, Apply(cfg, s, trace[0]), trace[1..], t);
    }
  }

  lemma InitGuarded(cfg: Config, s: State)
    requires Init(cfg, s)
    ensures Guarded(cfg, s)
  {
    InitConserved(cfg, s);
    InitWired(cfg, s);
    assert s.workers[0].idle != TERM;
  }

  /** A worker that has left had been told to stop. */
  lemma GoneIsTold(s: State)
    requires Wired(s) && AllGone(s)
    ensures !Watched(s)
  {
    forall w | 0 <= w < |s.workers| ensures s.workers[w].idle == TERM { assert IdleShape(s.workers[w]); }
  }

  lemma SafeWhen(cfg: Config)
    requires SafeConfig(cfg)
    ensures Safe(cfg)
  {
    forall s, trace, t | Init(cfg, s) && Run(cfg, s, trace, t) && AllGone(t) ensures Quiet(t) {
      InitGuarded(cfg, s);
      RunGuarded(cfg, s, trace, t);
      GoneIsTold(t);
    }
  }

  // --- when it is not: runs that leave work behind ---

  const TOLD := Worker(Head, TERM, None, 0)
  const LEFT := Worker(Gone, TERM, None, 0)

  function Polling(k: nat): Worker {
    Worker(Poll(k), EXEC, None, 0)
  }

  /** An idle step from `c` to `d` whose condition no other worker's idling affects. */
  predicate CrewMove(cfg: Config, s: State, c: Worker, d: Worker, act: Action) {
    && (s.queue == [] || (|s.queue| == 1 && s.queue[0].thread == 1))
    && (|| (act == Idle(Enter) && c == FRESH && d == Polling(0))
        || (act == Idle(ReadTimers) && !cfg.atomicStopping && s.timers == 0 && c == Polling(0) && d == Polling(1))
        || (act == Idle(ReadPending) && !cfg.atomicStopping && s.pending == 0 && c == Polling(1) && d == Polling(2))
        || (act == Idle(ReadQueue) && !cfg.atomicStopping && MayStop(s) && c == Polling(2) && d == TOLD)
        || (act == Idle(SeeStopping) && cfg.atomicStopping && s.timers == 0 && s.pending == 0 && MayStop(s)
          && c == Polling(0) && d == TOLD)
        || (act == Leave && c == TOLD && d == LEFT))
  }

  /** All from `k` on are `d`. */
  function From(ws: seq<Worker>, k: nat, d: Worker): (r: seq<Worker>)
    ensures |r| == |ws| && forall i :: 0 <= i < |ws| ==> r[i] == if i < k then ws[i] else d
  {
    seq(|ws|, i requires 0 <= i < |ws| => if i < k then ws[i] else d)
  }

  /** All from `k` on take the same idle step. */
  lemma {:induction false} EachMoves(cfg: Config, s0: State, s: State, k: nat, c: Worker, d: Worker, act: Action)
    requires Reaches(cfg, s0, s) && CrewMove(cfg, s, c, d, act) && k <= |s.workers| && (s.queue == [] || k > 1)
    requires forall i :: k <= i < |s.workers| ==> s.workers[i] == c
    ensures Reaches(cfg, s0, s.(workers := From(s.workers, k, d)))
    decreases |s.workers| - k
  {
    if k < |s.workers| {
      var t := s.(workers := s.workers[k := d]);
      Turn(cfg, s0, s, k, d, act);
      EachMoves(cfg, s0, t, k + 1, c, d, act);
      assert From(t.workers, k + 1, d) == From(s.workers, k, d);
    } else {
      assert From(s.workers, k, d) == s.workers;
    }
  }

  /** One worker takes a step that changes only that worker. */
  lemma Turn(cfg: Config, s0: State, s: State, w: nat, d: Worker, act: Action)
    requires w < |s.workers| && Reaches(cfg, s0, s) && CrewMove(cfg, s, s.workers[w], d, act)
    requires s.queue == [] || w != 1
    ensures Reaches(cfg, s0, s.(workers := s.workers[w := d]))
  {
    Then(cfg, s0, s, Event(w, act));
    assert Apply(cfg, s, Event(w, act)) == s.(workers := s.workers[w := d]);
  }

  /** Everybody but 0 and 1 takes the same idle step. */
  lemma CrewAll(cfg: Config, s0: State, s: State, n: nat, a: Worker, b: Worker, c: Worker, d: Worker, act: Action)
    requires n >= 2 && Reaches(cfg, s0, s) && s.workers == Team(n, a, b, c)
    requires CrewMove(cfg, s, c, d, act)
    ensures Reaches(cfg, s0, s.(workers := Team(n, a, b, d)))
  {
    EachMoves(cfg, s0, s, 2, c, d, act);
    assert From(s.workers, 2, d) == Team(n, a, b, d);
  }

  /** Everybody but worker 1 takes the same idle step. */
  lemma OthersAll(cfg: Config, s0: State, s: State, n: nat, b: Worker, c: Worker, d: Worker, act: Action)
    requires n >= 2 && Reaches(cfg, s0, s) && s.workers == Team(n, c, b, c)
    requires CrewMove(cfg, s, c, d, act)
    ensures Reaches(cfg, s0, s.(workers := Team(n, d, b, d)))
  {
    CrewAll(cfg, s0, s, n, c, b, c, d, act);
    var t := s.(workers := Team(n, c, b, d));
    Turn(cfg, s0, t, 0, d, act);
    TeamUpdate(n, c, b, d, d);
  }

  /** One callback queued for worker 1, everybody about to start. */
  function Start(n: nat): State
    requires n >= 2
  {
    var e := Entry(0, CallbackJob(0), 1);
    State([e], Team(n, FRESH, FRESH, FRESH), [], 0, 0, 0, 0, false, 0, 1, multiset{e}, multiset{})
  }

  /** A step of worker 0 or 1 leaves the crew alone. */
  lemma Lead(cfg: Config, s0: State, s: State, n: nat, a: Worker, b: Worker, c: Worker, w: nat, act: Action)
      returns (t: State)
    requires n >= 2 && w < 2 && Reaches(cfg, s0, s) && s.workers == Team(n, a, b, c)
    requires Enabled(cfg, s, Event(w, act))
    ensures t == Apply(cfg, s, Event(w, act)) && Reaches(cfg, s0, t) && |t.workers| == n
    ensures t.workers == if w == 0 then Team(n, t.workers[0], b, c) else Team(n, a, t.workers[1], c)
  {
    t := Apply(cfg, s, Event(w, act));
    Then(cfg, s0, s, Event(w, act));
    OneMoves(cfg, s, w, act);
    TeamUpdate(n, a, b, c, t.workers[w]);
  }

  function Stopped(n: nat): State
    requires n >= 2
  {
    Start(n).(stopped := true)
  }

  lemma StopFirst(cfg: Config)
    requires cfg.workers >= 2
    ensures Reaches(cfg, Start(cfg.workers), Stopped(cfg.workers))
  {
    var s0 := Start(cfg.workers);
    assert Run(cfg, s0, [], s0);
    Then(cfg, s0, s0, Outside(Stop));
  }

  lemma StartInit(cfg: Config)
    requires cfg.workers >= 2
    ensures Init(cfg, Start(cfg.workers))
  {
    var s := Start(cfg.workers);
    assert multiset(s.queue) == multiset{s.queue[0]};
  }

  /** Worker 1 inside the callback that it found in the list. */
  const INSIDE := Worker(RunCallback(Entry(0, CallbackJob(0), 1), 0), INIT, Some(0), 0)

  /** Worker 1 picks the callback. */
  lemma FirstPick(cfg: Config, s: State, a: Worker, c: Worker) returns (t: State)
    requires cfg.workers >= 2 && Reaches(cfg, Start(cfg.workers), s) && s.stopped
    requires s == Stopped(cfg.workers).(workers := Team(cfg.workers, a, FRESH, c))
    ensures Reaches(cfg, Start(cfg.workers), t) && t.stopped
    ensures t == s.(queue := [], active := 1, fibers := [EXEC], workers := Team(cfg.workers, a, INSIDE, c))
  {
    t := Lead(cfg, Start(cfg.workers), s, cfg.workers, a, FRESH, c, 1, Pick);
    assert t.workers[1] == INSIDE;
    assert t.queue == [] && t.fibers == [EXEC];
  }

  /** The callback's fiber holds, or yields READY. */
  lemma FirstEnds(cfg: Config, s: State, a: Worker, c: Worker, o: FiberState) returns (t: State)
    requires cfg.workers >= 2 && Reaches(cfg, Start(cfg.workers), s) && s.stopped
    requires s.workers == Team(cfg.workers, a, INSIDE, c) && s.fibers == [EXEC] && s.active == 1
    requires o == HOLD || (o == READY && cfg.yieldsReady)
    ensures Reaches(cfg, Start(cfg.workers), t) && t.stopped
    ensures t == s.(workers := t.workers, fibers := [o], active := 0, done := t.done)
    ensures t.workers == Team(cfg.workers, a, FRESH.(pc := if o == READY then Requeue(0) else Head), c)
  {
    t := Lead(cfg, Start(cfg.workers), s, cfg.workers, a, INSIDE, c, 1, Finish(o));
    assert t.workers[1] == FRESH.(pc := if o == READY then Requeue(0) else Head);
    assert t.fibers == [o];
  }

  // Torn reads: everybody but worker 1 sees no timer; then worker 1's task arms one.

  lemma TornReadsA(cfg: Config) returns (t: State)
    requires cfg.workers >= 2 && !cfg.atomicStopping
    ensures Reaches(cfg, Start(cfg.workers), t) && t.stopped
    ensures t.queue == [] && t.active == 0 && t.pending == 0 && t.events == 0 && t.timers == 1 && t.fibers == [HOLD]
    ensures t.workers == Team(cfg.workers, TOLD, FRESH, LEFT)
  {
    var n, s0 := cfg.workers, Start(cfg.workers);
    StopFirst(cfg);
    var s := Stopped(n);
    OthersAll(cfg, s0, s, n, FRESH, FRESH, Polling(0), Idle(Enter));
    var s1 := s.(workers := Team(n, Polling(0), FRESH, Polling(0)));
    OthersAll(cfg, s0, s1, n, FRESH, Polling(0), Polling(1), Idle(ReadTimers));
    var s2 := s1.(workers := Team(n, Polling(1), FRESH, Polling(1)));
    var s3 := FirstPick(cfg, s2, Polling(1), Polling(1));
    var s4 := Lead(cfg, s0, s3, n, Polling(1), INSIDE, Polling(1), 1, Task(Arm));
    var s5 := FirstEnds(cfg, s4, Polling(1), Polling(1), HOLD);
    t := OthersFinishReading(cfg, s5);
  }

  /** Everybody but worker 1 makes the last two reads; all but 0 and 1 leave. */
  lemma OthersFinishReading(cfg: Config, s: State) returns (t: State)
    requires cfg.workers >= 2 && !cfg.atomicStopping && Reaches(cfg, Start(cfg.workers), s) && s.stopped
    requires MayStop(s) && s.pending == 0
    requires s.workers == Team(cfg.workers, Polling(1), FRESH, Polling(1))
    ensures Reaches(cfg, Start(cfg.workers), t) && t.stopped && t == s.(workers := Team(cfg.workers, TOLD, FRESH, LEFT))
  {
    var n, s0 := cfg.workers, Start(cfg.workers);
    OthersAll(cfg, s0, s, n, FRESH, Polling(1), Polling(2), Idle(ReadPending));
    var s1 := s.(workers := Team(n, Polling(2), FRESH, Polling(2)));
    OthersAll(cfg, s0, s1, n, FRESH, Polling(2), TOLD, Idle(ReadQueue));
    var s2 := s1.(workers := Team(n, TOLD, FRESH, TOLD));
    CrewAll(cfg, s0, s2, n, TOLD, FRESH, TOLD, LEFT, Leave);
    t := s2.(workers := Team(n, TOLD, FRESH, LEFT));
  }

  // Worker 1 collects the timer; worker 0, told to stop, still runs the callback,
  // which arms another one behind worker 1's back.

  const COLLECTING := Worker(Collected([0]), EXEC, None, 0)

  lemma CollectTimer(cfg: Config, s: State) returns (t: State)
    requires cfg.workers >= 2 && !cfg.atomicStopping && Reaches(cfg, Start(cfg.workers), s) && s.stopped
    requires s.queue == [] && s.active == 0 && s.pending == 0 && s.events == 0 && s.timers == 1 && s.fibers == [HOLD]
    requires s.workers == Team(cfg.workers, TOLD, FRESH, LEFT)
    ensures Reaches(cfg, Start(cfg.workers), t) && t.stopped
    ensures t.queue == [] && t.active == 0 && t.pending == 0 && t.events == 0 && t.timers == 0 && t.fibers == [HOLD]
    ensures t.workers == Team(cfg.workers, TOLD, COLLECTING, LEFT)
  {
    var n, s0 := cfg.workers, Start(cfg.workers);
    var s1 := Lead(cfg, s0, s, n, TOLD, FRESH, LEFT, 1, Idle(Enter));
    var s2 := Lead(cfg, s0, s1, n, TOLD, s1.workers[1], LEFT, 1, Idle(KeepGoing));
    t := Lead(cfg, s0, s2, n, TOLD, s2.workers[1], LEFT, 1, Idle(Collect([0], 1)));
  }

  lemma ScheduleTimer(cfg: Config, s: State) returns (t: State)
    requires cfg.workers >= 2 && !cfg.atomicStopping && Reaches(cfg, Start(cfg.workers), s) && s.stopped
    requires s.queue == [] && s.active == 0 && s.pending == 0 && s.events == 0 && s.timers == 0 && s.fibers == [HOLD]
    requires s.workers == Team(cfg.workers, TOLD, COLLECTING, LEFT)
    ensures Reaches(cfg, Start(cfg.workers), t) && t.stopped
    ensures |t.queue| == 1 && t.queue[0].job == CallbackJob(0) && t.queue[0].thread == -1
    ensures t.active == 0 && t.pending == 0 && t.events == 0 && t.timers == 0 && t.fibers == [HOLD]
    ensures t.workers == Team(cfg.workers, TOLD, FRESH.(idle := HOLD), LEFT)
  {
    var n, s0 := cfg.workers, Start(cfg.workers);
    var s1 := Lead(cfg, s0, s, n, TOLD, COLLECTING, LEFT, 1, Idle(ScheduleCollected));
    assert EnqueueAll(Enqueue(s, CallbackJob(0), -1), []) == Enqueue(s, CallbackJob(0), -1);
    t := Lead(cfg, s0, s1, n, TOLD, s1.workers[1], LEFT, 1, Idle(SwapOut));
  }

  lemma TornReadsB(cfg: Config, s: State) returns (t: State)
    requires cfg.workers >= 2 && !cfg.atomicStopping && Reaches(cfg, Start(cfg.workers), s) && s.stopped
    requires s.queue == [] && s.active == 0 && s.pending == 0 && s.events == 0 && s.timers == 1 && s.fibers == [HOLD]
    requires s.workers == Team(cfg.workers, TOLD, FRESH, LEFT)
    ensures Reaches(cfg, Start(cfg.workers), t) && t.stopped
    ensures |t.queue| == 1 && t.queue[0].job == CallbackJob(0) && t.queue[0].thread == -1
    ensures t.active == 0 && t.pending == 0 && t.events == 0 && t.timers == 0 && t.fibers == [HOLD]
    ensures t.workers == Team(cfg.workers, TOLD, FRESH.(idle := HOLD), LEFT)
  {
    var u := CollectTimer(cfg, s);
    t := ScheduleTimer(cfg, u);
  }

  lemma TornReadsC(cfg: Config, s: State) returns (t: State)
    requires cfg.workers >= 2 && !cfg.atomicStopping && Reaches(cfg, Start(cfg.workers), s) && s.stopped
    requires |s.queue| == 1 && s.queue[0].job == CallbackJob(0) && s.queue[0].thread == -1
    requires s.active == 0 && s.pending == 0 && s.events == 0 && s.timers == 0 && s.fibers == [HOLD]
    requires s.workers == Team(cfg.workers, TOLD, FRESH.(idle := HOLD), LEFT)
    ensures Reaches(cfg, Start(cfg.workers), t) && t.stopped && t.timers == 1
    ensures t.workers == Team(cfg.workers, LEFT, LEFT, LEFT)
  {
    var n, s0 := cfg.workers, Start(cfg.workers);
    var b := FRESH.(idle := HOLD);
    var s1 := Lead(cfg, s0, s, n, TOLD, b, LEFT, 0, Pick);
    var a := s1.workers[0];
    var s2 := Lead(cfg, s0, s1, n, a, b, LEFT, 1, Idle(Enter));
    var s3 := Lead(cfg, s0, s2, n, a, Polling(0), LEFT, 1, Idle(ReadTimers));
    var s5 := ArmAndEnd(cfg, s3, a);
    t := TornReadsD(cfg, s5);
  }

  lemma ArmAndEnd(cfg: Config, s: State, a: Worker) returns (t: State)
    requires cfg.workers >= 2 && Reaches(cfg, Start(cfg.workers), s) && s.stopped
    requires s.queue == [] && s.active == 1 && s.pending == 0 && s.timers == 0
    requires s.workers == Team(cfg.workers, a, Polling(1), LEFT)
    requires a.pc.RunCallback? && a.owes == 0 && a.idle == TERM
    ensures Reaches(cfg, Start(cfg.workers), t) && t.stopped
    ensures t.queue == [] && t.active == 0 && t.pending == 0 && t.timers == 1
    ensures t.workers == Team(cfg.workers, TOLD, Polling(1), LEFT)
  {
    var n, s0 := cfg.workers, Start(cfg.workers);
    var s1 := Lead(cfg, s0, s, n, a, Polling(1), LEFT, 0, Task(Arm));
    t := Lead(cfg, s0, s1, n, a, Polling(1), LEFT, 0, Finish(HOLD));
  }

  lemma TornReadsD(cfg: Config, s: State) returns (t: State)
    requires cfg.workers >= 2 && !cfg.atomicStopping && Reaches(cfg, Start(cfg.workers), s) && s.stopped
    requires s.queue == [] && s.active == 0 && s.pending == 0 && s.timers == 1
    requires s.workers == Team(cfg.workers, TOLD, Polling(1), LEFT)
    ensures Reaches(cfg, Start(cfg.workers), t) && t.stopped && t.timers == 1
    ensures t.workers == Team(cfg.workers, LEFT, LEFT, LEFT)
  {
    var n, s0 := cfg.workers, Start(cfg.workers);
    var s1 := Lead(cfg, s0, s, n, TOLD, Polling(1), LEFT, 1, Idle(ReadPending));
    var s2 := Lead(cfg, s0, s1, n, TOLD, Polling(2), LEFT, 1, Idle(ReadQueue));
    var s3 := Lead(cfg, s0, s2, n, TOLD, TOLD, LEFT, 1, Leave);
    t := Lead(cfg, s0, s3, n, TOLD, LEFT, LEFT, 0, Leave);
  }

  // A READY fiber: between the count-down and the reschedule it is in no counter.

  lemma ReadyRunA(cfg: Config) returns (t: State)
    requires cfg.workers >= 2 && cfg.atomicStopping && cfg.yieldsReady
    ensures Reaches(cfg, Start(cfg.workers), t) && t.stopped
    ensures t.queue == [] && t.active == 0 && t.pending == 0 && t.events == 0 && t.timers == 0 && t.fibers == [READY]
    ensures t.workers == Team(cfg.workers, TOLD, FRESH.(pc := Requeue(0)), LEFT)
  {
    var n, s0 := cfg.workers, Start(cfg.workers);
    StopFirst(cfg);
    var s := Stopped(n);
    var s1 := FirstPick(cfg, s, FRESH, FRESH);
    var s2 := FirstEnds(cfg, s1, FRESH, FRESH, READY);
    var b := FRESH.(pc := Requeue(0));
    OthersAll(cfg, s0, s2, n, b, FRESH, Polling(0), Idle(Enter));
    var s3 := s2.(workers := Team(n, Polling(0), b, Polling(0)));
    OthersAll(cfg, s0, s3, n, b, Polling(0), TOLD, Idle(SeeStopping));
    var s4 := s3.(workers := Team(n, TOLD, b, TOLD));
    CrewAll(cfg, s0, s4, n, TOLD, b, TOLD, LEFT, Leave);
    t := s4.(workers := Team(n, TOLD, b, LEFT));
  }

  lemma ReadyRunB(cfg: Config, s: State) returns (t: State)
    requires cfg.workers >= 2 && cfg.atomicStopping && cfg.yieldsReady
    requires Reaches(cfg, Start(cfg.workers), s) && s.stopped
    requires s.queue == [] && s.active == 0 && s.pending == 0 && s.events == 0 && s.timers == 0 && s.fibers == [READY]
    requires s.workers == Team(cfg.workers, TOLD, FRESH.(pc := Requeue(0)), LEFT)
    ensures Reaches(cfg, Start(cfg.workers), t) && t.stopped
    ensures t.queue == [] && t.active == 0 && t.pending == 0 && t.events == 0 && t.timers == 0 && t.fibers == [READY]
    ensures t.workers == Team(cfg.workers, TOLD.(pc := Requeue(0)), LEFT, LEFT)
  {
    var n, s0 := cfg.workers, Start(cfg.workers);
    var s1 := Lead(cfg, s0, s, n, TOLD, FRESH.(pc := Requeue(0)), LEFT, 1, Reschedule);
    var s2 := ReadyAgain(cfg, s1);
    t := LastLook(cfg, s2);
  }

  /** Worker 0, told to stop, runs the fiber from the list until it yields READY again. */
  lemma ReadyAgain(cfg: Config, s: State) returns (t: State)
    requires cfg.workers >= 2 && cfg.yieldsReady && Reaches(cfg, Start(cfg.workers), s) && s.stopped
    requires |s.queue| == 1 && s.queue[0].job == FiberJob(0) && s.queue[0].thread == -1
    requires s.active == 0 && s.fibers == [READY] && s.workers == Team(cfg.workers, TOLD, FRESH, LEFT)
    ensures Reaches(cfg, Start(cfg.workers), t) && t.stopped
    ensures t == s.(queue := [], workers := t.workers, done := t.done)
    ensures t.workers == Team(cfg.workers, TOLD.(pc := Requeue(0)), FRESH, LEFT)
  {
    var n, s0 := cfg.workers, Start(cfg.workers);
    var s1 := Lead(cfg, s0, s, n, TOLD, FRESH, LEFT, 0, Pick);
    assert s1.workers[0] == TOLD.(pc := RunFiber(s.queue[0], 0));
    t := Lead(cfg, s0, s1, n, s1.workers[0], FRESH, LEFT, 0, Finish(READY));
    assert t.workers[0] == TOLD.(pc := Requeue(0));
    assert t.fibers == [READY] && t.queue == [];
  }

  /** Worker 1 looks while worker 0 has a READY fiber in its hand, and leaves. */
  lemma LastLook(cfg: Config, s: State) returns (t: State)
    requires cfg.workers >= 2 && cfg.atomicStopping && Reaches(cfg, Start(cfg.workers), s) && s.stopped
    requires s.queue == [] && s.active == 0 && s.pending == 0 && s.timers == 0
    requires s.workers == Team(cfg.workers, TOLD.(pc := Requeue(0)), FRESH, LEFT)
    ensures Reaches(cfg, Start(cfg.workers), t) && t.stopped
    ensures t == s.(workers := Team(cfg.workers, TOLD.(pc := Requeue(0)), LEFT, LEFT))
  {
    var n, s0, a := cfg.workers, Start(cfg.workers), TOLD.(pc := Requeue(0));
    var s1 := Lead(cfg, s0, s, n, a, FRESH, LEFT, 1, Idle(Enter));
    var s2 := Lead(cfg, s0, s1, n, a, Polling(0), LEFT, 1, Idle(SeeStopping));
    t := Lead(cfg, s0, s2, n, a, TOLD, LEFT, 1, Leave);
  }

  lemma ReadyRunC(cfg: Config, s: State) returns (t: State)
    requires cfg.workers >= 2 && cfg.atomicStopping && cfg.yieldsReady
    requires Reaches(cfg, Start(cfg.workers), s) && s.stopped
    requires s.queue == [] && s.active == 0 && s.pending == 0 && s.events == 0 && s.timers == 0 && s.fibers == [READY]
    requires s.workers == Team(cfg.workers, TOLD.(pc := Requeue(0)), LEFT, LEFT)
    ensures Reaches(cfg, Start(cfg.workers), t) && t.stopped && t.events == 1
    ensures t.workers == Team(cfg.workers, LEFT, LEFT, LEFT)
  {
    var n, s0 := cfg.workers, Start(cfg.workers);
    var s1 := Lead(cfg, s0, s, n, TOLD.(pc := Requeue(0)), LEFT, LEFT, 0, Reschedule);
    var s2 := Lead(cfg, s0, s1, n, TOLD, LEFT, LEFT, 0, Pick);
    t := RegisterAndLeave(cfg, s2, s2.workers[0]);
  }

  /** The last worker's fiber registers an event and holds; the worker leaves. */
  lemma RegisterAndLeave(cfg: Config, s: State, a: Worker) returns (t: State)
    requires cfg.workers >= 2 && Reaches(cfg, Start(cfg.workers), s) && s.stopped
    requires s.queue == [] && s.events == 0 && s.workers == Team(cfg.workers, a, LEFT, LEFT)
    requires a.pc.RunFiber? && a.(pc := Head) == TOLD
    ensures Reaches(cfg, Start(cfg.workers), t) && t.stopped && t.events == 1
    ensures t.workers == Team(cfg.workers, LEFT, LEFT, LEFT)
  {
    var n, s0 := cfg.workers, Start(cfg.workers);
    var s1 := Lead(cfg, s0, s, n, a, LEFT, LEFT, 0, Task(Register));
    var s2 := Lead(cfg, s0, s1, n, a, LEFT, LEFT, 0, Finish(HOLD));
    assert s2.workers[0] == TOLD;
    t := Lead(cfg, s0, s2, n, TOLD, LEFT, LEFT, 0, Leave);
  }

  // Work from outside.

  /** Nothing to do. */
  function Empty(n: nat): State {
    State([], seq(n, _ => FRESH), [], 0, 0, 0, 0, false, 0, 0, multiset{}, multiset{})
  }

  /** Every worker of an empty, stopped scheduler leaves. */
  lemma AllLeave(cfg: Config, s0: State, s: State)
    requires Reaches(cfg, s0, s) && s == Empty(cfg.workers).(stopped := true)
    ensures Reaches(cfg, s0, s.(workers := seq(cfg.workers, _ => LEFT)))
  {
    var n := cfg.workers;
    var s1 := AllMove(cfg, s0, s, FRESH, Polling(0), Idle(Enter));
    var s4: State;
    if cfg.atomicStopping {
      s4 := AllMove(cfg, s0, s1, Polling(0), TOLD, Idle(SeeStopping));
    } else {
      var s2 := AllMove(cfg, s0, s1, Polling(0), Polling(1), Idle(ReadTimers));
      var s3 := AllMove(cfg, s0, s2, Polling(1), Polling(2), Idle(ReadPending));
      s4 := AllMove(cfg, s0, s3, Polling(2), TOLD, Idle(ReadQueue));
    }
    var s5 := AllMove(cfg, s0, s4, TOLD, LEFT, Leave);
  }

  lemma AllMove(cfg: Config, s0: State, s: State, c: Worker, d: Worker, act: Action) returns (t: State)
    requires Reaches(cfg, s0, s) && CrewMove(cfg, s, c, d, act) && s.queue == []
    requires s.workers == seq(cfg.workers, _ => c)
    ensures t == s.(workers := seq(cfg.workers, _ => d)) && Reaches(cfg, s0, t)
  {
    t := s.(workers := seq(cfg.workers, _ => d));
    EachMoves(cfg, s0, s, 0, c, d, act);
    assert From(s.workers, 0, d) == t.workers;
  }

  /** A submission after everybody has left. */
  lemma LateRun(cfg: Config) returns (t: State)
    requires cfg.workers >= 1 && cfg.lateWork
    ensures Reaches(cfg, Empty(cfg.workers), t) && AllGone(t) && |t.queue| == 1
  {
    var s0 := Empty(cfg.workers);
    assert Run(cfg, s0, [], s0);
    Then(cfg, s0, s0, Outside(Stop));
    var s1 := s0.(stopped := true);
    AllLeave(cfg, s0, s1);
    var s2, e := s1.(workers := seq(cfg.workers, _ => LEFT)), Outside(Does(Spawn(CallbackJob(0), -1)));
    Then(cfg, s0, s2, e);
    t := Apply(cfg, s2, e);
  }

  /** A timer armed from outside, before `stop()`, behind the back of the only worker: it has
      seen no timer, and reads the rest after `stop()`. */
  lemma LoneTornRun(cfg: Config) returns (t: State)
    requires cfg.workers == 1 && !cfg.atomicStopping && cfg.outsideWork
    ensures Reaches(cfg, Empty(1), t) && AllGone(t) && t.timers == 1
  {
    var s0 := Empty(1);
    assert Run(cfg, s0, [], s0);
    var s1 := AllMove(cfg, s0, s0, FRESH, Polling(0), Idle(Enter));
    var s2 := AllMove(cfg, s0, s1, Polling(0), Polling(1), Idle(ReadTimers));
    Then(cfg, s0, s2, Outside(Does(Arm)));
    var s3 := s2.(timers := 1);
    Then(cfg, s0, s3, Outside(Stop));
    var s4 := s3.(stopped := true);
    var s5 := AllMove(cfg, s0, s4, Polling(1), Polling(2), Idle(ReadPending));
    var s6 := AllMove(cfg, s0, s5, Polling(2), TOLD, Idle(ReadQueue));
    t := AllMove(cfg, s0, s6, TOLD, LEFT, Leave);
  }

  lemma EmptyInit(cfg: Config)
    requires cfg.workers >= 1
    ensures Init(cfg, Empty(cfg.workers))
  {
    assert multiset(Empty(cfg.workers).queue) == multiset{};
  }

  lemma BadRun(cfg: Config) returns (s: State, t: State)
    requires cfg.workers >= 1 && !SafeConfig(cfg)
    ensures Init(cfg, s) && Reaches(cfg, s, t) && AllGone(t) && !Quiet(t)
  {
    if cfg.lateWork {
      s := Empty(cfg.workers);
      EmptyInit(cfg);
      t := LateRun(cfg);
    } else if cfg.workers == 1 {
      s := Empty(cfg.workers);
      EmptyInit(cfg);
      t := LoneTornRun(cfg);
    } else {
      s := Start(cfg.workers);
      StartInit(cfg);
      t := TeamRun(cfg);
    }
  }

  lemma TeamRun(cfg: Config) returns (t: State)
    requires cfg.workers >= 2 && (!cfg.atomicStopping || cfg.yieldsReady)
    ensures Reaches(cfg, Start(cfg.workers), t) && AllGone(t) && !Quiet(t)
  {
    if cfg.atomicStopping {
      var a := ReadyRunA(cfg);
      var b := ReadyRunB(cfg, a);
      t := ReadyRunC(cfg, b);
    } else {
      var a := TornReadsA(cfg);
      var b := TornReadsB(cfg, a);
      t := TornReadsC(cfg, b);
    }
  }

  lemma UnsafeWhen(cfg: Config)
    requires cfg.workers >= 1 && !SafeConfig(cfg)
    ensures !Safe(cfg)
  {
    var s, t := BadRun(cfg);
    var trace :| Run(cfg, s, trace, t);
  }

  /** From a fresh start, shutdown is safe for every program and every interleaving exactly
      when nobody outside creates work after `stop()`, there is one worker or no task yields
      READY, and `stopping()` reads everything at once or the one worker's tasks are the only
      ones to create work. */
  lemma ShutdownSafety(cfg: Config)
    requires cfg.workers >= 1
    ensures Safe(cfg) <==>
      && !cfg.lateWork
      && (cfg.workers == 1 || !cfg.yieldsReady)
      && (cfg.atomicStopping || (cfg.workers == 1 && !cfg.outsideWork))
  {
    if SafeConfig(cfg) { SafeWhen(cfg); } else { UnsafeWhen(cfg); }
  }
}
