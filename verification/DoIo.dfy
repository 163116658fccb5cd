/** `do_io`: one hooked call on one (fd, event), with its retries, interleaved with
    readiness, cancellation by others, timer expiry and timer callbacks that were
    collected in an earlier round and run late. Others may delete the registration with
    `delEvent`, and register the same event while this call does not have it registered.
    Setting the fiber's state and swapping out is one step. */
module DoIo {
  import opened Base

  datatype Pc =
    | Try                       // about to call the original function
    | Arming                    // it said EAGAIN; the timer, if any, is armed
    | Registered                // addEvent succeeded, not yet swapped out
    | Parked                    // YieldToHold
    | Resumed                   // swapped in again, timer not yet cancelled
    | Checking                  // about to look at tinfo->cancelled
    | Returned(timedOut: bool)

  /** `armed`, `collected` and `firing` are timers of this call: in the timer set,
      in somebody's list of expired callbacks, and past `t->cancelled = ETIMEDOUT`
      but before `cancelEvent`. The last six fields only record what happened. */
  datatype State = State(
    pc: Pc,
    timed: bool,                // timeout != -1
    waiting: bool,              // the event is registered for this fiber
    foreign: bool,              // the event is registered by somebody else
    queued: nat,                // entries for this fiber in the scheduler's list
    cancelled: bool,            // tinfo->cancelled
    current: nat,               // the timer of this round
    armed: set<nat>,
    collected: set<nat>,
    firing: nat,
    adds: nat,
    wakes: nat,
    resumes: nat,
    deletes: nat,
    lost: bool,                 // the registration that the fiber sleeps on was deleted
    muted: bool)                // the last addEvent came after a timeout had fired in vain

  datatype Step =
    | Succeed                   // the original function returns something other than EAGAIN
    | Again                     // EAGAIN: arm a timer
    | Add
    | AddFails
    | Park
    | Resume
    | CancelTimer
    | Check
    | Ready                     // delivery by idle, cancelEvent or cancelAll by others
    | Delete                    // delEvent by others
    | OtherAdds                 // addEvent by somebody else
    | OtherEnds                 // that registration is delivered, cancelled or deleted
    | Expire(timer: nat)
    | Callback(timer: nat)
    | Fire                      // cancelEvent in the timer callback

  predicate Alive(s: State) {
    !s.pc.Returned?
  }

  predicate Enabled(s: State, a: Step) {
    match a
    case Succeed | Again => s.pc.Try?
    case Add | AddFails => s.pc.Arming? && !s.foreign       // addEvent asserts that the event is free
    case Park => s.pc.Registered?
    case Resume => s.pc.Parked? && s.queued > 0
    case CancelTimer => s.pc.Resumed?
    case Check => s.pc.Checking?
    case Ready | Delete => s.waiting
    case OtherAdds => !s.waiting && !s.foreign
    case OtherEnds => s.foreign
    case Expire(t) => t in s.armed
    case Callback(t) => t in s.collected
    case Fire => s.firing > 0
  }

  /** `triggerEvent`: the registration goes and the fiber is scheduled. */
  function Woken(s: State): State {
    s.(waiting := false, queued := s.queued + 1, wakes := s.wakes + 1)
  }

  function Apply(s: State, a: Step): State
    requires Enabled(s, a)
  {
    match a
    case Succeed => s.(pc := Returned(false))
    case Again =>
      var t := s.current + 1;
      if s.timed then s.(pc := Arming, current := t, armed := s.armed + {t}) else s.(pc := Arming)
    case Add => s.(pc := Registered, waiting := true, adds := s.adds + 1, muted := s.cancelled && s.firing == 0)
    case AddFails => s.(pc := Returned(false), armed := s.armed - {s.current})
    case Park => s.(pc := Parked)
    case Resume => s.(pc := Resumed, queued := s.queued - 1, resumes := s.resumes + 1)
    case CancelTimer => s.(pc := Checking, armed := s.armed - {s.current})
    case Check => if s.cancelled then s.(pc := Returned(true)) else s.(pc := Try)
    case Ready => Woken(s)
    case Delete => s.(waiting := false, deletes := s.deletes + 1, lost := true)
    case OtherAdds => s.(foreign := true)
    case OtherEnds => s.(foreign := false)
    case Expire(t) => s.(armed := s.armed - {t}, collected := s.collected + {t})
    case Callback(t) =>
      var ran := s.(collected := s.collected - {t});
      // the weak pointer is dead after the call, and only the first timeout acts
      if Alive(s) && !s.cancelled then ran.(cancelled := true, firing := s.firing + 1) else ran
    case Fire =>
      // cancelEvent ends whatever registration it finds
      var fired := s.(firing := s.firing - 1);
      if s.waiting then Woken(fired) else fired.(foreign := false)
  }

  function Start(timed: bool): State {
    State(Try, timed, false, false, 0, false, 0, {}, {}, 0, 0, 0, 0, 0, false, false)
  }

  ghost predicate Run(s: State, trace: seq<Step>, t: State)
    decreases |trace|
  {
    if trace == [] then s == t else Enabled(s, trace[0]) && Run(Apply(s, trace[0]), trace[1..], t)
  }

  predicate Suspended(s: State) {
    s.pc.Registered? || s.pc.Parked?
  }

  /** A timer of this round will still wake the fiber: it is armed or collected and
      not disarmed by an earlier timeout, or one is on its way to `cancelEvent`. */
  predicate TimeoutPending(s: State) {
    s.firing > 0 || (!s.cancelled && (s.current in s.armed || s.current in s.collected))
  }

  /** Each registration is live, or was woken or deleted exactly once, and each wake-up is
      either queued or was resumed exactly once. */
  predicate Counted(s: State) {
    && s.adds == s.wakes + s.deletes + One(s.waiting)
    && s.wakes == s.resumes + s.queued && s.deletes == One(s.lost)
    && (if Suspended(s) then s.queued + One(s.waiting) + One(s.lost) == 1
        else s.queued == 0 && !s.waiting && !s.lost)
    && !(s.waiting && s.foreign)
  }

  ghost predicate Timed(s: State) {
    && (forall t :: t in s.armed ==> t == s.current && !s.pc.Try? && !s.pc.Checking? && !s.pc.Returned?)
    && (s.firing > 0 ==> s.cancelled)
    && (s.pc.Arming? && s.timed && !s.cancelled ==> s.current in s.armed || s.current in s.collected)
    && (s.waiting ==> Suspended(s) && (s.muted ==> s.cancelled && s.firing == 0))
    && (s.waiting && s.timed && !s.muted ==> TimeoutPending(s))
  }

  ghost predicate Inv(s: State) {
    Counted(s) && Timed(s)
  }

  lemma StartCounted(timed: bool)
    ensures Counted(Start(timed))
  {}

  lemma StartTimed(timed: bool)
    ensures Timed(Start(timed))
  {}

  lemma StartInv(timed: bool)
    ensures Inv(Start(timed))
  {
    StartCounted(timed);
    StartTimed(timed);
  }

  /** What the call does itself up to the moment it sleeps. */
  lemma GoingCounted(s: State, a: Step, t: State)
    requires Counted(s) && Enabled(s, a) && t == Apply(s, a)
    requires a == Succeed || a == Again || a == Add || a == AddFails || a == Park
    ensures Counted(t)
  {}

  lemma ComingCounted(s: State, a: Step, t: State)
    requires Counted(s) && Enabled(s, a) && t == Apply(s, a) && (a == Resume || a == CancelTimer || a == Check)
    ensures Counted(t)
  {}

  lemma OthersCounted(s: State, a: Step, t: State)
    requires Counted(s) && Enabled(s, a) && t == Apply(s, a)
    requires a == Ready || a == Delete || a == OtherAdds || a == OtherEnds
    ensures Counted(t)
  {}

  lemma TimersCounted(s: State, a: Step, t: State)
    requires Counted(s) && Enabled(s, a) && t == Apply(s, a) && (a.Expire? || a.Callback? || a == Fire)
    ensures Counted(t)
  {}

  lemma StepCounted(s: State, a: Step)
    requires Counted(s) && Enabled(s, a)
    ensures Counted(Apply(s, a))
  {
    var t := Apply(s, a);
    match a
    case Succeed | Again | Add | AddFails | Park => GoingCounted(s, a, t);
    case Resume | CancelTimer | Check => ComingCounted(s, a, t);
    case Ready | Delete | OtherAdds | OtherEnds => OthersCounted(s, a, t);
    case Expire(_) | Callback(_) | Fire => TimersCounted(s, a, t);
  }

  lemma StepTimed(s: State, a: Step)
    requires Inv(s) && Enabled(s, a)
    ensures Timed(Apply(s, a))
  {}

  lemma {:induction false} RunInv(s: State, trace: seq<Step>, t: State)
    requires Inv(s) && Run(s, trace, t)
    ensures Inv(t)
    decreases |trace|
  {
    if trace != [] {
      StepCounted(s, trace[0]);
      StepTimed(s, trace[0]);
      RunInv(Apply(s, trace[0]), trace[1..], t);
    }
  }

  ghost predicate Reachable(timed: bool, t: State) {
    exists s, trace :: Begins(s, timed) && Run(s, trace, t)
  }

  predicate Begins(s: State, timed: bool) {
    s == Start(timed)
  }

  lemma BeginsInv(s: State, timed: bool)
    requires Begins(s, timed)
    ensures Inv(s) && s.timed == timed && Untimed(s)
  {
    StartInv(timed);
  }

  /** Without a timeout nothing is ever armed. */
  ghost predicate Untimed(s: State) {
    s.timed || (s.armed == {} && s.collected == {} && !s.cancelled && s.firing == 0 && s.pc != Returned(true))
  }

  lemma StepTimedStays(s: State, a: Step)
    requires Enabled(s, a)
    ensures Apply(s, a).timed == s.timed
  {
    match a
    case Succeed | Again | Add | AddFails | Park | Resume | CancelTimer | Check =>
    case Ready | Delete | OtherAdds | OtherEnds =>
    case Expire(_) =>
    case Callback(_) =>
    case Fire =>
  }

  lemma StepUntimed(s: State, a: Step)
    requires Untimed(s) && Enabled(s, a)
    ensures Untimed(Apply(s, a))
  {
    StepTimedStays(s, a);
  }

  lemma {:induction false} RunUntimed(s: State, trace: seq<Step>, t: State)
    requires Run(s, trace, t) && Untimed(s)
    ensures t.timed == s.timed && Untimed(t)
    decreases |trace|
  {
    if trace != [] {
      StepTimedStays(s, trace[0]);
      StepUntimed(s, trace[0]);
      RunUntimed(Apply(s, trace[0]), trace[1..], t);
    }
  }

  lemma ReachableInv(timed: bool, t: State)
    requires Reachable(timed, t)
    ensures Inv(t) && t.timed == timed && Untimed(t)
  {
    var s, trace :| Begins(s, timed) && Run(s, trace, t);
    BeginsInv(s, timed);
    RunInv(s, trace, t);
    RunUntimed(s, trace, t);
  }

  /** In every interleaving each registration is woken once, deleted once, or live, and a
      suspended call is exactly one of registered, queued once, and deleted; otherwise it is
      none of them, and every registration it made has been resumed. */
  lemma ExactlyOnce(timed: bool, t: State)
    requires Reachable(timed, t)
    ensures t.adds == t.wakes + t.deletes + One(t.waiting)
    ensures t.wakes == t.resumes + t.queued
    ensures Suspended(t) ==> One(t.waiting) + t.queued + One(t.lost) == 1 && t.deletes == One(t.lost)
    ensures !Suspended(t) ==> !t.waiting && t.queued == 0 && !t.lost && t.deletes == 0 && t.adds == t.resumes
  {
    ReachableInv(timed, t);
  }

  /** Nothing wakes a fiber whose registration was deleted. */
  lemma {:induction false} LostForever(s: State, trace: seq<Step>, t: State)
    requires Counted(s) && s.lost && Suspended(s) && Run(s, trace, t)
    ensures t.lost && Suspended(t) && t.resumes == s.resumes
    decreases |trace|
  {
    if trace != [] {
      StepCounted(s, trace[0]);
      LostForever(Apply(s, trace[0]), trace[1..], t);
    }
  }

  /** The record of a deletion is right. */
  lemma {:induction false} LostExactly(s: State, trace: seq<Step>, t: State)
    requires Counted(s) && Run(s, trace, t)
    ensures t.lost <==> s.lost || exists i :: 0 <= i < |trace| && trace[i].Delete?
    decreases |trace|
  {
    if trace != [] {
      StepCounted(s, trace[0]);
      LostExactly(Apply(s, trace[0]), trace[1..], t);
      assert forall i :: 1 <= i < |trace| ==> trace[i] == trace[1..][i - 1];
      if s.lost { LostForever(s, trace, t); }
      if trace[0].Delete? { assert trace[0].Delete?; }
      if exists i :: 0 <= i < |trace[1..]| && trace[1..][i].Delete? {
        var i :| 0 <= i < |trace[1..]| && trace[1..][i].Delete?;
        assert trace[i + 1].Delete?;
      }
    }
  }

  lemma {:induction false} RunThen(s: State, trace: seq<Step>, t: State, a: Step)
    requires Run(s, trace, t) && Enabled(t, a)
    ensures Run(s, trace + [a], Apply(t, a))
    decreases |trace|
  {
    if trace == [] {
      assert (trace + [a])[1..] == [];
      assert Run(Apply(t, a), [], Apply(t, a));
    } else {
      RunThen(Apply(s, trace[0]), trace[1..], t, a);
      assert (trace + [a])[1..] == trace[1..] + [a];
    }
  }

  /** The steps that the calling fiber takes itself. */
  predicate Own(a: Step) {
    a in {Succeed, Again, Add, AddFails, Park, Resume, CancelTimer, Check}
  }

  /** The call is stuck exactly when it sleeps and nothing is queued for it, or when `addEvent`
      finds the event taken and asserts. */
  lemma StuckExactly(s: State)
    ensures (exists a :: Own(a) && Enabled(s, a)) <==>
      !s.pc.Returned? && !(s.pc.Parked? && s.queued == 0) && !(s.pc.Arming? && s.foreign)
  {
    assert Enabled(s, Succeed) <==> s.pc.Try?;
    assert Enabled(s, Add) <==> s.pc.Arming? && !s.foreign;
    assert Enabled(s, Park) <==> s.pc.Registered?;
    assert Enabled(s, Resume) <==> s.pc.Parked? && s.queued > 0;
    assert Enabled(s, CancelTimer) <==> s.pc.Resumed?;
    assert Enabled(s, Check) <==> s.pc.Checking?;
  }

  /** What others do with the event: whoever registered it, it can be ended, and then nothing
      is in the way of this call. */
  lemma OthersEnd(s: State)
    ensures s.foreign ==> Enabled(s, OtherEnds)
    ensures s.foreign && s.pc.Arming? ==> Enabled(Apply(s, OtherEnds), Add)
    ensures !s.foreign && !s.waiting ==> Enabled(s, OtherAdds)
    ensures !s.foreign && !s.waiting && s.pc.Arming? ==> !Enabled(Apply(s, OtherAdds), Add)
  {}

  /** `addEvent` can fail: the call returns without a timeout, with its timer cancelled. */
  lemma AddCanFail(s: State)
    requires Inv(s) && s.pc.Arming? && !s.foreign
    ensures Enabled(s, AddFails) && Apply(s, AddFails).pc == Returned(false)
    ensures Apply(s, AddFails).armed == {} && !Apply(s, AddFails).waiting && Apply(s, AddFails).adds == s.adds
  {
    assert forall t :: t in s.armed ==> t == s.current;
  }

  /** Some continuation of the run resumes the call. */
  ghost predicate Resumable(s: State) {
    exists trace, t :: Run(s, trace, t) && t.resumes > s.resumes
  }

  /** A suspended call that is registered or queued is resumed by `Ready`, `Park` and `Resume`,
      as far as they are still to come. */
  lemma Wakeable(s: State)
    requires Counted(s) && Suspended(s) && !s.lost
    ensures Resumable(s)
  {
    var trace, t := [], s;
    if s.waiting {
      RunThen(s, trace, t, Ready);
      trace, t := trace + [Ready], Apply(t, Ready);
    }
    if t.pc.Registered? {
      RunThen(s, trace, t, Park);
      trace, t := trace + [Park], Apply(t, Park);
    }
    RunThen(s, trace, t, Resume);
    assert Run(s, trace + [Resume], Apply(t, Resume));
  }

  lemma LostSleeps(s: State)
    requires Counted(s) && Suspended(s) && s.lost
    ensures !Resumable(s)
  {
    forall trace, t | Run(s, trace, t) ensures t.resumes == s.resumes { LostForever(s, trace, t); }
  }

  /** After any run of the call, if it is suspended, it can still be resumed exactly when
      nobody has deleted a registration of it. */
  lemma ResumableExactly(timed: bool, s: State, trace: seq<Step>, t: State)
    requires Begins(s, timed) && Run(s, trace, t) && Suspended(t)
    ensures Resumable(t) <==> forall i :: 0 <= i < |trace| ==> !trace[i].Delete?
  {
    BeginsInv(s, timed);
    LostExactly(s, trace, t);
    RunInv(s, trace, t);
    if t.lost { LostSleeps(t); } else { Wakeable(t); }
  }

  /** A registered call can be deleted at any moment, and then nothing resumes it; nothing less
      than that keeps it from being resumed. */
  lemma DeletionIsFinal(timed: bool, s: State)
    requires Reachable(timed, s) && s.waiting
    ensures Enabled(s, Delete) && Suspended(Apply(s, Delete)) && !Resumable(Apply(s, Delete))
    ensures Enabled(s, Ready) && Suspended(Apply(s, Ready)) && Resumable(Apply(s, Ready)) && Resumable(s)
  {
    ReachableInv(timed, s);
    StepCounted(s, Delete);
    StepCounted(s, Ready);
    LostSleeps(Apply(s, Delete));
    Wakeable(Apply(s, Ready));
    Wakeable(s);
  }

  // --- what the call returns ---

  /** A look at `tinfo->cancelled` behind a timer callback. */
  ghost predicate LooksLate(trace: seq<Step>) {
    exists i, j :: 0 <= i < j < |trace| && trace[i].Callback? && trace[j].Check?
  }

  ghost predicate Looks(trace: seq<Step>) {
    exists j :: 0 <= j < |trace| && trace[j].Check?
  }

  /** The original function returned something else than EAGAIN, or `addEvent` failed. */
  ghost predicate Leaves(trace: seq<Step>) {
    exists i :: 0 <= i < |trace| && (trace[i].Succeed? || trace[i].AddFails?)
  }

  /** What the first step does to the answer: a callback of the living call is remembered, a
      look at it ends the call if there was one, and success ends it without. */
  lemma StepAnswers(s: State, a: Step)
    requires Enabled(s, a)
    ensures s.pc.Returned? ==> Apply(s, a).pc == s.pc && !a.Check? && !a.Succeed? && !a.AddFails?
    ensures !s.pc.Returned? ==>
      && (Apply(s, a).pc == Returned(true) <==> a.Check? && s.cancelled)
      && (Apply(s, a).pc == Returned(false) <==> a.Succeed? || a.AddFails?)
      && (Apply(s, a).cancelled <==> s.cancelled || a.Callback?)
  {
    match a
    case Succeed | Again | Add | AddFails | Park | Resume | CancelTimer | Check =>
    case Ready | Delete | OtherAdds | OtherEnds =>
    case Expire(_) =>
    case Callback(_) =>
    case Fire =>
  }

  lemma Tail(trace: seq<Step>)
    requires trace != []
    ensures Looks(trace) <==> trace[0].Check? || Looks(trace[1..])
    ensures Leaves(trace) <==> trace[0].Succeed? || trace[0].AddFails? || Leaves(trace[1..])
    ensures LooksLate(trace) <==> LooksLate(trace[1..]) || (trace[0].Callback? && Looks(trace[1..]))
  {
    var rest := trace[1..];
    assert forall i :: 1 <= i < |trace| ==> trace[i] == rest[i - 1];
    if Looks(rest) {
      var j :| 0 <= j < |rest| && rest[j].Check?;
      assert trace[j + 1].Check?;
    }
    if Leaves(rest) {
      var j :| 0 <= j < |rest| && (rest[j].Succeed? || rest[j].AddFails?);
      assert trace[j + 1].Succeed? || trace[j + 1].AddFails?;
    }
    if LooksLate(rest) {
      var i, j :| 0 <= i < j < |rest| && rest[i].Callback? && rest[j].Check?;
      assert trace[i + 1].Callback? && trace[j + 1].Check?;
    }
    if LooksLate(trace) {
      var i, j :| 0 <= i < j < |trace| && trace[i].Callback? && trace[j].Check?;
      assert rest[j - 1].Check?;
      if i > 0 { assert rest[i - 1].Callback?; }
    }
  }

  lemma {:induction false} Stays(s: State, trace: seq<Step>, t: State)
    requires s.pc.Returned? && Run(s, trace, t)
    ensures t.pc == s.pc && !Looks(trace) && !Leaves(trace) && !LooksLate(trace)
    decreases |trace|
  {
    if trace != [] {
      StepAnswers(s, trace[0]);
      Tail(trace);
      Stays(Apply(s, trace[0]), trace[1..], t);
    }
  }

  lemma {:induction false} Answers(s: State, trace: seq<Step>, t: State)
    requires !s.pc.Returned? && Run(s, trace, t)
    ensures t.pc == Returned(true) <==> LooksLate(trace) || (s.cancelled && Looks(trace))
    ensures t.pc == Returned(false) <==> Leaves(trace)
    decreases |trace|
  {
    if trace != [] {
      var u := Apply(s, trace[0]);
      StepAnswers(s, trace[0]);
      Tail(trace);
      if u.pc.Returned? { Stays(u, trace[1..], t); } else { Answers(u, trace[1..], t); }
    }
  }

  /** Over every run: the call has reported a timeout exactly when it looked at the flag after
      a timer callback of its own had run, and has returned without one exactly when the
      original function gave an answer or `addEvent` failed. */
  lemma ReportsExactly(timed: bool, s: State, trace: seq<Step>, t: State)
    requires Begins(s, timed) && Run(s, trace, t)
    ensures t.pc == Returned(true) <==>
      exists i, j :: 0 <= i < j < |trace| && trace[i].Callback? && trace[j].Check?
    ensures t.pc == Returned(false) <==>
      exists i :: 0 <= i < |trace| && (trace[i].Succeed? || trace[i].AddFails?)
  {
    Answers(s, trace, t);
  }

  // --- whether the timeout of a waiting call still works ---

  /** Steps that neither readiness nor anybody else's cancellation takes. */
  predicate TimerStep(a: Step) {
    a.Expire? || a.Callback? || a.Fire?
  }

  ghost predicate TimersWake(s: State) {
    exists trace, t :: (forall i :: 0 <= i < |trace| ==> TimerStep(trace[i])) && Run(s, trace, t) && !t.waiting
  }

  lemma {:induction false} MutedStays(s: State, trace: seq<Step>, t: State)
    requires s.waiting && s.cancelled && s.firing == 0 && Run(s, trace, t)
    requires forall i :: 0 <= i < |trace| ==> TimerStep(trace[i])
    ensures t.waiting
    decreases |trace|
  {
    if trace != [] {
      forall i | 0 <= i < |trace[1..]| ensures TimerStep(trace[1..][i]) { assert trace[1..][i] == trace[i + 1]; }
      assert TimerStep(trace[0]);
      MutedStays(Apply(s, trace[0]), trace[1..], t);
    }
  }

  lemma Muted(s: State)
    requires s.waiting && s.cancelled && s.firing == 0
    ensures !TimersWake(s)
  {
    forall trace, t | (forall i :: 0 <= i < |trace| ==> TimerStep(trace[i])) && Run(s, trace, t) ensures t.waiting {
      MutedStays(s, trace, t);
    }
  }

  /** One timer step that brings the wake-up closer. */
  lemma {:induction false} Closer(s: State, a: Step)
    requires Enabled(s, a) && TimerStep(a) && (TimersWake(Apply(s, a)) || !Apply(s, a).waiting)
    ensures TimersWake(s)
  {
    var u := Apply(s, a);
    var rest, t := [], u;
    assert Run(u, [], u);
    if u.waiting {
      rest, t :| (forall i :: 0 <= i < |rest| ==> TimerStep(rest[i])) && Run(u, rest, t) && !t.waiting;
    }
    assert ([a] + rest)[1..] == rest;
    assert Run(s, [a] + rest, t);
  }

  lemma Pending(s: State)
    requires s.waiting && Suspended(s) && TimeoutPending(s)
    ensures TimersWake(s)
    decreases if s.firing > 0 then 0 else if s.current in s.collected then 1 else 2
  {
    var a := if s.firing > 0 then Fire else if s.current in s.collected then Callback(s.current) else Expire(s.current);
    if s.firing == 0 { Pending(Apply(s, a)); }
    Closer(s, a);
  }

  /** A waiting call with a timeout is woken by its timers exactly when its last
      addEvent did not come after a timeout had already fired in vain. */
  lemma TimeoutWorks(t: State)
    requires Reachable(true, t) && t.waiting
    ensures TimersWake(t) <==> !t.muted
  {
    ReachableInv(true, t);
    if t.muted { Muted(t); } else { Pending(t); }
  }

  /** Without a timeout the call never reports one. */
  lemma NoTimeoutNoError(t: State)
    requires Reachable(false, t)
    ensures !t.cancelled && t.pc != Returned(true)
  {
    ReachableInv(false, t);
  }

  lemma Then(timed: bool, t: State, a: Step) returns (u: State)
    requires Reachable(timed, t) && Enabled(t, a)
    ensures Reachable(timed, u) && u == Apply(t, a)
  {
    u := Apply(t, a);
    var s, trace :| Begins(s, timed) && Run(s, trace, t);
    RunThen(s, trace, t, a);
  }

  /** A first round: the timer is collected and then the descriptor is ready, so the timer's
      callback is left over when the round is checked. */
  lemma FirstRound() returns (t: State)
    ensures Reachable(true, t)
    ensures t == Start(true).(current := 1, collected := {1}, adds := 1, wakes := 1, resumes := 1)
  {
    var s := Start(true);
    assert Begins(s, true) && Run(s, [], s);
    t := Then(true, s, Again);
    t := Then(true, t, Add);
    t := Then(true, t, Park);
    t := Then(true, t, Expire(1));
    t := Then(true, t, Ready);
    t := Then(true, t, Resume);
    t := Then(true, t, CancelTimer);
    t := Then(true, t, Check);
    assert t.armed == {} && t.collected == {1};
  }

  /** The stale callback of the first round runs between the check and the second
      registration: the second wait has no working timeout. */
  lemma TimeoutCanBeLost() returns (t: State)
    ensures Reachable(true, t) && t.waiting && t.muted && t.pc.Parked?
  {
    t := FirstRound();
    t := Then(true, t, Callback(1));
    t := Then(true, t, Fire);
    t := Then(true, t, Again);
    t := Then(true, t, Add);
    t := Then(true, t, Park);
  }

  /** A timeout that is overtaken by readiness ends the registration that somebody else has
      made of the same event by then. */
  lemma TimeoutHitsOthers() returns (t: State)
    ensures Reachable(true, t) && t.foreign && Enabled(t, Fire) && !Apply(t, Fire).foreign
  {
    t := Start(true);
    assert Begins(t, true) && Run(t, [], t);
    t := Then(true, t, Again);
    t := Then(true, t, Add);
    t := Then(true, t, Expire(1));
    t := Then(true, t, Callback(1));
    t := Then(true, t, Ready);
    t := Then(true, t, OtherAdds);
  }

  /** A call whose round was muted reports a timeout even when it was woken because
      the descriptor became ready. */
  lemma MutedRoundReportsTimeout(t: State)
    requires Reachable(true, t) && t.pc.Checking? && t.muted
    ensures Apply(t, Check).pc == Returned(true)
  {
    var s, trace :| Begins(s, true) && Run(s, trace, t);
    MutedCancelled(s, trace, t);
  }

  lemma {:induction false} MutedCancelled(s: State, trace: seq<Step>, t: State)
    requires Run(s, trace, t) && (s.muted ==> s.cancelled)
    ensures t.muted ==> t.cancelled
    decreases |trace|
  {
    if trace != [] {
      MutedCancelled(Apply(s, trace[0]), trace[1..], t);
    }
  }
}
