/** What every step of the reactor protocol keeps: task conservation. */
module ReactorInvariants {
  import opened Base
  import opened RunQueue
  import opened Reactor

  // --- counting over workers ---

  lemma {:induction false} HandsUpdate(ws: seq<Worker>, w: nat, x: Worker)
    requires w < |ws|
    ensures Hands(ws[w := x]) + HandOf(ws[w].pc) == Hands(ws) + HandOf(x.pc)
  {
    var a, b := HandOf(ws[w].pc), HandOf(x.pc);
    if w == 0 {
      assert ws[w := x][1..] == ws[1..];
      Exchange(b, Hands(ws[1..]), a);
    } else {
      assert ws[w := x][1..] == ws[1..][w - 1 := x];
      HandsUpdate(ws[1..], w - 1, x);
      var h := HandOf(ws[0].pc);
      Regroup(h, Hands(ws[1..][w - 1 := x]), a);
      Regroup(h, Hands(ws[1..]), b);
    }
  }

  lemma Exchange(a: multiset<Entry>, b: multiset<Entry>, c: multiset<Entry>)
    ensures a + b + c == c + b + a
  {}

  lemma Regroup(a: multiset<Entry>, b: multiset<Entry>, c: multiset<Entry>)
    ensures a + b + c == a + (b + c)
  {}

  lemma Cancel(a: multiset<Entry>, b: multiset<Entry>, c: multiset<Entry>)
    requires a + c == b + c
    ensures a == b
  {
    assert a == (a + c) - c && b == (b + c) - c;
  }

  lemma MoveOne(q: multiset<Entry>, h: multiset<Entry>, d: multiset<Entry>, e: multiset<Entry>)
    ensures q + (h + e) + d == (q + e) + h + d
    ensures q + h + (d + e) == q + (h + e) + d
    ensures (q + e) + h + d == (q + h + d) + e
  {}

  lemma {:induction false} OwedUpdate(ws: seq<Worker>, w: nat, x: Worker)
    requires w < |ws|
    ensures Owed(ws[w := x]) == Owed(ws) - ws[w].owes + x.owes
  {
    if w == 0 {
      assert ws[w := x][1..] == ws[1..];
    } else {
      assert ws[w := x][1..] == ws[1..][w - 1 := x];
      OwedUpdate(ws[1..], w - 1, x);
    }
  }

  lemma {:induction false} IdleHands(ws: seq<Worker>)
    requires forall w :: 0 <= w < |ws| ==> !Busy(ws[w].pc) && ws[w].owes == 0
    ensures Hands(ws) == multiset{} && Owed(ws) == 0
  {
    if ws != [] { IdleHands(ws[1..]); }
  }

  // --- how a step moves entries ---

  /** What worker `w` does with an entry in a step from `s` to `t`. */
  datatype Move = Keeps | Takes(k: nat) | Ends

  /** The parts of the state that conservation speaks of, before and after a step
      in which worker `w` becomes `x` and `more` entries are submitted. */
  ghost predicate Moves(s: State, t: State, w: nat, x: Worker, move: Move, more: seq<Entry>) {
    && w < |s.workers| && t.workers == s.workers[w := x]
    && t.issued == s.issued + multiset(more)
    && (match move
        case Keeps => HandOf(x.pc) == HandOf(s.workers[w].pc) && t.queue == s.queue + more && t.done == s.done
          && t.active == s.active
        case Takes(k) =>
          && k < |s.queue| && !Busy(s.workers[w].pc) && HandOf(x.pc) == multiset{s.queue[k]} && more == []
          && t.queue == Without(s.queue, k) && t.done == s.done && t.active == s.active + 1
        case Ends =>
          && Busy(s.workers[w].pc) && HandOf(x.pc) == multiset{} && more == []
          && t.queue == s.queue && t.done == s.done + multiset{s.workers[w].pc.entry} && t.active == s.active - 1)
  }

  ghost predicate Numbered(s: State, t: State, more: seq<Entry>) {
    && t.tickets == s.tickets + |more|
    && (forall i :: 0 <= i < |more| ==> more[i].ticket == s.tickets + i)
  }

  lemma {:induction false} BatchShape(s: State, cbs: seq<nat>) returns (more: seq<Entry>)
    ensures EnqueueAll(s, cbs).queue == s.queue + more
    ensures EnqueueAll(s, cbs).issued == s.issued + multiset(more)
    ensures Numbered(s, EnqueueAll(s, cbs), more)
    decreases |cbs|
  {
    if cbs == [] {
      more := [];
    } else {
      var e := Entry(s.tickets, CallbackJob(cbs[0]), -1);
      var rest := BatchShape(Enqueue(s, CallbackJob(cbs[0]), -1), cbs[1..]);
      more := [e] + rest;
      assert s.queue + [e] + rest == s.queue + more;
      assert multiset(more) == multiset{e} + multiset(rest);
    }
  }

  lemma PickShape(s: State, w: nat) returns (x: Worker)
    requires w < |s.workers| && s.workers[w].pc.Head? && FirstEligible(s.queue, w, s.fibers).Some?
    ensures Moves(s, Picked(s, w), w, x, Takes(FirstEligible(s.queue, w, s.fibers).value), [])
    ensures x.owes == s.workers[w].owes && Picked(s, w).tickets == s.tickets
  {
    x := Picked(s, w).workers[w];
    PickedFrame(s, w);
  }

  lemma FinishShape(s: State, w: nat, o: FiberState) returns (x: Worker)
    requires w < |s.workers| && Running(s.workers[w].pc)
    ensures Moves(s, Finished(s, w, o), w, x, Ends, [])
    ensures x.owes == s.workers[w].owes && Finished(s, w, o).tickets == s.tickets
  {
    x := Finished(s, w, o).workers[w];
  }

  lemma IdleNextShape(me: Worker, a: IdleAction)
    requires !Busy(me.pc)
    ensures HandOf(IdleNext(me, a).pc) == multiset{} && IdleNext(me, a).owes == me.owes
  {}

  /** No worker moves, and `more` entries are submitted. */
  ghost predicate Grows(s: State, t: State, more: seq<Entry>) {
    && t.workers == s.workers && t.queue == s.queue + more && t.issued == s.issued + multiset(more)
    && t.done == s.done && t.active == s.active
  }

  lemma TaskShape(s: State, a: TaskAction) returns (more: seq<Entry>)
    requires Possible(s, a)
    ensures Grows(s, TaskDone(s, a), more) && Numbered(s, TaskDone(s, a), more)
  {
    more := if a.Spawn? then [Entry(s.tickets, a.job, a.thread)] else [];
  }

  // --- conservation ---

  /** Every submission sits in exactly one of the list, one worker's hands and the finished ones. */
  ghost predicate Accounted(s: State) {
    multiset(s.queue) + Hands(s.workers) + s.done == s.issued
  }

  ghost predicate Unique(s: State) {
    forall e :: e in s.issued ==> s.issued[e] == 1 && e.ticket < s.tickets
  }

  lemma MovesAccounted(s: State, t: State, w: nat, x: Worker, move: Move, more: seq<Entry>)
    requires Accounted(s) && Moves(s, t, w, x, move, more)
    ensures Accounted(t)
    ensures s.active == |Hands(s.workers)| ==> t.active == |Hands(t.workers)|
  {
    HandsUpdate(s.workers, w, x);
    var q, h, d, h' := multiset(s.queue), Hands(s.workers), s.done, Hands(t.workers);
    match move {
      case Keeps =>
        Cancel(h', h, HandOf(x.pc));
        MoveOne(q, h, d, multiset(more));
      case Takes(k) =>
        Cancel(h', h + multiset{s.queue[k]}, multiset{});
        PutBack(s.queue, k);
        MoveOne(multiset(t.queue), h, d, multiset{s.queue[k]});
      case Ends =>
        var e := multiset{s.workers[w].pc.entry};
        Cancel(h, h' + e, multiset{});
        MoveOne(q, h', d, e);
    }
  }

  lemma GrowsAccounted(s: State, t: State, more: seq<Entry>)
    requires Accounted(s) && Grows(s, t, more)
    ensures Accounted(t)
  {
    MoveOne(multiset(s.queue), Hands(s.workers), s.done, multiset(more));
  }

  lemma NumberedUnique(s: State, t: State, more: seq<Entry>)
    requires Unique(s) && Numbered(s, t, more) && t.issued == s.issued + multiset(more)
    ensures Unique(t)
  {
    DistinctOnce(more, s.tickets, t.tickets);
  }

  lemma {:induction false} DistinctOnce(q: seq<Entry>, low: nat, high: nat)
    requires Distinct(q) && Below(q, high) && forall i :: 0 <= i < |q| ==> low <= q[i].ticket
    ensures forall e :: e in multiset(q) ==> multiset(q)[e] == 1 && low <= e.ticket < high
  {
    if q != [] {
      var rest := q[..|q| - 1];
      assert q == rest + [q[|q| - 1]];
      DistinctOnce(rest, low, high);
      assert q[|q| - 1] !in rest;
    }
  }

  ghost predicate Conserved(s: State) {
    && Accounted(s) && Unique(s)
    && s.active == |Hands(s.workers)|
    && s.pending == s.events + Owed(s.workers) + s.outsideOwes
  }

  lemma InitConserved(cfg: Config, s: State)
    requires Init(cfg, s)
    ensures Conserved(s)
  {
    IdleHands(s.workers);
    DistinctOnce(s.queue, 0, s.tickets);
  }

  lemma ShapeConserved(s: State, t: State, w: nat, x: Worker, move: Move, more: seq<Entry>)
    requires Conserved(s) && Moves(s, t, w, x, move, more) && Numbered(s, t, more)
    requires t.pending - t.events - x.owes == s.pending - s.events - s.workers[w].owes
    requires t.outsideOwes == s.outsideOwes
    ensures Conserved(t)
  {
    MovesAccounted(s, t, w, x, move, more);
    NumberedUnique(s, t, more);
    OwedUpdate(s.workers, w, x);
  }

  lemma GrowsConserved(s: State, t: State, more: seq<Entry>)
    requires Conserved(s) && Grows(s, t, more) && Numbered(s, t, more)
    requires t.pending - t.events - t.outsideOwes == s.pending - s.events - s.outsideOwes
    ensures Conserved(t)
  {
    GrowsAccounted(s, t, more);
    NumberedUnique(s, t, more);
  }

  lemma IdleConserved(cfg: Config, s: State, w: nat, a: IdleAction)
    requires Conserved(s) && w < |s.workers| && IdleEnabled(cfg, s, w, a)
    ensures Conserved(IdleMoved(s, w, a))
  {
    var x := IdleNext(s.workers[w], a);
    IdleNextShape(s.workers[w], a);
    var more := [];
    if a.ScheduleCollected? { more := BatchShape(s, s.workers[w].pc.cbs); }
    ShapeConserved(s, IdleMoved(s, w, a), w, x, Keeps, more);
  }

  lemma PickedConserved(s: State, w: nat)
    requires Conserved(s) && w < |s.workers| && s.workers[w].pc.Head? && FirstEligible(s.queue, w, s.fibers).Some?
    ensures Conserved(Picked(s, w))
  {
    var x := PickShape(s, w);
    ShapeConserved(s, Picked(s, w), w, x, Takes(FirstEligible(s.queue, w, s.fibers).value), []);
  }

  lemma DiscardedConserved(s: State, w: nat)
    requires Conserved(s) && w < |s.workers| && s.workers[w].pc.Drop?
    ensures Conserved(Discarded(s, w))
  {
    ShapeConserved(s, Discarded(s, w), w, s.workers[w].(pc := Head), Ends, []);
  }

  lemma FinishedConserved(s: State, w: nat, o: FiberState)
    requires Conserved(s) && w < |s.workers| && Running(s.workers[w].pc)
    ensures Conserved(Finished(s, w, o))
  {
    var x := FinishShape(s, w, o);
    ShapeConserved(s, Finished(s, w, o), w, x, Ends, []);
  }

  lemma TriggeredConserved(s: State, w: nat, job: Job)
    requires Conserved(s) && w < |s.workers| && s.events > 0
    ensures Conserved(Triggered(s, w, job))
  {
    var me := s.workers[w];
    ShapeConserved(s, Triggered(s, w, job), w, me.(owes := me.owes + 1), Keeps, [Entry(s.tickets, job, -1)]);
  }

  lemma RescheduledConserved(s: State, w: nat)
    requires Conserved(s) && w < |s.workers| && s.workers[w].pc.Requeue?
    ensures Conserved(Rescheduled(s, w))
  {
    var me := s.workers[w];
    ShapeConserved(s, Rescheduled(s, w), w, me.(pc := Head), Keeps, [Entry(s.tickets, FiberJob(me.pc.fiber), -1)]);
  }

  lemma TaskConserved(s: State, a: TaskAction)
    requires Conserved(s) && Possible(s, a)
    ensures Conserved(TaskDone(s, a))
  {
    var more := TaskShape(s, a);
    GrowsConserved(s, TaskDone(s, a), more);
  }

  lemma OutsideConserved(cfg: Config, s: State, o: OutsideAction)
    requires Conserved(s) && OutsideEnabled(cfg, s, o)
    ensures Conserved(OutsideDone(cfg, s, o))
  {
    match o
    case Does(a) => TaskConserved(s, a);
    case Cancels(job) => GrowsConserved(s, OutsideDone(cfg, s, o), [Entry(s.tickets, job, -1)]);
    case Settles => GrowsConserved(s, OutsideDone(cfg, s, o), []);
    case Stop => GrowsConserved(s, OutsideDone(cfg, s, o), []);
  }

  lemma SettledConserved(s: State, w: nat)
    requires Conserved(s) && w < |s.workers| && s.workers[w].owes > 0
    ensures Conserved(Settled(s, w))
  {
    ShapeConserved(s, Settled(s, w), w, s.workers[w].(owes := s.workers[w].owes - 1), Keeps, []);
  }

  lemma LeftConserved(s: State, w: nat)
    requires Conserved(s) && w < |s.workers| && s.workers[w].pc.Head?
    ensures Conserved(With(s, w, s.workers[w].(pc := Gone)))
  {
    ShapeConserved(s, With(s, w, s.workers[w].(pc := Gone)), w, s.workers[w].(pc := Gone), Keeps, []);
  }

  lemma ActedConserved(cfg: Config, s: State, w: nat, action: Action)
    requires Conserved(s) && w < |s.workers| && ActionEnabled(cfg, s, w, action)
    ensures Conserved(Acted(cfg, s, w, action))
  {
    match action
    case Pick => PickedConserved(s, w);
    case Dropped => DiscardedConserved(s, w);
    case Finish(o) => FinishedConserved(s, w, o);
    case Trigger(job) => TriggeredConserved(s, w, job);
    case Reschedule => RescheduledConserved(s, w);
    case Task(a) => TaskConserved(s, a);
    case Settle => SettledConserved(s, w);
    case Leave => LeftConserved(s, w);
    case Idle(a) => IdleConserved(cfg, s, w, a);
  }

  lemma StepConserved(cfg: Config, s: State, e: Event)
    requires Conserved(s) && Enabled(cfg, s, e)
    ensures Conserved(Apply(cfg, s, e))
  {
    match e
    case Event(w, action) => ActedConserved(cfg, s, w, action);
    case Outside(o) => OutsideConserved(cfg, s, o);
  }

  lemma {:induction false} RunConserved(cfg: Config, s: State, trace: seq<Event>, t: State)
    requires Conserved(s) && Run(cfg, s, trace, t)
    ensures Conserved(t)
    decreases |trace|
  {
    if trace != [] {
      StepConserved(cfg, s, trace[0]);
      RunConserved(cfg, Apply(cfg, s, trace[0]), trace[1..], t);
    }
  }

  /** In every reachable state each submission has exactly one place, and the
      busy and pending counters count what they are meant to count. */
  lemma TaskConservation(cfg: Config, s: State, trace: seq<Event>, t: State)
    requires Init(cfg, s) && Run(cfg, s, trace, t)
    ensures multiset(t.queue) + Hands(t.workers) + t.done == t.issued
    ensures forall e :: e in t.issued ==> t.issued[e] == 1
    ensures t.active == |Hands(t.workers)|
    ensures t.pending == t.events + Owed(t.workers) + t.outsideOwes
  {
    InitConserved(cfg, s);
    RunConserved(cfg, s, trace, t);
  }
}
