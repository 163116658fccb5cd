/** The scheduler's task list (`m_fibers`) and the counter of busy workers.
    A worker takes the first entry that it may run; an entry pinned to another
    thread and an entry whose fiber is running somewhere are skipped over. */
module RunQueue {
  import opened Base

  /** `Fiber::State`. */
  datatype FiberState = INIT | HOLD | EXEC | TERM | READY | EXCEPT

  /** What a `FiberAndThread` carries: a fiber or a callback, never both. */
  datatype Job = FiberJob(fiber: nat) | CallbackJob(cb: nat)

  /** A queued `FiberAndThread`. The ticket tells equal submissions apart;
      `thread` is -1 when any worker may run the entry. */
  datatype Entry = Entry(ticket: nat, job: Job, thread: int)

  function StateOf(fibers: seq<FiberState>, f: nat): FiberState {
    if f < |fibers| then fibers[f] else INIT
  }

  predicate MayRun(e: Entry, me: nat, fibers: seq<FiberState>) {
    && (e.thread == -1 || e.thread == me)
    && (e.job.FiberJob? ==> StateOf(fibers, e.job.fiber) != EXEC)
  }

  predicate PinnedElsewhere(e: Entry, me: nat) {
    e.thread != -1 && e.thread != me
  }

  /** The position of the first entry that worker `me` may run. */
  function FirstEligible(q: seq<Entry>, me: nat, fibers: seq<FiberState>): (r: Option<nat>)
    ensures r.None? <==> forall i :: 0 <= i < |q| ==> !MayRun(q[i], me, fibers)
    ensures r.Some? ==> r.value < |q| && MayRun(q[r.value], me, fibers)
    ensures r.Some? ==> forall i :: 0 <= i < r.value ==> !MayRun(q[i], me, fibers)
  {
    if q == [] then None
    else if MayRun(q[0], me, fibers) then Some(0)
    else
      match FirstEligible(q[1..], me, fibers)
      case None => assert forall i :: 0 < i < |q| ==> q[i] == q[1..][i - 1]; None
      case Some(k) => assert forall i :: 0 < i < |q| ==> q[i] == q[1..][i - 1]; Some(k + 1)
  }

  lemma FirstIs(q: seq<Entry>, i: nat, me: nat, fibers: seq<FiberState>)
    requires i < |q| && MayRun(q[i], me, fibers)
    requires forall j :: 0 <= j < i ==> !MayRun(q[j], me, fibers)
    ensures FirstEligible(q, me, fibers) == Some(i)
  {}

  /** Pinned to another thread, or holding a fiber that is executing somewhere. */
  predicate PassedOver(e: Entry, me: nat, fibers: seq<FiberState>) {
    || (e.thread != -1 && e.thread != me)
    || (e.job.FiberJob? && e.job.fiber < |fibers| && fibers[e.job.fiber] == EXEC)
  }

  /** The first entry that is neither is at position `k`. */
  ghost predicate FirstFree(q: seq<Entry>, me: nat, fibers: seq<FiberState>, k: nat) {
    k < |q| && !PassedOver(q[k], me, fibers) && forall i :: 0 <= i < k ==> PassedOver(q[i], me, fibers)
  }

  /** A fiber in any state but EXEC may be picked, and so may any callback, on the thread it
      is pinned to or on any thread. */
  lemma PassedExactly(e: Entry, me: nat, fibers: seq<FiberState>)
    ensures PassedOver(e, me, fibers) <==> !MayRun(e, me, fibers)
    ensures (e.thread == -1 || e.thread == me) && e.job.CallbackJob? ==> MayRun(e, me, fibers)
    ensures forall f: nat :: (e.thread == -1 || e.thread == me) && e.job == FiberJob(f) && f < |fibers| ==>
      (MayRun(e, me, fibers) <==>
        fibers[f] == INIT || fibers[f] == HOLD || fibers[f] == READY || fibers[f] == TERM || fibers[f] == EXCEPT)
    ensures e.thread != -1 && e.thread != me ==> !MayRun(e, me, fibers)
  {}

  /** Nothing is picked exactly when every entry is pinned elsewhere or executing; otherwise the
      first that is not. */
  lemma PickedExactly(q: seq<Entry>, me: nat, fibers: seq<FiberState>)
    ensures FirstEligible(q, me, fibers) == None <==> forall i :: 0 <= i < |q| ==> PassedOver(q[i], me, fibers)
    ensures forall k: nat :: FirstEligible(q, me, fibers) == Some(k) <==> FirstFree(q, me, fibers, k)
  {
    forall i | 0 <= i < |q| ensures PassedOver(q[i], me, fibers) <==> !MayRun(q[i], me, fibers) {
      PassedExactly(q[i], me, fibers);
    }
  }

  /** The list with the entry at position `i` erased; the rest keeps its order. */
  function Without<T>(q: seq<T>, i: nat): (r: seq<T>)
    requires i < |q|
    ensures |r| == |q| - 1
  {
    q[..i] + q[i + 1..]
  }

  lemma PutBack<T>(q: seq<T>, i: nat)
    requires i < |q|
    ensures multiset(Without(q, i)) + multiset{q[i]} == multiset(q)
  {
    assert q == q[..i] + [q[i]] + q[i + 1..];
  }

  /** Some entry before position `k` is pinned to a thread other than `me`. */
  ghost predicate PinnedBefore(q: seq<Entry>, k: nat, me: nat)
    requires k <= |q|
  {
    exists i :: 0 <= i < k && PinnedElsewhere(q[i], me)
  }

  lemma PinnedNext(q: seq<Entry>, i: nat, me: nat)
    requires i < |q|
    ensures PinnedBefore(q, i + 1, me) <==> PinnedBefore(q, i, me) || PinnedElsewhere(q[i], me)
  {
    if PinnedElsewhere(q[i], me) { assert PinnedBefore(q, i + 1, me); }
  }

  predicate Distinct(q: seq<Entry>) {
    forall i, j :: 0 <= i < j < |q| ==> q[i].ticket != q[j].ticket
  }

  predicate Below(q: seq<Entry>, bound: nat) {
    forall i :: 0 <= i < |q| ==> q[i].ticket < bound
  }

  lemma WithoutKeeps(q: seq<Entry>, k: nat, bound: nat)
    requires k < |q| && Distinct(q) && Below(q, bound)
    ensures Distinct(Without(q, k)) && Below(Without(q, k), bound)
  {
    var r := Without(q, k);
    forall i | 0 <= i < |r| ensures r[i] == q[if i < k then i else i + 1] {}
  }

  /** `m_fibers` and `m_activeThreadCount`, with the operations done under `m_mutex`.
      `tickets` only numbers the submissions. */
  class TaskList {
    var entries: seq<Entry>
    var active: nat
    var tickets: nat

    ghost predicate Valid()
      reads this
    {
      Distinct(entries) && Below(entries, tickets)
    }

    constructor ()
      ensures Valid() && entries == [] && active == 0 && tickets == 0
    {
      entries, active, tickets := [], 0, 0;
    }

    /** `scheduleNoLock`: an empty submission is not queued, but the caller is
        told to tickle exactly when the list was empty before the call. */
    method Schedule(job: Option<Job>, thread: int) returns (needTickle: bool)
      requires Valid()
      modifies this
      ensures Valid() && active == old(active)
      ensures needTickle <==> old(entries) == []
      ensures job == None ==> entries == old(entries) && tickets == old(tickets)
      ensures job.Some? ==>
        entries == old(entries) + [Entry(old(tickets), job.value, thread)] && tickets == old(tickets) + 1
    {
      needTickle := |entries| == 0;
      if job.Some? {
        entries := entries + [Entry(tickets, job.value, thread)];
        tickets := tickets + 1;
      }
    }

    /** The pick loop of `Scheduler::run`. `tickleMe` reports that an entry pinned
        to another thread was passed over. */
    method Take(me: nat, fibers: seq<FiberState>) returns (taken: Option<Entry>, tickleMe: bool)
      requires Valid()
      modifies this
      ensures Valid() && tickets == old(tickets)
      ensures taken == None <==> forall i :: 0 <= i < |old(entries)| ==> PassedOver(old(entries)[i], me, fibers)
      ensures taken == None ==> entries == old(entries) && active == old(active)
      ensures taken == None ==>
        (tickleMe <==> exists i :: 0 <= i < |entries| && entries[i].thread != -1 && entries[i].thread != me)
      ensures taken.Some? ==> active == old(active) + 1
      ensures taken.Some? ==> exists k: nat ::
        && FirstFree(old(entries), me, fibers, k)
        && taken.value == old(entries)[k] && entries == old(entries)[..k] + old(entries)[k + 1..]
        && (tickleMe <==> exists i :: 0 <= i < k && old(entries)[i].thread != -1 && old(entries)[i].thread != me)
    {
      taken, tickleMe := None, false;
      var i := 0;
      while i < |entries|
        invariant 0 <= i <= |entries| && entries == old(entries) && active == old(active) && tickets == old(tickets)
        invariant taken == None
        invariant forall j :: 0 <= j < i ==> PassedOver(entries[j], me, fibers)
        invariant tickleMe <==> PinnedBefore(entries, i, me)
      {
        var it := entries[i];
        if it.thread != -1 && it.thread != me {
          PinnedNext(entries, i, me);
          tickleMe := true;
          i := i + 1;
          continue;
        }
        if it.job.FiberJob? && StateOf(fibers, it.job.fiber) == EXEC {
          PinnedNext(entries, i, me);
          i := i + 1;
          continue;
        }
        WithoutKeeps(entries, i, tickets);
        assert FirstFree(entries, me, fibers, i);
        taken := Some(it);
        entries := Without(entries, i);
        active := active + 1;
        return;
      }
    }
  }
}
