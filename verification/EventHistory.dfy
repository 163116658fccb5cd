/** Histories of registrations: every registration is ended by exactly one wake-up
    or one deletion, or is still live. */
module EventHistory {
  import opened Base

  datatype Kind = READ | WRITE

  /** What an event resumes: the fiber that registered it, or a callback; and the scheduler
      of the thread that registered it, none on a thread outside any scheduler. */
  datatype Continuation =
    | FiberCont(scheduler: Option<nat>, fiber: nat)
    | CallbackCont(scheduler: Option<nat>, cb: nat)

  datatype Key = Key(fd: nat, kind: Kind)

  datatype Occurrence =
    | Added(key: Key, cont: Continuation)
    | Triggered(key: Key, cont: Continuation)
    | Deleted(key: Key)

  type History = seq<Occurrence>

  /** The registrations left after `o`. */
  function After(live: map<Key, Continuation>, o: Occurrence): map<Key, Continuation> {
    if o.Added? then live[o.key := o.cont] else live - {o.key}
  }

  /** The registrations that are still waiting. */
  function Live(h: History): map<Key, Continuation> {
    if h == [] then map[] else After(Live(h[..|h| - 1]), h[|h| - 1])
  }

  /** `o` may happen when `live` is what is registered. */
  predicate Allowed(live: map<Key, Continuation>, o: Occurrence) {
    match o
    case Added(k, _) => k !in live
    case Triggered(k, c) => k in live && live[k] == c
    case Deleted(k) => k in live
  }

  predicate Legal(h: History) {
    h == [] || (Legal(h[..|h| - 1]) && Allowed(Live(h[..|h| - 1]), h[|h| - 1]))
  }

  /** The continuations handed to the scheduler, in order. */
  function Woken(h: History): seq<Continuation> {
    if h == [] then []
    else
      var o := h[|h| - 1];
      Woken(h[..|h| - 1]) + (if o.Triggered? then [o.cont] else [])
  }

  lemma Append(h: History, o: Occurrence)
    ensures (h + [o])[..|h|] == h && (h + [o])[|h|] == o
    ensures Legal(h + [o]) <==> Legal(h) && Allowed(Live(h), o)
    ensures Live(h + [o]) == After(Live(h), o)
    ensures Woken(h + [o]) == Woken(h) + (if o.Triggered? then [o.cont] else [])
  {
    assert (h + [o])[..|h|] == h;
  }

  function Adds(h: History, k: Key): nat {
    if h == [] then 0 else Adds(h[..|h| - 1], k) + (if h[|h| - 1].Added? && h[|h| - 1].key == k then 1 else 0)
  }

  function Wakes(h: History, k: Key): nat {
    if h == [] then 0 else Wakes(h[..|h| - 1], k) + (if h[|h| - 1].Triggered? && h[|h| - 1].key == k then 1 else 0)
  }

  function Deletes(h: History, k: Key): nat {
    if h == [] then 0 else Deletes(h[..|h| - 1], k) + (if h[|h| - 1].Deleted? && h[|h| - 1].key == k then 1 else 0)
  }

  /** What is handed to the scheduler is as much as the wake-ups, event by event. */
  lemma {:induction false} WokenAre(h: History, k: Key)
    requires forall i :: 0 <= i < |h| ==> h[i].key == k
    ensures |Woken(h)| == Wakes(h, k) && |h| == Adds(h, k) + Wakes(h, k) + Deletes(h, k)
  {
    if h != [] { WokenAre(h[..|h| - 1], k); }
  }

  /** Registrations are conserved: each is woken once, deleted once, or live. */
  lemma {:induction false} Balance(h: History, k: Key)
    requires Legal(h)
    ensures Adds(h, k) == Wakes(h, k) + Deletes(h, k) + (if k in Live(h) then 1 else 0)
  {
    if h != [] { Balance(h[..|h| - 1], k); }
  }

  /** The position of the registration that is live at the end of `h`. */
  function LastAdd(h: History, k: Key): nat
    requires Legal(h) && k in Live(h)
    ensures LastAdd(h, k) < |h|
  {
    if h[|h| - 1].Added? && h[|h| - 1].key == k then |h| - 1 else LastAdd(h[..|h| - 1], k)
  }

  /** A wake-up resumes exactly what its own registration handed over, and nothing
      happened to that event in between. */
  lemma {:induction false} WakeMatchesAdd(h: History, k: Key)
    requires Legal(h) && k in Live(h)
    ensures h[LastAdd(h, k)] == Added(k, Live(h)[k])
    ensures forall i :: LastAdd(h, k) < i < |h| ==> h[i].key != k
  {
    var front := h[..|h| - 1];
    if h[|h| - 1].key != k {
      WakeMatchesAdd(front, k);
    }
  }
}
