# A verified model of link-server

link-server is a coroutine server library: worker threads take fibers and callbacks from a
shared list, an idle fiber per worker polls epoll and the timers, and hooked socket calls
park their fiber until the descriptor is ready, the call times out or somebody cancels.
Around that core stand a segmented byte buffer with typed encodings, a timer manager, a
URI parser, an IPv6 printer, a log pattern tokeniser and a pool of HTTP connections. This
project models those parts in Dafny and proves what they promise; where the code falls
short of the promise, it proves exactly when the promise holds.

`dafny verify dfyconfig.toml` checks everything.

## What is modelled, and what came out

**The scheduler and the reactor** (`RunQueue`, `Reactor`, `ReactorSteps`,
`ReactorInvariants`, `ReactorFibers`, `FiberAssertions`, `Shutdown`). `RunQueue.TaskList` is
the task list with the pick loop. `Reactor` is a transition system over the list, the
program counters of any number of workers, the fiber states, the two counters, the
registered events, the armed timers and the stop flags; its steps are the stretches of
`Scheduler::run` and `IOManager::idle` between two lock or counter operations, and what
threads that are no workers do: schedule, arm and disarm timers, register, delete and cancel
events, and `stop()`. Runs begin when `start()` has returned. Proved for every run: every
submission is in exactly one place, the counters count what they should, no fiber runs on
two workers, every fiber follows its life cycle. `ReactorSteps` says what the steps do in
terms of the list, the workers and the fibers alone, and when a worker has no step left.

The *assertions* in `swapIn` and `reset` are an equivalence: they hold in every run if and
only if there is one worker, or no callback ends while its own fiber is still scheduled and
nobody schedules a fiber that a worker keeps for its next callback. Each of the two alone is
enough to fail: a callback that schedules `Fiber::GetThis()` and returns, or one that
schedules a fiber which another worker keeps. The fiber is back to INIT and stays in
`cb_fiber` (linko/scheduler.cc:242-244), another worker swaps it in from the list, and the
next callback of the first one resets a fiber that is EXEC (linko/scheduler.cc:229,
linko/fiber.cc:111).

*Shutdown* is an equivalence too: no worker leaves work behind if and only if nobody outside
creates work after `stop()`, there is one worker or no task yields READY, and `stopping()`
is one step or there is one worker and only its tasks create work. As written `stopping()`
makes three separate reads (linko/iomanager.cc:295-301), so that a timer which the main
thread arms before `stop()` is lost when the only worker has just seen that there is none;
and a READY fiber is counted down before it is put back (linko/scheduler.cc:211-216,
235-240). The runs that leave work behind are constructed, those for several workers for any
number of them.

**Event contexts** (`EventHistory`, `FdEvents`). `FdEvents.IOManager` has the methods of
`IOManager` on the context table, the pending counter and the kernel's interest table, with
a history of registrations. After every call the counter is the number of registrations, a
bit is set if and only if its context is armed with the continuation that was registered,
the kernel watches exactly the registered events (so the choice between ADD, MOD and DEL is
always valid), and what was scheduled is what the wake-ups of the history say. The delivery
loop triggers `real_events` without masking them by the registered ones: a round that
`epoll_ctl` lets through goes well if and only if all of the delivered events are
registered, and none of them from a thread outside any scheduler; otherwise the first of
READ and WRITE to fail decides between the failed assertion and the null scheduler that
`triggerEvent` follows. `addEvent` runs past the table if and only if the descriptor is at
or beyond 1.5 times its size.

**Hooked calls** (`DoIo`). In every interleaving of readiness, cancellation, `delEvent` and
other registrations by others, expiry and callbacks that were collected in an earlier round,
no park is ended by more than one wake-up, and a park can no longer be ended if and only if
somebody deleted its registration. A waiting call with a timeout is woken by its own timers
if and only if its last `addEvent` did not come after a timeout had already fired in vain; a
run in which it does is given. A timeout that readiness has overtaken can end a registration
that somebody else has made of the same event by then.

**ByteArray** (`Blocks`, `BlockRead`, `ByteArrayModel`). A linked list of nodes on the heap,
with cursor, refines one flat byte sequence: `write` is overwriting at the position and any
script of writes and seeks to written positions gives the same for every block size,
`toString` and the loop of `writeToFile` return the bytes from the position to the size, a
scatter read is a write. `read` is modelled as written: it adds the rest of the block to the
position in its last step (linko/bytearray.cc:399) and follows a null block pointer at the
end of the last block. The `read` at a given position starts in the cursor's block: it is
right for all contents if and only if the position lies there. `getReadBuffers` never moves
its block pointer: what it returns is the readable range if and only if that range lies in
one block.

**Encodings** (`Codec`, `Zigzag`, `Words`, `Stream`, `RoundTrip`, `TypedArray`, `Mismatch`).
Varints are minimal, prefix-free and fit their buffers; fixed-width integers have the chosen
byte order whatever the machine's is. `EncodeZigzag64` shifts by 31
(linko/bytearray.cc:123): it is inverted if and only if the value fits 32 bits. A list of
items written and read on the flat bytes comes back if and only if every string length fits
its prefix and every 64-bit zigzag integer 32 bits. For the class itself,
`TypedArray.WriteThenRead` writes any list into a new array of any block size, goes back to
position 0, reads with the matching readers and reports whether the list came back with
nothing left to read: it does if and only if, in addition, the block size divides the size
of every single `read`, and the list does not end with an empty string. `readFloat`,
`readDouble` and `readStringFVint` read a varint where the writers put an integer of fixed
width (linko/bytearray.cc:164-194, 282-326): they never return both the value and the place
behind it, and the value, from inside the integer, only when it is 0, or below 128 in
little-endian order.

**Timers** (`Timers`, `TimerRuns`, `Sleep`). The set stays in the order of a strict total
order because keys change only outside it, and holds every timer that has a callback; it
holds no other, throughout a run, if and only if no timer is added with an empty
`std::function`, which `cancel` can never remove. `listExpiredCb` hands out exactly the
timers that are due, in order. Over any run a one-shot is delivered or successfully
cancelled at most once, nothing is delivered early, and under a clock that does not run
backwards the worker that asked last, as long as no wake-up has been sent since and if it
sleeps as long as `getNextTimer` told it, misses no deadline. What it passes to `epoll_wait`
is the low half of that answer as an `int` (linko/iomanager.cc:336-348), at most 3000: a
call of `epoll_wait` ends in time if and only if that is not negative, so a timer 2^31
milliseconds away puts the worker to sleep without limit; and a signal starts the same
timeout again, so that no deadline holds if signals keep coming.

**URI** (`Uris`), **IPv6** (`Ipv6`, `Ipv6Hosts`), **log patterns** (`LogPattern`). Printing
and parsing a well-formed URI returns it if and only if the first ':' of the user
information is not followed by a digit, because the port's action moves the mark there.
Every IPv6 address comes back from its text by section 2.2 of RFC 4291; but the grammar lets
groups stand before "::" only when there are seven in all (linko/uri.rl:55-63), so the
printed text is a host of a URI if and only if the zeros left out come first or are a single
group, or there are none. In decimal the grammar has no octets from 200 to 249
(linko/uri.rl:51). The tokens of a log pattern cover it without gap or overlap if and only
if no braces are left open; "%%" is a literal '%' and the start of a format.

**HttpConnectionPool** (`Pool`). Each lock region and each change of the total is a step; in
every interleaving the total is the idle, the handed-out and the not yet counted-off
connections, no connection is reused beyond its age or request limit, and `m_maxSize` limits
nothing.

## Reading the model

- A lock region, an atomic counter operation, or "pick and swap in", "set the state and swap
  out" is one step of the transition systems. The order of memory operations below that is
  not modelled.
- What the environment decides is a parameter or a nondeterministic step: the clock,
  `epoll_ctl` failing, readiness, whether a socket is still connected, addresses of new
  objects.
- A fiber is a number with a state; a callback is a number. A heap object that the source
  reaches through a pointer is a class where the source links objects (`ByteArray`) and a
  record in a table where it indexes them (`FdContext`, `Timer`, `HttpConnection`).
- `|=` of disjoint bits is addition and `& 0x7F`, `>> 7` are remainder and quotient in the
  varint code; zigzag is modelled on 64-bit vectors, a 32-bit word in the low half.

## Model

| member | source | states |
|---|---|---|
| RunQueue.FirstEligible | linko/scheduler.cc:178-200 | the chosen entry may run here and none before it may; none is chosen only if none may |
| RunQueue.PassedExactly | linko/scheduler.cc:180-192 | an entry is passed over exactly when it is pinned to another thread or holds a fiber that is EXEC; a fiber in any other state, HOLD among them, may be taken |
| RunQueue.PickedExactly | linko/scheduler.cc:178-200 | nothing is chosen exactly when every entry is passed over, and otherwise the first that is not |
| RunQueue.TaskList.Schedule | linko/scheduler.h:71-78 | a non-empty submission goes to the end; a tickle is asked for exactly when the list was empty |
| RunQueue.TaskList.Take | linko/scheduler.cc:176-201 | nothing is taken exactly when every entry is pinned to another thread or holds an EXEC fiber; otherwise the first entry of which neither is so leaves, the rest keeps its order and the busy counter goes up; a tickle exactly when an entry pinned elsewhere was passed |
| ReactorSteps.FiberPicked | linko/scheduler.cc:207-211 | a worker at its loop head with such an entry first can take it: a fiber in INIT, HOLD or READY becomes EXEC on this worker, one that has ended is dropped |
| ReactorSteps.CallbackPicked | linko/scheduler.cc:225-235 | a callback is run in the worker's kept fiber, or in a new one if there is none |
| ReactorSteps.IdleExactly | linko/scheduler.cc:252-268 | a worker goes idle, or leaves, exactly when every entry is passed over |
| ReactorSteps.WokenRuns | linko/iomanager.cc:411-419 | the wake-up of a fiber on hold gets through: triggered by one worker, it is taken by another and swapped in, and both counters follow |
| ReactorSteps.ComesBackExactly | linko/scheduler.cc:211-220 | a running fiber whose callback was not reset can come back held, ended, failed or, when tasks yield, READY, and in no other state, as long as callbacks may end while their fiber is scheduled |
| ReactorSteps.ReadyReturns | linko/scheduler.cc:211-216 | a fiber that yields READY goes to the end of the list, free for any worker, after it was counted down |
| ReactorSteps.HeldRests | linko/scheduler.cc:217-249 | a held fiber is put in no list and kept in no worker's slot |
| ReactorSteps.EndedFiberServes | linko/scheduler.cc:226-244 | the fiber of a callback that ended runs the worker's next callback |
| ReactorSteps.EndedStays | linko/scheduler.cc:211-223 | a scheduled fiber that ends stays in the state it ended in |
| ReactorSteps.CollectedSubmitted | linko/iomanager.cc:356-362 | one free entry for each collected callback, in order, at the end of the list |
| ReactorSteps.NewScheduled | linko/scheduler.h:71-78 | a new fiber is INIT and its submission an entry at the end of the list, with nothing else changed |
| ReactorSteps.ArmDisarm | linko/timer.cc:46-127 | arming and disarming a timer leaves everything as it was |
| ReactorSteps.RegisterUnregister | linko/iomanager.cc:103-200 | so does registering and deleting an event, the pending counter included |
| ReactorSteps.CancelledOutside | linko/iomanager.cc:203-234 | `cancelEvent` submits the continuation, then counts the event down |
| ReactorSteps.StoppingExactly | linko/iomanager.cc:295-301 | `stopping()`, in one step or three, says no exactly when one of the things it looks at is not so, and then the worker waits |
| ReactorSteps.StuckExactly | linko/scheduler.cc:171-275 | a worker that owes nothing has no step exactly when it has left its loop or an assertion fails on the next entry |
| ReactorInvariants.StepConserved | linko/scheduler.cc:170-275 | each step of any worker, and of any thread that is no worker, keeps every submission in one place and both counters exact |
| ReactorInvariants.RunConserved | linko/scheduler.cc:157-276 | the same over every run, before and after `stop()` |
| ReactorInvariants.TaskConservation | linko/scheduler.cc:170-257 | from `start()` on, in every reachable state queue, hands and done are together what was scheduled, nothing twice; the active count is the number of hands, the pending count the registered events plus the decrements that workers and others still owe |
| ReactorFibers.StepWired | linko/fiber.cc:108-222 | each step of any worker or other thread keeps fiber states, recycled callback fibers and pinning consistent, whatever is scheduled |
| ReactorFibers.NoSharedFiber | linko/scheduler.cc:178-211 | a running fiber is EXEC, runs on one worker only, and never on a worker other than the one it is pinned to |
| ReactorFibers.LifeCycle | linko/fiber.cc:143-222 | every transition of every fiber in every run is one of the life cycle; only a reset takes a fiber that has ended back to work |
| FiberAssertions.HoldsWhen | linko/fiber.cc:108-151 | with one worker, or when no callback ends while its fiber is scheduled and no kept fiber is scheduled, the assertions of swapIn and reset hold on every worker in every run |
| FiberAssertions.HelperSchedules | linko/scheduler.cc:178-197 | a run, for any number of workers above one, in which a callback on one worker schedules the fiber that another one keeps, while no callback ends with its own fiber scheduled |
| FiberAssertions.StrayRuns | linko/scheduler.cc:226-250 | if either may happen, for any number of workers above one, a run in which a second worker swaps in the kept fiber |
| FiberAssertions.FailsWhen | linko/scheduler.cc:228-229 | after it the next callback of the first worker resets a fiber that is EXEC |
| FiberAssertions.AssertionsHold | linko/fiber.cc:108-151 | the assertions hold in every run if and only if there is one worker, or no callback ends while its own fiber is scheduled and nobody schedules a fiber that a worker keeps |
| Shutdown.LastStop | linko/iomanager.cc:295-301 | the last worker to be told to stop leaves nothing behind if what it read is still so |
| Shutdown.RunGuarded | linko/iomanager.cc:321-362 | over every run either `stop()` has come and nothing is left to do, or some worker has not been told to stop |
| Shutdown.SafeWhen | linko/scheduler.cc:283-289 | under the condition of the equivalence below, nothing is left behind |
| Shutdown.TornReadsA | linko/iomanager.cc:295-301 | first part of a run in which a worker is told to stop on reads that no longer hold |
| Shutdown.TornReadsD | linko/iomanager.cc:295-301 | its end: every worker has left and a timer is armed, for any number of workers above one |
| Shutdown.ReadyRunC | linko/scheduler.cc:211-216 | the end of a run in which a READY fiber is put back after the others were told to stop |
| Shutdown.LoneTornRun | linko/iomanager.cc:295-301 | a run with one worker: a timer is armed from outside between the reads, then `stop()` comes, and the worker leaves with the timer armed |
| Shutdown.LateRun | linko/scheduler.cc:283-289 | for any number of workers, a submission after `stop()` that nobody takes |
| Shutdown.UnsafeWhen | linko/scheduler.cc:211-240 | in every other case a run that leaves work behind |
| Shutdown.ShutdownSafety | linko/iomanager.cc:295-362 | from a fresh start, shutdown is safe if and only if nobody outside creates work after `stop()`, there is one worker or no task yields READY, and the reads are one step or only the tasks of the one worker create work |
| EventHistory.Balance | linko/iomanager.cc:103-277 | every registration of an event was woken once, deleted once, or is live |
| EventHistory.WokenAre | linko/iomanager.cc:33-44 | the scheduler is handed as many continuations as there were wake-ups |
| EventHistory.WakeMatchesAdd | linko/iomanager.cc:33-44 | a wake-up resumes what its own registration handed over, with nothing in between |
| FdEvents.TriggerEvent | linko/iomanager.cc:33-44 | the bit goes, the continuation moves out and the context is left empty; a failed assertion exactly for an event that is not registered, a null pointer exactly for one that was registered outside any scheduler |
| FdEvents.IOManager.constructor | linko/iomanager.cc:47-74 | 32 unused contexts and nothing registered |
| FdEvents.IOManager.ContextResize | linko/iomanager.cc:91-100 | old contexts stay, new ones are unused |
| FdEvents.IOManager.EpollCtl | linko/iomanager.cc:136-141 | the kernel's table changes as asked or not at all; ADD needs an absent, MOD and DEL a present descriptor |
| FdEvents.IOManager.AddEvent | linko/iomanager.cc:103-161 | registers exactly this continuation, with the scheduler of the calling thread if it has one, or changes nothing; done exactly when the descriptor is in range, the event free and the kernel willing; aborts if and only if the event is already registered; out of range exactly from 1.5 times the size, to which the table grows only when it has to |
| FdEvents.IOManager.DelEvent | linko/iomanager.cc:164-200 | ends a live registration without waking it; otherwise nothing changes |
| FdEvents.IOManager.CancelEvent | linko/iomanager.cc:203-234 | wakes the live registration exactly once and ends it; nothing changes when there is none or the kernel refuses; a null pointer exactly when it was registered outside any scheduler |
| FdEvents.IOManager.CancelAll | linko/iomanager.cc:237-277 | wakes every live registration of the descriptor once, and none is left; a null pointer exactly when one of them was registered outside any scheduler |
| FdEvents.IOManager.Trigger | linko/iomanager.cc:411-414 | one wake-up of the registered continuation, and the counter goes down by one; or which of the two faults |
| FdEvents.IOManager.TriggerBits | linko/iomanager.cc:264-272 | exactly the given registered events are woken, READ first, and the other keeps its context; or the first fault |
| FdEvents.TriggersDone | linko/iomanager.cc:411-419 | triggering a set of events goes well if and only if each is registered, and from a thread of a scheduler |
| FdEvents.IOManager.Deliver | linko/iomanager.cc:374-420 | without a fault READ was woken exactly when it was live and the descriptor ready to read or broken, WRITE likewise with ready to write, READ first, and every other registration is as it was; refused exactly when nothing live was asked for or the kernel refuses |
| FdEvents.OutcomeExactly | linko/iomanager.cc:382-419 | when a round is refused, when its assertion fails and when it follows a null scheduler, in terms of what was reported and what is registered |
| FdEvents.WokeOrder | linko/iomanager.cc:411-419 | what one round hands to the scheduler: READ's continuation, then WRITE's |
| FdEvents.IOManager.DeliverAll | linko/iomanager.cc:364-420 | without a fault the history is the rounds one after the other, which only adds wake-ups of live registrations; otherwise the first round that goes wrong, and how |
| FdEvents.MirrorAdd | linko/iomanager.cc:143-158 | a free bit has an empty context, so the assertion before it is filled in holds; afterwards contexts and history agree |
| FdEvents.MirrorEnd | linko/iomanager.cc:193-199 | ending a registration keeps contexts and history in agreement and lowers the count by one |
| DoIo.ExactlyOnce | linko/hook.cc:108-170 | in every interleaving each registration is woken once, deleted once or live, and each wake-up resumed once; a suspended call is exactly one of registered, queued and deleted |
| DoIo.LostForever | linko/iomanager.cc:191-199 | nothing wakes a call whose registration was deleted |
| DoIo.ResumableExactly | linko/iomanager.cc:164-200 | after any run a suspended call can still be resumed by some continuation if and only if no registration of it was deleted |
| DoIo.DeletionIsFinal | linko/iomanager.cc:164-200 | a registered call can be deleted at any moment, and then no continuation resumes it; when it is woken instead, one does |
| DoIo.TimeoutHitsOthers | linko/hook.cc:126-136 | a reachable state in which the timeout of a call that was woken by readiness ends somebody else's registration |
| DoIo.TimeoutWorks | linko/hook.cc:125-136 | a waiting call is woken by its own timers if and only if its last addEvent did not come after a timeout that fired in vain |
| DoIo.TimeoutCanBeLost | linko/hook.cc:126-165 | a reachable state in which a parked call with a timeout has no working timer |
| DoIo.ReportsExactly | linko/hook.cc:108-170 | over every run: the call reports a timeout if and only if it looked at `tinfo->cancelled` after one of its timer callbacks had run; it returns without one exactly by the original function's result or a failed addEvent |
| DoIo.StuckExactly | linko/hook.cc:108-170 | the calling fiber has no step exactly when the call has returned, sleeps with nothing queued for it, or finds the event taken by somebody else |
| DoIo.OthersEnd | linko/iomanager.cc:118-126 | what others register is in the way of the call until they end it |
| DoIo.AddCanFail | linko/hook.cc:138-146 | a failed addEvent returns without a timeout, its timer cancelled and nothing registered |
| DoIo.NoTimeoutNoError | linko/hook.cc:124-162 | a call without a timeout never reports one |
| DoIo.MutedRoundReportsTimeout | linko/hook.cc:158-162 | a round that started after such a timeout reports ETIMEDOUT whatever woke it |
| Blocks.BlockWrite | linko/bytearray.cc:354-372 | overwriting inside a block overwrites the flat sequence at the block's start plus the offset |
| Blocks.BlockSlice | linko/bytearray.cc:392-411 | a slice of a block is the slice of the flat sequence |
| Blocks.Locate | linko/bytearray.cc:348-350 | quotient and remainder by the block size are the block and the offset in it |
| BlockRead.ScanAligned | linko/bytearray.cc:392-411 | from an aligned cursor the loop returns the right bytes, and rounds the position up to a block boundary |
| BlockRead.ReadAligned | linko/bytearray.cc:379-412 | one read from an aligned cursor: the right bytes and a rounded position, or a null pointer exactly at the capacity, even for no bytes |
| ByteArrayModel.ByteArray.CursorFollowsPosition | linko/bytearray.cc:459-466 | in every valid state the cursor is the block the position lies in, and null exactly at the capacity |
| BlockRead.PeekExactly | linko/bytearray.cc:420-447 | the scan that starts in the cursor's block returns the bytes at the given position, for all contents, if and only if the position lies in that block |
| ByteArrayModel.PlayAll | linko/bytearray.cc:341-467 | a new array after any script of writes and seeks to written positions has the contents, size and position of the flat tape |
| ByteArrayModel.SameWrites | linko/bytearray.cc:341-467 | the same script of writes and seeks gives the same contents, size and position for any two block sizes |
| ByteArrayModel.ByteArray.AddCapacity | linko/bytearray.cc:515-545 | room for the bytes is there, less than a block more than needed, and the contents are untouched |
| ByteArrayModel.ByteArray.Write | linko/bytearray.cc:341-377 | the contents are the old ones overwritten at the position, for any block size; position and size follow; the list stays well formed |
| ByteArrayModel.ByteArray.Read | linko/bytearray.cc:379-412 | exactly the as-written reader on the blocks, from any cursor; refused exactly when more is asked for than is readable |
| BlockRead.RefusedExactly | linko/bytearray.cc:379-383 | a read is refused exactly when it asks for more than is readable, and then nothing moves; a successful one returns as much as was asked for |
| ByteArrayModel.ByteArray.ReadAt | linko/bytearray.cc:414-448 | the bytes at the given position if it lies in the cursor's block and there are as many; in any case what the scan from the cursor's block gives |
| ByteArrayModel.ByteArray.SetPosition | linko/bytearray.cc:450-467 | refused beyond the capacity; otherwise the cursor is right again whatever it was |
| ByteArrayModel.ByteArray.ToString | linko/bytearray.cc:547-555 | the bytes from the position to the size |
| ByteArrayModel.ByteArray.WriteToFile | linko/bytearray.cc:478-493 | the chunks are together the bytes from the position to the size |
| ByteArrayModel.ByteArray.GetWriteBuffers | linko/bytearray.cc:638-666 | consecutive slices of the blocks from the position, together the length asked for; contents, position and size untouched |
| ByteArrayModel.ByteArray.GetReadBuffers | linko/bytearray.cc:572-600 | the slices are the readable range if and only if it lies in the cursor's block |
| ByteArrayModel.ByteArray.ScatterRead | linko/socket_stream.cc:28-38 | filling the slices with what was received and moving the position is the same as writing it |
| ByteArrayModel.TilesAppend | linko/bytearray.cc:650-664 | one more slice where the others end keeps them consecutive |
| Codec.VarintBytes | linko/bytearray.cc:138-147 | the loop writes the seven-bit encoding and stays inside its buffer |
| Codec.VarintBounds | linko/bytearray.cc:138-162 | at most five bytes for 32 bits and ten for 64 |
| Codec.VarintTerminated | linko/bytearray.cc:153-162 | the encoding ends with its first byte below 128 and stands for the value |
| Codec.VarintMinimal | linko/bytearray.cc:153-162 | no terminated byte string for the value is shorter |
| Codec.VarintPrefixFree | linko/bytearray.cc:138-162 | no encoding is a proper prefix of another |
| Codec.WireFormat | linko/bytearray.cc:74-116 | the bytes written depend on the chosen order only, not on the machine's |
| Codec.WireValue | linko/bytearray.cc:213-245 | neither does the value read |
| Codec.FixedRoundTrip | linko/bytearray.cc:74-116 | a value written on one machine is read back on any other |
| Codec.SignedRange | linko/bytearray.cc:66-116 | the signed integers of one, two, four and eight bytes are those of the machine types |
| Zigzag.Zigzag32RoundTrip | linko/bytearray.cc:118-128 | decoding inverts encoding on every 32-bit word |
| Zigzag.Zigzag32Inverse | linko/bytearray.cc:126-128 | and the other way round |
| Zigzag.Zigzag32Is | linko/bytearray.cc:116-120 | 0, -1, 1, -2, 2 and so on become 0, 1, 2, 3, 4: twice the value, or twice its absolute value less one |
| Zigzag.Zigzag64RoundTrip | linko/bytearray.cc:122-132 | as written inverted if and only if the value fits 32 bits; with a shift by 63 always |
| Zigzag.Zigzag64Is | linko/bytearray.cc:116-124 | the same for 64 bits with a shift by 63 |
| Zigzag.SameLength | linko/bytearray.cc:122-124 | the encoding as written has no higher bit than the intended one |
| Words.Trip64 | linko/bytearray.cc:149-151 | through the number and back, a 64-bit value survives if and only if it fits 32 bits |
| Words.NoLonger64 | linko/bytearray.cc:149-162 | what is written for a value is no longer than anything that reads as that value |
| Stream.VarintBack | linko/bytearray.cc:251-280 | the reading loop recovers the value and stops behind its last byte, whatever follows |
| Stream.TakeRight | linko/bytearray.cc:379-412 | a read of whole blocks from a block boundary returns the right bytes and ends on a boundary |
| Stream.TakeShort | linko/bytearray.cc:379-383 | a read of more than there is is refused, from the flat bytes and from the blocks, and nothing moves |
| RoundTrip.ItemBack | linko/bytearray.cc:176-189 | one item comes back from where it was written if and only if it fits and no null pointer is followed |
| RoundTrip.SmoothRoundTrip | linko/bytearray.cc:201-318 | the same for a list, from any place of any source |
| RoundTrip.ItemMoves | linko/bytearray.cc:392-411 | an item that comes back moved the position by no less than its length, and by its length only in whole blocks |
| RoundTrip.FlatRoundTrip | linko/bytearray.cc:74-318 | on the flat bytes a list comes back, with any suffix behind it, if and only if lengths fit their prefixes and 64-bit zigzag integers 32 bits |
| RoundTrip.BlockedRoundTrip | linko/bytearray.cc:379-412 | as written it comes back with nothing left if and only if, in addition, every read is a number of whole blocks and the array does not end with an empty string at its capacity |
| TypedArray.WriteItem | linko/bytearray.cc:66-198 | the typed writers overwrite the contents at the position with the item's encoding |
| TypedArray.ReadWord | linko/bytearray.cc:251-280 | the loop does what the specification of the reader says of the blocks |
| TypedArray.ReadItem | linko/bytearray.cc:201-318 | the typed readers do what the specification says, from any cursor |
| TypedArray.WriteItems | linko/bytearray.cc:66-198 | a new array with a list in it holds exactly the list's encoding and less than a block to spare |
| TypedArray.SurvivesExactly | linko/bytearray.cc:379-412 | the exact condition, in terms of the list and the block size alone |
| TypedArray.WriteThenRead | tests/test_bytearray.cc:12-40 | write all, go back, read all: the same list and nothing left to read if and only if everything fits, the block size divides every read and the list does not end with an empty string |
| Mismatch.ValueBack | linko/bytearray.cc:282-294 | a varint reader that stops inside a fixed-width integer returns its value if and only if it read one byte and the value is 0, or below 128 with the lowest byte first |
| Mismatch.NeverBack | linko/bytearray.cc:164-174 | `readFloat` and `readDouble` never return both what was written and the place behind it |
| Mismatch.ZeroBack | linko/bytearray.cc:164-174 | zero comes back, and all but its first byte is left to read |
| Mismatch.VintNeverBack | linko/bytearray.cc:320-326 | `readStringFVint` after `writeStringVint` never returns both the string and the place behind it |
| Timers.LowerBoundSplits | linko/timer.cc:6-30 | the comparator's lower bound splits the set in those before the key and those not before it |
| Timers.InsertSorted | linko/timer.cc:114-115 | an inserted timer keeps the set in order and is its only new member |
| Timers.ArmedIsFound | linko/timer.cc:46-55 | a timer with a callback is found, so nothing erases end() |
| Timers.SortedFrame | linko/timer.cc:66-68 | a key that changes outside the set keeps the set in order |
| Timers.AddValid | linko/timer.cc:106-127 | adding keeps the set in order and the timers with a callback in it, also for an empty callback |
| Timers.CancelValid | linko/timer.cc:46-55 | so does cancelling |
| Timers.RefreshValid | linko/timer.cc:57-70 | so does refreshing |
| Timers.ResetValid | linko/timer.cc:72-97 | so does resetting |
| Timers.DueSplits | linko/timer.cc:179-186 | the scan stops behind the last timer that is due |
| Timers.ExpireDoes | linko/timer.cc:159-203 | exactly the expired timers change: one-shots lose their callback, recurring ones get now plus their period; the set stays valid |
| Timers.ExpiredExactly | linko/timer.cc:174-190 | the timers that expire are exactly those due, all on a rollover, in the order of deadline and address |
| Timers.NothingDueRemains | linko/timer.cc:193-202 | afterwards nothing is due but recurring timers of period 0 |
| Timers.RolloverExactly | linko/timer.cc:205-214 | a rollover is a step back of more than an hour, or any step back within the first hour of the count, where the subtraction wraps |
| Timers.TimerManager.AddTimer | linko/timer.cc:106-127 | the new timer is in with the deadline now plus its period, everything else is as it was, and the notification comes exactly when it is before all others and none is outstanding |
| Timers.TimerManager.Cancel | linko/timer.cc:46-55 | true exactly for a timer with a callback, which loses it and leaves the set, all others as they were; otherwise nothing changes |
| Timers.TimerManager.Refresh | linko/timer.cc:57-70 | a timer with a callback gets the deadline now plus its period, without notification; otherwise nothing changes |
| Timers.TimerManager.Reset | linko/timer.cc:72-97 | a timer with a callback gets the new period and the deadline start plus period, the start being now or the old deadline less the old period; a notification exactly when it is now before all others and none is outstanding; true without looking when only the old period is asked for |
| Timers.EnterFront | linko/timer.cc:113-122 | a timer that goes in is first exactly when its deadline is before all the others, or the same and its address lower |
| Timers.ResetDoes | linko/timer.cc:72-97 | the reset used in the runs has this meaning |
| Timers.Wraps | linko/timer.cc:88-94 | deadlines are sums and differences modulo 2^64 |
| Timers.TimerManager.GetNextTimer | linko/timer.cc:142-157 | the largest value if the set is empty; else 0 exactly when some timer is due, and otherwise now plus the answer is the least deadline; the notification flag is cleared |
| Timers.NextTells | linko/timer.cc:142-157 | the answer used in the runs has this meaning |
| Timers.NeverMeansEmpty | linko/timer.cc:146-147 | the largest value means an empty set, but for a clock at 0 and a least deadline of that value |
| Timers.TimerManager.FirstNotDue | linko/timer.cc:179-186 | lower bound and loop together stop behind the last due timer, wherever the probe is allocated |
| Timers.TimerManager.ListExpiredCb | linko/timer.cc:159-203 | the callbacks of the expired timers in order, and the state of the specification |
| TimerRuns.FiresOnce | linko/timer.cc:46-203 | over any run deliveries plus successful cancels of a one-shot account for its place in the set, so they never exceed one; a recurring timer ends only by a cancel |
| TimerRuns.FullExactly | linko/timer.cc:99-104 | the timers in the set are those with a callback, throughout a run, if and only if no call adds an empty callback |
| TimerRuns.EmptyStays | linko/timer.cc:46-97 | a timer without a callback cannot be cancelled, refreshed or reset: it stays in the set until it expires |
| TimerRuns.NeverEarly | linko/timer.cc:174-190 | without a rollover nothing is delivered before its deadline |
| TimerRuns.NothingSleptThrough | linko/timer.cc:114-157 | from a new manager, under a monotone clock: at most one wake-up since the last getNextTimer by any worker, and without one no timer is due before the moment of asking plus the answer, unless the answer was 0; there is no timer if it was that there is none |
| Sleep.Poll | linko/iomanager.cc:331-355 | every call of the loop, however often interrupted, gets the same argument |
| Sleep.WakesInTimeExactly | linko/iomanager.cc:333-348 | one call ends within the answer if and only if there is no timer or the low half of the answer is no negative int; it then lasts no longer than the maximum |
| Sleep.InterruptedSleep | linko/iomanager.cc:331-355 | with signals the whole wait stays within the answer if and only if its low half is 0 |
| Sleep.AwakeAtDeadlines | linko/iomanager.cc:321-355 | after any run, the worker that asked last, if no wake-up has been sent since, is awake at the deadline of every timer in the set, counted from the moment it asked, if its call ends in time |
| TimerRuns.RefreshKeeps | linko/timer.cc:57-70 | refresh needs no wake-up because it never moves a deadline forward |
| TimerRuns.ExpireKeeps | linko/timer.cc:196-199 | nor does the reinsertion of a recurring timer |
| Uris.HostChars | linko/uri.rl:50-67 | no host contains a character that ends an authority |
| Uris.HostKinds | linko/uri.rl:65-67 | a host starts with a bracket exactly when it is an IP literal |
| Uris.CharKinds | linko/uri.rl:10-13 | the characters that stand for themselves are printable ASCII without the general delimiters and the ten characters that RFC 3986 leaves out; none is of two kinds |
| Uris.HexChars | linko/uri.rl:14 | the digits of an escape are the hexadecimal ones, in both cases |
| Uris.SpelledExactly | linko/uri.rl:50-67 | position by position, each character is one of the part or starts an escape |
| Uris.OctetNumber | linko/uri.rl:51 | an octet is the decimal text of a number below 256, with the byte 2 in place of the digit for those from 200 to 249 |
| Uris.OctetSpelled | linko/uri.rl:51 | and every such text is an octet |
| Uris.OctetExactly | linko/uri.rl:51 | so in plain decimal exactly 0 to 199 and 250 to 255 are octets |
| Ipv6Hosts.HostMeans | linko/uri.rl:52-63 | an address of the grammar without an IPv4 address at its end stands for eight 16-bit groups by section 2.2 of RFC 4291 |
| Ipv6Hosts.PrintedHost | linko/uri.rl:55-65 | the library's own text of an address is a host of the grammar if and only if the zeros left out come first or are one group, or there are none |
| Uris.AuthorityBack | linko/uri.rl:70 | the printed authority parses to its parts, user information from the mark on |
| Uris.CreateDump | linko/uri.rl:134-200 | what the dump of a well-formed URI parses to, component by component |
| Uris.PrintParse | linko/uri.rl:134-200 | print and parse agree on every component if and only if the first ':' of the user information is not followed by a digit |
| Uris.DumpedParts | linko/uri.rl:134-200 | what a dump parses to in plain terms: the same scheme, host, query and fragment, the path or "/" if it was empty, 0 for the scheme's own port, and the user information from the first ':' on if a digit follows it |
| Uris.DefaultPort | linko/uri.rl:155-186 | the port that the dump leaves out is the one that getPort puts in |
| Uris.DumpStable | linko/uri.rl:188-200 | printing again gives the same text under exactly the same condition |
| Uris.ParsedWellFormed | linko/uri.rl:16-149 | every accepted text with a scheme gives a well-formed URI |
| Uris.ParsePrintParse | linko/uri.rl:134-200 | dump after Create is idempotent for every accepted text with a scheme under exactly that condition |
| Uris.RelativeDump | linko/uri.rl:121-130 | the dump of a reference without a scheme is rejected |
| Ipv6.Insert | linko/address.cc:412-435 | the loop prints the address with its first run of zeros left out |
| Ipv6.GroupText | linko/address.cc:427 | a group is one to four digits and starts with '0' only if it is 0 |
| Ipv6.HexShortest | linko/address.cc:427 | no text that stands for the same number is shorter |
| Ipv6.OneGap | linko/address.cc:412-435 | the text has "::" exactly when some group is zero, and never twice |
| Ipv6.PrintExpands | linko/address.cc:412-435 | expanding the text by section 2.2 of RFC 4291 returns the address |
| Ipv6.PrintInjective | linko/address.cc:412-435 | two addresses never have the same text |
| LogPattern.ScanLoop | linko/log.cc:430-467 | the inner loop finds the name, the text in braces and the end, or that the braces are never closed |
| LogPattern.NameExactly | linko/log.cc:436-463 | a name is the longest run of letters, digits and '}' behind the '%'; what follows decides between a format without braces and braces that are never closed |
| LogPattern.ArgExactly | linko/log.cc:441-456 | with braces right behind the name, the argument goes up to the first '}' |
| LogPattern.Init | linko/log.cc:414-481 | the entries pushed and the error flag are those of the specification |
| LogPattern.TokensTile | linko/log.cc:414-481 | the items cover the pattern in order without gap or overlap if and only if no braces are left open |
| LogPattern.ErrorFirst | linko/log.cc:472-481 | an error comes out in front of the literal text before it, which goes on with all that follows the '%' |
| LogPattern.BrokenMeansOpen | linko/log.cc:474-479 | an error means that some '{' has no '}' behind it |
| Pool.HttpConnectionPool.Pop | linko/http/http_connection.cc:299-316 | one lock region: the first connected and young enough connection is handed out, those before it are set aside, the rest keeps its order; from any valid state, so in any interleaving, idle, handed-out and set-aside connections stay disjoint and add up to the total |
| Pool.UnusableExactly | linko/http/http_connection.cc:299-316 | those set aside are not connected or too old; the one handed out is connected and not too old |
| Pool.HttpConnectionPool.CountOff | linko/http/http_connection.cc:317-320 | connections set aside are deleted and taken off the total, whatever other threads have set aside |
| Pool.HttpConnectionPool.Create | linko/http/http_connection.cc:338-339 | a new connection is counted and handed out |
| Pool.HttpConnectionPool.GetConnection | linko/http/http_connection.cc:295-343 | the steps one after the other: which connection is handed out, which are gone, and what failing to connect leaves |
| Pool.HttpConnectionPool.Release | linko/http/http_connection.cc:345-356 | a connection goes back exactly when it is connected, young enough and not used up; otherwise it is deleted and taken off the total |
| Pool.PopKeeps | linko/http/http_connection.cc:299-316 | popping and handing out keeps the balance and the limit on how often a connection is handed out |
| Pool.PoppedIs | linko/http/http_connection.cc:299-316 | what popping does to queue, table, set-aside and handed-out connections |
| Pool.CountOffKeeps | linko/http/http_connection.cc:317-320 | counting off keeps the balance |
| Pool.ReturnKeeps | linko/http/http_connection.cc:345-356 | so does taking a connection back |
| Pool.Flood | linko/http/http_connection.cc:322-343 | whatever the maximum size, any number of connections can be out at once |

## Left out

- Reactor: "pick and swap in" and "set the state and swap out" are single steps; a fiber that another thread schedules between its own `m_state` write and its swap is not modelled.
- Reactor: the two stop flags are set in one step, the second of the two writes in `stop()`, before which `stopping()` is false; an event registered outside any scheduler is triggered like any other here, and follows its null scheduler in `FdEvents`.
- Reactor: the idle fiber does not throw. A worker whose assertion fails takes no further step, and the other workers go on; a fiber that is swapped in after its callback was reset to null ends with the exception of an empty `std::function`.
- Reactor: `use_caller`, `Scheduler::start`, `Fiber::call` and `back`, tickling through the pipe and the idle counter, since they do not change what is queued, held or counted.
- FdEvents.IOManager: a context is a value in a table, not a heap object behind a pointer; two threads' method bodies do not interleave inside the descriptor's lock, and the window in `addEvent` between dropping the table's lock and taking the descriptor's is one step.
- DoIo: an `addEvent` that finds the event registered by somebody else fails its assertion and is no step; nobody else schedules the fiber of the call.
- ByteArrayModel.ByteArray.GetReadBuffers: the overload with a position has the same loop and is not repeated.
- ByteArrayModel.ByteArray.Write: sizes and positions are unbounded; only the unsigned difference in `getReadSize` wraps.
- TypedArray.WriteThenRead: "nothing left to read" is the position being equal to the size, and sizes stay below 2^64.
- TypedArray.ReadItem: float, double and Vint strings are treated on the flat bytes only (`Mismatch`), a float as the integer with the same bits; `readFromFile`, `toHexString` and `clear`.
- ByteArrayModel.SameWrites: seeks behind what has been written; whether they are refused depends on the capacity, and so on the block size.
- Sleep.Poll: `epoll_wait` returns at the latest when its timeout has passed; rounding up to the granularity of the system clock, and the time between asking and waiting, are not modelled.
- TimerRuns.NothingSleptThrough: assumes that no sum of a clock value and a period reaches 2^64; the operations themselves wrap.
- Timers.TimerManager.ListExpiredCb: no other thread takes a step between the first test for an empty set and the second one under the lock.
- Uris.PrintParse: the generated state machine is replaced by a structured parser of the same grammar and actions; `atoi` on a port that does not fit an int is not modelled, ports are unbounded.
- Ipv6.Insert: `Address::operator<` and the subnet functions, which need no proof or do not compute prefix masks (linko/address.cc:15).
- Pool.HttpConnectionPool.Release: the decision to delete and the request counter touch only the caller's connection and are part of the step that takes it back. Sums of times do not wrap.
- LogPattern.Init: the table that turns names into format items, and printing the error.
- Sockets, threads, configuration, HTTP messages, servlets, streams and logging output: foreign calls or simple maps.
