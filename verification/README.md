# WebTSan and the engine code it hooks into, modelled and verified in Dafny

Four parts, each verified on its own terms.

**The race detector** (`Clocks`, `Shadow`, `Detector`, `Hooks`, `Causality`, `Races`, `Ticking`,
`Locks`, `StoreAsRmw`, `WasmHooks`, `Limits`, and the remark `Disciplines`). `VClock`, `ShadowBuffer` and
`WebTSan` are classes with the methods of the C++ classes, each proved against a function on values. A run
is any sequence of hooked operations by up to 64 threads on one shared buffer: plain accesses, and loads,
stores, read-modify-writes, notifications, completed waits, mutexes, reader-writer locks and messages that
move clocks. Happens-before is defined without clocks, as the transitive closure of program order and
release-to-later-acquire on the same key, and the detector is measured against it: what it reports is a
data race, what it remembers is exactly the last recorded access per byte and thread parity, and what its
clocks know is happens-before but for one exactly stated exception, the releases after which a thread does
not tick. From this come the exact verdict on every access of every run, and the conditions under which the
first race is found. `Locks` says what consistent locking keeps silent. `Limits` has runs that show where
these statements stop.

**Futex emulation** (`WaitQueues`, `FutexMemory`, `FutexState`, `FutexWakes`, `FutexSettling`,
`FutexTeardown`, `FutexWaitList`, and the runs in `FutexRuns`, `FutexInvariant`, `FutexSteps`, `FutexResults`,
`FutexTasks`, `FutexHistories`, `FutexOutcomes`). `FutexWaitList` is a class over an explicit memory of linked nodes, so that
deleting a node is visible and every dereference is shown to hit a live one. Its methods do the
pointer surgery of the C++ code and are proved to refine operations on maps from a location or an
isolate to a non-empty queue: the contract of each operation equates its new abstract state with a
function of the old one. On top of the same functions stands a step system of any
number of isolates, in which wake-ups, timeouts, resolve tasks, teardown, interrupts and spurious
wake-ups interleave freely. The code's debug checks, and any use of a deleted node, raise a fault
in it; no run faults.

**Growing and resizing in place** (`WasmGrow`, `SharedGrow`, `Resize`, `Pages`). The two
compare-exchange loops are step systems of any number of threads, in which each load, permission
change and exchange is a step. The single-threaded resize is a class over the reserved bytes.

**Bit-exact loops** (`FloatRounding`, `ArrayFill`). The conversion of 64-bit integers to 32-bit floats
through 26 of their bits is compared with rounding to nearest, ties to even, stated independently; the
doubling fill writes an array in place. `Basics` and `Arithmetic` serve all four parts.

## Modelling choices

- A hook and the memory operation it announces are one step. Thread ids are not reused, and every thread
  starts in its own epoch 1, which its creation gives it.
- The hooks are those of `web_tsan.cc`, and `HOOKS` their configuration: every release joins into the key's
  clock (`:362`, `:402`), and the releaser ticks after publishing at an address (`:363`, `:403`) but not
  after sending a message (`:461`). `Config` also has the other choices, because the theorems hold for all of
  them: which operations tick (`ticking`) and which would replace the key's clock (`overwriting`).
- A message's id is new and the message is received at most once (`:460`, `:477`): receiving erases what was
  published under the id, and creating or destroying a mutex erases what was published at its address.
  An erased publication synchronizes with no later acquire.
- A thread that is joined or absorbed, or that creates another, hands over its clock without ticking, which
  is a message from the one to the other (`Hooks.ToldByMessage`, `Hooks.CreationIsMessage`).
- `OnAtomicsRMW` is one step. As a release joins, running others between its two halves is the same as a
  load followed by a store, which runs have as well.
- `WebTSan` holds clocks as values and both C++ maps of published clocks as one, keyed by address or
  message. `VClock` has the loops that compute on clocks.
- In `Disciplines` publications replace a key's clock, as the comment at runtime-test-wasm.cc:805 has it for
  stores ("store thread clock into sync_clocks_"). The hook joins, so the module is a remark. Where
  publications replace, happens-before is cut accordingly, and no run has a false report against the uncut
  relation exactly when every operation that replaces a clock joins it first.
- Clocks count without bound in runs; `VClock` wraps around at 64 bits. `RunsAgree` and `NextAgrees`
  show that the two make no difference until a run has about 2^64 events.
- `offset + i` in `RecordAccess` cannot wrap around, because the loop ends at the first byte out of
  range.
- A critical section of the futex is one step. What the isolate's thread does without the lock after
  a timeout or in a resolve task is one step a node, interleaved with everything else. Time is
  whatever a step says has elapsed; a condition variable may wake up at any time.
- An isolate's tasks run one at a time in its own thread while it lives, and it is torn down when that
  thread is neither settling waiters nor waiting itself.
- A backing store expires, a promise is collected and a permission change fails whenever a step says
  so. The node addresses of asynchronous waiters are never used twice within a run, so that a stale
  one would show.
- Each atomic operation is sequentially consistent. `compare_exchange_weak` may fail spuriously.
- `RoundUpToPageSize` and `SetPermissions` are not part of this model beyond rounding up to whole
  pages and granting or refusing the range.

## What the proofs found

- A thread's read evicts its own earlier write from the shadow, so a later read by another thread
  that races with that write only is silent (`MissedWriteBehindRead`). Completeness is therefore in terms of
  any earlier access for writes (`WrittenByteExact`, `FirstRaceReported`), and of each thread's latest
  access to the byte for reads (`ByteExact`, `FirstReportExact`).
- Sending a message does not tick, so the receiver's clock covers what the sender does next: a race with
  the sender's accesses between the message and the sender's next release is silent (`MissedAfterSend`).
  The same goes for creating a thread. Clocks characterise happens-before in every run, and the first racing
  write of every run is found, if and only if every release ticks (`CharacterisesExactlyWhenAllTick`,
  `FindsFirstRacesExactlyWhenAllTick`). With the hooks as they are both hold for accesses before which
  their thread has ticked since its last message (`AccessesFresh`, `HooksLeakBySending`), so for all of a
  program that sends none (`FirstRaceWithoutMessages`, `TracedRunsFindFirstRace`).
- The comment at runtime-test-wasm.cc:822-824 fears false positives of stores that only release, because a
  prior writer's clock would be dropped. The hook it calls joins, so nothing is dropped: without acquiring,
  a store makes no false report (`NoFalseReports`). Acquiring as well hides true races
  (`StoreAsRmwHidesRace`); `FirstReportSurvives` says exactly which first reports are left.
- A reader's unlock publishes nothing (web_tsan.cc:415-418), so as far as the mutex hooks go a writer that
  waited for a reader is reported against the reader's read (`ReaderReported`). Of accesses made under a
  working lock nothing else is reported (`GuardedReports`), and nothing at all if it is a mutex
  (`MutexedIsSilent`).
- The comment in `uint64_to_float32_wrapper` calls integers spanning up to 25 bits exact. Those
  spanning exactly 25 are ties and never exact (`PathMissesTies`, `TieOffThePath`). The same comment
  gives the encoded exponent as the actual one minus 127; it is the actual one plus 127, and the code
  is right because the additional subtraction of 2 and the wrap-around at 8 bits make up for it
  (`MultiplierExact`).
- A shrink whose permission change fails leaves the length as it was but has zeroed the bytes it was
  to cut off (`ResizeContents`).
- Bulk accesses longer than 64 bytes are sampled from the front: fewer bytes than there are samples
  remain unsampled behind the last stride (`SampleRange`).
- A wake-up that finds a waiter whose backing store is gone and that has no timeout ends there, even
  if waiters it could wake stand behind it (`WakeIsExact`).

## Model

| member | source | states |
|---|---|---|
| Clocks.VClock.Get | tests/web_tsan_test.cc:39 | reads one component |
| Clocks.VClock.Set | tests/web_tsan_test.cc:40 | changes one component and no other |
| Clocks.VClock.Increment | tests/web_tsan_test.cc:41 | advances one component in 64-bit arithmetic, wrapping around |
| Clocks.VClock.HappensBefore | tests/web_tsan_test.cc:43-48 | answers exactly the pointwise order |
| Clocks.VClock.JoinWith | tests/web_tsan_test.cc:50-54 | the in-place loop computes the pointwise maximum, also when joining a clock with itself |
| Clocks.JoinIsLeastUpperBound | tests/web_tsan_test.cc:43-54 | the join is the least clock above both |
| Shadow.ShadowBuffer.constructor | tests/web_tsan_test.cc:80-83 | a new buffer has two invalid cells for every byte |
| Shadow.ShadowBuffer.ScanByte | tests/web_tsan_test.cc:93-111 | finds a racing cell of a byte exactly when there is one, the lower-numbered first |
| Shadow.ShadowBuffer.RecordAccess | tests/web_tsan_test.cc:85-125 | the loop over bytes and cells computes `Record`: verdict, report and the whole new shadow, recording up to and including the first racing byte and nothing after it |
| Shadow.RecordReportsFirstRace | tests/web_tsan_test.cc:88-118 | a report is made exactly when some in-range byte has a racing cell; it names the first such byte and that cell truthfully |
| Shadow.RecordedUptoReport | tests/web_tsan_test.cc:85-125 | what is recorded is every byte in range if there is no report, and otherwise those up to the byte reported |
| Hooks.WebTSan.constructor | patches/chromium/new-files/third_party/blink/renderer/core/tsan/web_tsan.cc:153-155 | no thread has a clock and nothing is published |
| Hooks.WebTSan.Acquire | patches/chromium/new-files/third_party/blink/renderer/core/tsan/web_tsan.cc:336-349 | takes the detector's step for a load: an unknown address changes nothing |
| Hooks.WebTSan.Release | patches/chromium/new-files/third_party/blink/renderer/core/tsan/web_tsan.cc:351-364 | takes the step for a store: joins into the address's clock, then ticks |
| Hooks.WebTSan.OnAtomicsWaitComplete | patches/chromium/new-files/third_party/blink/renderer/core/tsan/web_tsan_hooks.h:91-95 | takes the step for a completed wait |
| Hooks.WebTSan.OnAtomicsNotify | patches/chromium/new-files/third_party/blink/renderer/core/tsan/web_tsan_hooks.h:98-102 | takes the step for a notification |
| Hooks.WebTSan.OnAtomicsStore | patches/chromium/new-files/third_party/blink/renderer/core/tsan/web_tsan_hooks.h:105-109 | takes the step for a store |
| Hooks.WebTSan.OnAtomicsLoad | patches/chromium/new-files/third_party/blink/renderer/core/tsan/web_tsan_hooks.h:112-116 | takes the step for a load |
| Hooks.WebTSan.OnAtomicsRMW | patches/chromium/new-files/third_party/blink/renderer/core/tsan/web_tsan_hooks.h:120-125 | its two halves together take the step for a read-modify-write |
| Hooks.WebTSan.MutexCreate | patches/chromium/new-files/third_party/blink/renderer/core/tsan/web_tsan.cc:370-377 | takes the step that erases what was published at the address |
| Hooks.WebTSan.MutexDestroy | patches/chromium/new-files/third_party/blink/renderer/core/tsan/web_tsan.cc:379-383 | takes the same step |
| Hooks.WebTSan.MutexPostLock | patches/chromium/new-files/third_party/blink/renderer/core/tsan/web_tsan.cc:389-396 | takes the step for a lock; a thread id out of range does nothing |
| Hooks.WebTSan.MutexUnlock | patches/chromium/new-files/third_party/blink/renderer/core/tsan/web_tsan.cc:398-404 | takes the step for an unlock; a thread id out of range does nothing |
| Hooks.WebTSan.MutexReadLock | patches/chromium/new-files/third_party/blink/renderer/core/tsan/web_tsan.cc:406-413 | takes the step for a reader's lock; a thread id out of range does nothing |
| Hooks.WebTSan.MutexReadUnlock | patches/chromium/new-files/third_party/blink/renderer/core/tsan/web_tsan.cc:415-418 | takes the step for a reader's unlock, which changes nothing |
| Hooks.WebTSan.HappensBefore | patches/chromium/new-files/third_party/blink/renderer/core/tsan/web_tsan.cc:452-463 | takes the step for a message sent, under an id nothing was published under, without ticking; 0 only when disabled |
| Hooks.WebTSan.HappensAfter | patches/chromium/new-files/third_party/blink/renderer/core/tsan/web_tsan.cc:465-478 | takes the step for a message received, after which it cannot be received again; an unknown id changes nothing |
| Hooks.WebTSan.ThreadJoin | patches/chromium/new-files/third_party/blink/renderer/core/tsan/web_tsan.cc:424-430 | the joiner learns what the child knows and nothing else changes; thread ids out of range do nothing |
| Hooks.WebTSan.ThreadAbsorb | patches/chromium/new-files/third_party/blink/renderer/core/tsan/web_tsan.cc:440-446 | so does the destination of the source; absorbing oneself changes nothing |
| Hooks.ToldByMessage | patches/chromium/new-files/third_party/blink/renderer/core/tsan/web_tsan.cc:424-446 | which is what a message from the one to the other does |
| Hooks.CreationIsMessage | patches/chromium/new-files/third_party/blink/renderer/core/tsan/web_tsan.cc:186-219 | in any run, a thread that has done nothing and receives a message from another has the clock its creation by the other gives it |
| Causality.OwnerLeadsAlways | patches/chromium/new-files/third_party/blink/renderer/core/tsan/web_tsan.cc:336-364 | in every run, whichever operations tick, nobody is ahead of a thread on its own component |
| Causality.LevelExactly | patches/chromium/new-files/third_party/blink/renderer/core/tsan/web_tsan.cc:351-364 | another thread is level with it there if and only if a release of it that it has not ticked after reaches that thread; otherwise strictly behind |
| Causality.RunsAgree | patches/chromium/new-files/third_party/blink/renderer/core/tsan/web_tsan.cc:336-478 | a run that counts in 64 bits goes through the same states as one that counts without bound while it has less than about 2^64 events |
| Causality.NextAgrees | patches/chromium/new-files/third_party/blink/renderer/core/tsan/web_tsan.cc:336-478 | and makes the same reports |
| Detector.HappensBeforeTransitive | tests/web_tsan_test.cc:326-341 | happens-before, defined without clocks, is transitive |
| Detector.HappensBeforeLeast | patches/chromium/new-files/third_party/blink/renderer/core/tsan/web_tsan.cc:336-478 | it is contained in every transitive relation that has the program-order and synchronizes-with edges |
| Detector.ErasedIsForgotten | patches/chromium/new-files/third_party/blink/renderer/core/tsan/web_tsan.cc:370-383 | after a mutex is created or destroyed or a message received, nothing published to the key before is there, or synchronizes with a later acquire |
| Causality.ReachedIsCovered | patches/chromium/new-files/third_party/blink/renderer/core/tsan/web_tsan.cc:336-478 | whichever operations tick, a clock covers every event that happens before its thread's point |
| Causality.CoveredExactly | patches/chromium/new-files/third_party/blink/renderer/core/tsan/web_tsan.cc:336-478 | for every event, whichever operations tick: it has if and only if the event happens before that point, or a release of the same thread in the same epoch before the event does |
| Causality.ClocksCharacteriseHappensBefore | patches/chromium/new-files/third_party/blink/renderer/core/tsan/web_tsan.cc:351-364 | in every reachable state, a thread's component for the issuer of an event has reached the event's epoch if and only if the event happens before that thread's point, for every event before which its thread has ticked since it last released without |
| Causality.AccessOrder | patches/chromium/new-files/third_party/blink/renderer/core/tsan/web_tsan.cc:79-80 | the test of the shadow scan, exactly: an access's clock has reached the epoch of an earlier event if and only if the event happens before it, or a release that leaked the event's epoch does |
| Ticking.CharacterisesExactlyWhenAllTick | patches/chromium/new-files/third_party/blink/renderer/core/tsan/web_tsan.cc:351-364 | clocks characterise happens-before in every run of a configuration if and only if every release ticks in it |
| Ticking.FindsFirstRacesExactlyWhenAllTick | patches/chromium/new-files/third_party/blink/renderer/core/tsan/web_tsan.cc:351-364 | the first racing write of every run of a configuration is found if and only if every release ticks in it |
| Ticking.MissedWithoutTick | patches/chromium/new-files/third_party/blink/renderer/core/tsan/web_tsan.cc:452-463 | for every configuration with a release that does not tick, a silent run with a race and with a clock that covers an event not before its thread's point |
| Ticking.HooksLeakBySending | patches/chromium/new-files/third_party/blink/renderer/core/tsan/web_tsan.cc:452-463 | with the hooks, what gives an epoch away in advance is a message sent and nothing else |
| Ticking.MissedAfterSend | patches/chromium/new-files/third_party/blink/renderer/core/tsan/web_tsan.cc:452-478 | a race right after a message is silent, so with the hooks neither holds in every run |
| Ticking.FirstRaceWithoutMessages | patches/chromium/new-files/third_party/blink/renderer/core/tsan/web_tsan.cc:336-418 | before the first report, with one accessing thread per parity and no message sent so far, a write is reported if and only if it is in a data race |
| Races.ShadowExact | tests/web_tsan_test.cc:88-124 | after any run, the even cell of a byte holds the last access recorded there by a thread with an even id, the odd cell that of a thread with an odd id, with its epoch and kind, or nothing if there is none |
| Races.VerdictExact | patches/chromium/new-files/third_party/blink/renderer/core/tsan/web_tsan.cc:58-109 | an access is reported if and only if, at some in-range byte, one of those last accesses conflicts and is not covered by its thread's clock |
| Races.VerdictInHappensBefore | patches/chromium/new-files/third_party/blink/renderer/core/tsan/web_tsan.cc:58-109 | the same without clocks, for every run: if and only if one of those last accesses is in a data race with it that no release hides |
| Races.NoFalseReports | patches/chromium/new-files/third_party/blink/renderer/core/tsan/web_tsan.cc:58-109 | in every run, whichever operations tick, a report names an earlier recorded access by another thread to the same byte, both truthfully, one of the two writes, and the earlier one does not happen before the later |
| Races.ReportIsFirst | patches/chromium/new-files/third_party/blink/renderer/core/tsan/web_tsan.cc:63-105 | it is of the first byte at which a remembered access is exposed, and there of the even thread's if both are |
| Disciplines.PublicationArrives | patches/v8/modified-files/src/runtime/runtime-test-wasm.cc:802-824 | where whatever replaces a key's clock also acquires it, each publication happens before every later acquire that no erasure parts it from |
| Disciplines.RelationsCoincide | patches/v8/modified-files/src/runtime/runtime-test-wasm.cc:802-824 | on runs where that is so, happens-before is the relation in which nothing is ever replaced |
| Disciplines.FirstUncutRaceReported | patches/chromium/new-files/third_party/blink/renderer/core/tsan/web_tsan.cc:58-109 | first-race completeness against that relation, under the same conditions; an equivalence where nothing is lost |
| Races.ByteExact | patches/chromium/new-files/third_party/blink/renderer/core/tsan/web_tsan.cc:63-105 | byte by byte: if all accesses to a byte so far were recorded there, by one thread of each parity, the byte races with an access if and only if the access is in a visible race with some thread's latest access to it, whatever happens at other bytes |
| Races.WrittenByteExact | patches/chromium/new-files/third_party/blink/renderer/core/tsan/web_tsan.cc:63-105 | and with a write if and only if the write is in a visible race with any earlier access to it |
| Races.FirstReportExact | patches/chromium/new-files/third_party/blink/renderer/core/tsan/web_tsan.cc:58-109 | before the first report, with one accessing thread per parity, an access is reported if and only if it is in a visible race (one no release hides) with some thread's latest access to one of its bytes |
| Races.FirstRaceReported | patches/chromium/new-files/third_party/blink/renderer/core/tsan/web_tsan.cc:58-109 | then a write is reported if and only if it is in a visible race with any earlier access to one of its in-range bytes, although only latest accesses are kept; and if and only if it is in any data race, where before each access its thread has ticked since it last released without |
| Locks.SectionsOrder | patches/chromium/new-files/third_party/blink/renderer/core/tsan/web_tsan.cc:389-418 | of two conflicting accesses in sections of a working lock, the first happens before the second, unless it is a reader's |
| Locks.GuardedReports | patches/chromium/new-files/third_party/blink/renderer/core/tsan/web_tsan.cc:389-418 | a report at a byte accessed only in sections of one lock is of a write and names a reader's read |
| Locks.MutexedIsSilent | patches/chromium/new-files/third_party/blink/renderer/core/tsan/web_tsan.cc:389-404 | an access to bytes that are accessed only in sections of one mutex is never reported, in any run |
| Locks.FirstGuardedReportExact | patches/chromium/new-files/third_party/blink/renderer/core/tsan/web_tsan.cc:389-418 | up to the first report, a write to bytes accessed in sections of one lock is reported if and only if it is in a visible race with a reader's read |
| Locks.ReaderReported | patches/chromium/new-files/third_party/blink/renderer/core/tsan/web_tsan.cc:415-418 | a run in which a read inside a reader's section is reported against the write of a writer that waited for it |
| StoreAsRmw.RecordMonotone | tests/web_tsan_test.cc:96-122 | an access silent under a clock is silent, and recorded alike, under a larger clock with the same own component |
| StoreAsRmw.StoreAsRmwAddsNoReports | patches/v8/modified-files/src/runtime/runtime-test-wasm.cc:800-828 | any run silent with release-only stores is silent with stores that acquire and release |
| StoreAsRmw.FirstReportSurvives | patches/v8/modified-files/src/runtime/runtime-test-wasm.cc:822-828 | the converse, exactly: up to the first report, an access is reported with stores that acquire and release if and only if one of the accesses it is reported against with release-only stores is still in a visible race |
| StoreAsRmw.AsRmwOrdersMore | patches/v8/modified-files/src/runtime/runtime-test-wasm.cc:822-828 | acquiring only adds to happens-before |
| Limits.StoreAsRmwHidesRace | patches/v8/modified-files/src/runtime/runtime-test-wasm.cc:822-828 | with the hooks, a run in which release-only stores report a data race and stores that acquire and release are silent |
| WasmHooks.TracedRunsAreSound | patches/v8/modified-files/src/runtime/runtime-test-wasm.cc:800-839 | in a run all of whose synchronizations come from traced operations, every one acquires, and every report is justified against the relation that knows nothing of replacing, whatever the hooks replace |
| WasmHooks.TracedRunsFindFirstRace | patches/v8/modified-files/src/runtime/runtime-test-wasm.cc:800-828 | in such a run with the hooks, before the first report and with one accessing thread per parity, a write is reported if and only if it is in a data race |
| WasmHooks.LocationTotallyOrdered | patches/v8/modified-files/src/runtime/runtime-test-wasm.cc:817-829 | on a location where every operation acquires, each release happens before every later operation, even if publications replace one another |
| WasmHooks.SampleRange | patches/v8/modified-files/src/wasm/wasm-external-refs.cc:747-755 | the samples are distinct, evenly spaced, within the range, all of it up to 64 bytes, and leave fewer bytes than samples behind the last stride; the guard in the loop never fires |
| WasmHooks.SamplingAddsNoReports | patches/v8/modified-files/src/wasm/wasm-external-refs.cc:733-756 | if the sampled accesses report anything, one access to the whole range would too; if every byte is sampled the two agree |
| Limits.MissedByEviction | tests/web_tsan_test.cc:120-122 | with two threads of one parity a race goes unreported |
| Limits.MissedWriteBehindRead | tests/web_tsan_test.cc:120-122 | a read that races with a write hidden by its thread's later read goes unreported |
| WaitQueues.PlanExact | patches/v8/modified-files/src/execution/futex-emulation.cc:702-767 | a wake-up reaches a waiter exactly when it is wakeable, no waiter to be cleaned up stands before it and fewer wakeable ones than the budget do; it cleans up exactly the first waiter of the other kind within the budget |
| WaitQueues.PlanCount | patches/v8/modified-files/src/execution/futex-emulation.cc:686-770 | with no waiter to be cleaned up, it wakes min(budget, wakeable) waiters, all of them for the largest budget |
| FutexWaitLists.FutexWaitList.constructor | patches/v8/modified-files/src/execution/futex-emulation.cc:31 | a new wait list has no nodes |
| FutexWaitLists.FutexWaitList.NewNode | patches/v8/modified-files/src/execution/futex-emulation.cc:540-552 | a new node at an unused address is unlinked and changes no list |
| FutexWaitLists.FutexWaitList.WaitAsync | patches/v8/modified-files/src/execution/futex-emulation.cc:573-615 | the critical section: unequal and zero-timeout waits change nothing; any other creates a node with its contents and queues it last at its location |
| FutexWaitLists.FutexWaitList.EnterWait | patches/v8/modified-files/src/execution/futex-emulation.cc:456-458 | a synchronous wait queues the isolate's node, waiting, at its location |
| FutexWaitLists.FutexWaitList.LeaveWait | patches/v8/modified-files/src/execution/futex-emulation.cc:525-526 | and takes it out again, unlinked and not waiting |
| FutexWaitLists.FutexWaitList.AddNode | patches/v8/modified-files/src/execution/futex-emulation.cc:220-232 | keeps every list well linked and appends the node to its location's queue, changing no other |
| FutexWaitLists.FutexWaitList.RemoveNode | patches/v8/modified-files/src/execution/futex-emulation.cc:234-269 | keeps every list well linked, takes the node out of its location's queue, erases the queue with its last node and leaves the node unlinked |
| FutexWaitLists.FutexWaitList.NotifyAsyncWaiter | patches/v8/modified-files/src/execution/futex-emulation.cc:186-218 | moves the node from its location's queue to the end of its isolate's, clears its deadline, posts one task exactly if that queue was empty, and leaves the node last |
| FutexWaitLists.FutexWaitList.Turn | patches/v8/modified-files/src/execution/futex-emulation.cc:703-767 | at every turn of the loop the node stood on is live and on the location's list, and the next one read is the next of the original queue or none: the traversal never crosses into an isolate's list |
| FutexWaitLists.FutexWaitList.Visit | patches/v8/modified-files/src/execution/futex-emulation.cc:704-766 | one turn, by the node's fields: a waiter not waiting is passed over, one that is synchronous or whose store is alive is woken, one with neither store nor timeout is cleaned up and ends the traversal |
| FutexWaitLists.FutexWaitList.Wake | patches/v8/modified-files/src/execution/futex-emulation.cc:686-770 | the loop over linked nodes, which relinks the node it stands on, computes exactly the wake-up of the queue, contents, queues, posted tasks and count, and that is, field by field, what `WakeIsExact` and `WakeOldest` say |
| FutexWakes.WakeIsExact | patches/v8/modified-files/src/execution/futex-emulation.cc:698-770 | a waiter is woken if and only if it is waiting, is synchronous or its store alive, no waiter with neither store nor timeout stands before it and fewer wakeable ones than asked for; the fields of every node afterwards; the count is the number of these |
| FutexWakes.WakeOldest | patches/v8/modified-files/src/execution/futex-emulation.cc:698-770 | if no asynchronous waiter there has lost its store, waiting ends for exactly the oldest ones, as many as asked for or all if fewer wait, their number is returned and no other node changes |
| FutexSettling.AllSettle | patches/v8/modified-files/src/execution/futex-emulation.cc:841-888 | settling a list resolves, in order, the promise of each waiter not marked for cleanup and not collected, "timed-out" for those that still have a deadline and "ok" for the others, and nothing else |
| FutexWaitLists.FutexWaitList.DeleteAsyncWaiterNode | patches/v8/modified-files/src/execution/futex-emulation.cc:53-65 | links the neighbours to each other, deletes the node's fields and returns its successor |
| FutexWaitLists.FutexWaitList.DeleteNodesForIsolate | patches/v8/modified-files/src/execution/futex-emulation.cc:67-88 | filters the location's queue by owner, deletes exactly the isolate's nodes on it, and stores the new ends or erases the queue |
| FutexWaitLists.FutexWaitList.IsolateDeinit | patches/v8/modified-files/src/execution/futex-emulation.cc:961-1002 | keeps every list well linked and filters all queues by owner, in whatever order the locations come |
| FutexWaitLists.FutexWaitList.ResolveAsyncWaiterPromises | patches/v8/modified-files/src/execution/futex-emulation.cc:890-932 | takes the isolate's queue, resolves in order exactly the promises `AllSettle` says, each with its outcome, and deletes the nodes, touching no other queue |
| FutexWaitLists.FutexWaitList.HandleAsyncWaiterTimeout | patches/v8/modified-files/src/execution/futex-emulation.cc:934-959 | unlinks and deletes a waiter still waiting and resolves its promise, unless collected or marked for cleanup; otherwise only forgets the task |
| FutexMemory.Appended | patches/v8/modified-files/src/execution/futex-emulation.cc:223-229 | appending pointer by pointer keeps what `Verify` demands of every list |
| FutexMemory.Removed | patches/v8/modified-files/src/execution/futex-emulation.cc:235-266 | so does unlinking, in each of its four cases |
| FutexTeardown.Deleted | patches/v8/modified-files/src/execution/futex-emulation.cc:53-65 | so does deleting in the middle of a list whose stored ends are not up to date yet |
| FutexTeardown.SweepNext | patches/v8/modified-files/src/execution/futex-emulation.cc:969-984 | filtering one more queue is filtering all of them, whatever came before |
| FutexSteps.KeepsStep | patches/v8/modified-files/src/execution/futex-emulation.cc:186-1002 | every step of every isolate keeps the invariant: each asynchronous waiter in exactly one place, each synchronous one queued exactly while its thread waits, tasks and timers in step, no fault |
| FutexSteps.DeinitExact | patches/v8/modified-files/src/execution/futex-emulation.cc:961-1002 | at a reachable state, teardown removes exactly the asynchronous nodes of the isolate from memory and from every list, and leaves the others in their order |
| FutexResults.WakeKeepsOrder | patches/v8/modified-files/src/execution/futex-emulation.cc:698-767 | after a wake-up the queue has the waiters that stayed in their order, each isolate's list has gained its own in that order, and no other location's queue has changed |
| FutexResults.WakeReaches | patches/v8/modified-files/src/execution/futex-emulation.cc:703-738 | which waiters a wake-up reaches, exactly and by their fields, oldest first, none of which anything had reached before |
| FutexResults.WakeCountsOnce | patches/v8/modified-files/src/execution/futex-emulation.cc:694-770 | the number returned is the number of waiters it was the first to reach, the smaller of budget and wakeable waiters if none is to be cleaned up; none is counted twice although woken synchronous waiters stay queued |
| FutexTasks.TimeoutAsOne | patches/v8/modified-files/src/execution/futex-emulation.cc:934-959 | the steps of a timeout together do what `HandleAsyncWaiterTimeout` promises, and resolve "timed-out" unless the promise was collected |
| FutexTasks.ResolveAsOne | patches/v8/modified-files/src/execution/futex-emulation.cc:890-932 | the steps of a resolve task together do what `ResolveAsyncWaiterPromises` promises: they add to the log, in order, the "ok" of exactly the waiters on the list that a wake-up counted and whose promise was not collected |
| FutexHistories.RunKeeps | patches/v8/modified-files/src/execution/futex-emulation.cc:1051-1087 | the invariant holds in every reachable state of every run |
| FutexHistories.PromisesSettleOnce | patches/v8/modified-files/src/execution/futex-emulation.cc:841-959 | in any run a promise is resolved at most once, "ok" only if a wake-up was the first to reach its waiter, "timed-out" only if its own timeout task was |
| FutexHistories.FateStays | patches/v8/modified-files/src/execution/futex-emulation.cc:199-201 | what reached an asynchronous waiter first is never replaced |
| FutexHistories.DiscardedNeverSettles | patches/v8/modified-files/src/execution/futex-emulation.cc:859-864 | a waiter marked for cleanup is not resolved, before or after |
| FutexHistories.TimersPointToLiveNodes | patches/v8/modified-files/src/execution/futex-emulation.cc:925-930 | in a live isolate, an uncancelled timeout task exists exactly for the live waiters that hold its id |
| FutexHistories.ResolveTaskPending | patches/v8/modified-files/src/execution/futex-emulation.cc:202-217 | while an isolate lives, exactly one resolve task is pending if its list is non-empty and none otherwise, so the task's lookup never misses |
| FutexHistories.WokenIsNotStranded | patches/v8/modified-files/src/execution/futex-emulation.cc:199-217 | a woken asynchronous waiter not yet deleted is in its isolate's hand or on its list with a task pending |
| FutexHistories.OneListEach | patches/v8/modified-files/src/execution/futex-emulation.cc:1051-1087 | a node is on at most one list and there only once |
| FutexHistories.DeadIsolatesLeaveNothing | patches/v8/modified-files/src/execution/futex-emulation.cc:961-1002 | no asynchronous waiter outlives its isolate |
| FutexHistories.CountedReturns | patches/v8/modified-files/src/execution/futex-emulation.cc:443-528 | a synchronous waiter that a wake-up counted inside its wait returns "ok" from it, or an exception that an interrupt threw after the count, and nothing else, for all interleavings |
| FutexHistories.ReturnsHaveCause | patches/v8/modified-files/src/execution/futex-emulation.cc:450-528 | every result a thread has was returned by a step with its cause: "not-equal" by an unequal value with nothing queued, "timed-out" by an elapsed timeout of a waiter not counted, "ok" by a count, an exception by an interrupt that threw |
| FutexHistories.ReturnsAgree | patches/v8/modified-files/src/execution/futex-emulation.cc:498-528 | "ok" is returned only by a waiter that was counted, "timed-out" only by one that was not |
| FutexHistories.InterruptComesFirst | patches/v8/modified-files/src/execution/futex-emulation.cc:461-496 | no interrupt is dropped: once one is pending the thread returns neither "ok" nor "timed-out" before it has turned to its interrupts, wherever in the wait the interrupt came |
| FutexHistories.IdleNodeReusable | patches/v8/modified-files/src/execution/futex-emulation.cc:525-527 | outside a wait the isolate's node is unlinked and not waiting, whichever way the last wait ended |
| FutexHistories.UnequalIsNeverQueued | patches/v8/modified-files/src/execution/futex-emulation.cc:450-454 | a thread that has "not-equal" saw an unequal value, and the step that returned it changed no node, queue or task |
| FutexOutcomes.TimeoutExact | patches/v8/modified-files/src/execution/futex-emulation.cc:934-959 | a timeout task times its waiter out if and only if nothing has reached it |
| FutexOutcomes.SettleExact | patches/v8/modified-files/src/execution/futex-emulation.cc:841-888 | settling a waiter resolves exactly "ok" if a wake-up was the first to reach it, "timed-out" if its timeout was, and nothing if it was discarded or its promise collected; the waiter is gone |
| FutexOutcomes.SettledIsLogged | patches/v8/modified-files/src/execution/futex-emulation.cc:841-888 | in any run, a waiter reached and settled with its promise still there has that result in the log ever after |
| FutexOutcomes.GoneWasSettled | patches/v8/modified-files/src/execution/futex-emulation.cc:890-1002 | in any run, an asynchronous waiter that is gone was settled by some step, unless its isolate was torn down |
| FutexOutcomes.NobodyIsStuck | patches/v8/modified-files/src/execution/futex-emulation.cc:186-218 | at every moment, a live isolate that is not settling has a step that goes on with each of its waiters that is woken or has a timeout |
| FutexOutcomes.OwnStepExact | patches/v8/modified-files/src/execution/futex-emulation.cc:450-528 | what each step of a thread inside a synchronous wait makes of it, exactly: "not-equal", an exception that an interrupt threw, turning to a pending interrupt, "ok" if counted, "timed-out" if not counted and its timeout has elapsed, else waiting on |
| FutexOutcomes.CountedReturnsNext | patches/v8/modified-files/src/execution/futex-emulation.cc:498-502 | in any run, the thread of a waiter counted inside its wait returns "ok" at its next step, unless an interrupt is pending or throws |
| FutexOutcomes.WaitAsyncExact | patches/v8/modified-files/src/execution/futex-emulation.cc:573-615 | an equal value and a timeout that is not zero queue the new waiter last at its location, with a timeout task exactly if it has a timeout; otherwise nothing happens |
| FutexOutcomes.NewWaiterIsWoken | patches/v8/modified-files/src/execution/futex-emulation.cc:573-615 | a wake-up of everybody at the location waited on reaches a new asynchronous waiter, if none before it has neither store nor timeout |
| FutexOutcomes.NewSyncWaiterIsWoken | patches/v8/modified-files/src/execution/futex-emulation.cc:456-458 | and a new synchronous one |
| WasmGrow.KeepsStep | patches/v8/modified-files/src/objects/backing-store.cc:546-556 | every step of every thread keeps the stated invariants and never shrinks the memory or its writable pages |
| WasmGrow.LoadExact | patches/v8/modified-files/src/objects/backing-store.cc:567-572 | when a call returns at its load, exactly: with the length if it asks for nothing, and if what it asks for could never fit |
| WasmGrow.PermitExact | patches/v8/modified-files/src/objects/backing-store.cc:575-588 | when it gives up before its exchange, exactly: over the maximum, or refused permission; otherwise all the pages it asks for are writable |
| WasmGrow.ExchangeExact | patches/v8/modified-files/src/objects/backing-store.cc:590-595 | an exchange grows the memory by the delta and returns if and only if the length is what the call last saw and it does not fail spuriously; otherwise the call goes on with the length it finds |
| WasmGrow.GrowsAlone | patches/v8/modified-files/src/objects/backing-store.cc:561-598 | a call that fits, is granted permission and that nobody interferes with grows the memory |
| WasmGrow.LengthIsSafe | patches/v8/modified-files/src/objects/backing-store.cc:546-556 | the length is monotone, page-aligned, within capacity and never above the writable pages, which are a prefix |
| WasmGrow.GrowthMoves | patches/v8/modified-files/src/objects/backing-store.cc:590-598 | a call by a non-zero delta returns that it grew the memory at the very step that makes the length go from the pages it returns to so many more, and at no other step does the length change |
| WasmGrow.GrowthsDisjoint | patches/v8/modified-files/src/objects/backing-store.cc:542-544 | of two different such returns in a run, the intervals [returned, returned + delta) are disjoint and in the order of the returns, so the values differ |
| WasmGrow.GrowthsCover | patches/v8/modified-files/src/objects/backing-store.cc:542-544 | at any moment a page is in one of the intervals returned so far if and only if it lies between the initial and the current length |
| WasmGrow.CallersDiffer | patches/v8/modified-files/src/objects/backing-store.cc:542-544 | two threads that have been told that they grew the memory hold disjoint intervals |
| WasmGrow.ReturnsAreTrue | patches/v8/modified-files/src/objects/backing-store.cc:566-598 | whatever a thread has been told, at any later time: it was true when it was told, and its cause is a step of that very call; a growth by its own exchange of its own delta, a zero delta's length by its load, too large a delta, an over-maximum length, or a refused permission change |
| WasmGrow.RefusalStands | patches/v8/modified-files/src/objects/backing-store.cc:578-579 | an over-maximum refusal holds when the call returns and ever after |
| WasmGrow.RetriesBounded | patches/v8/modified-files/src/objects/backing-store.cc:574-596 | in the steps of any call still looping, the exchanges that were not spurious failures are at most as many as pages were added since its load, so at most as many as were left |
| SharedGrow.LengthIsCommitted | patches/v8/modified-files/src/objects/backing-store.cc:721-746 | the length never exceeds the committed memory, at any step of any run |
| SharedGrow.SuccessLinearizes | patches/v8/modified-files/src/objects/backing-store.cc:722-747 | a success means that at some instant not before the call's load and not after its return the length was exactly the request: made so by the call's own exchange, or found so by its own load or failed exchange |
| SharedGrow.RaceIsLost | patches/v8/modified-files/src/objects/backing-store.cc:723-727 | a race means that between the caller's check and the return another thread's exchange took the length past the request, and past it it stays |
| SharedGrow.FailsForCause | patches/v8/modified-files/src/objects/backing-store.cc:723-738 | a failure, whenever looked at, was returned by a refused permission change of that call, for a request larger than the length it had last seen |
| SharedGrow.OnlyExchangesGrow | patches/v8/modified-files/src/objects/backing-store.cc:740-745 | the length moves by exchanges only, each up to its caller's request, and that caller is told of success |
| SharedGrow.PermitExact | patches/v8/modified-files/src/objects/backing-store.cc:722-738 | what a call does about the length it last saw, exactly: race, success, failure, or permission with the memory committed |
| SharedGrow.ExchangeExact | patches/v8/modified-files/src/objects/backing-store.cc:741-745 | an exchange makes the length the request and succeeds if and only if the length is what the call last saw and it does not fail spuriously; otherwise the call goes on with the length it finds |
| SharedGrow.GrowsAlone | patches/v8/modified-files/src/objects/backing-store.cc:720-747 | a larger request that is granted permission and that nobody interferes with succeeds |
| Resize.ResizableStore.ResizeInPlace | patches/v8/modified-files/src/objects/backing-store.cc:636-698 | the new memory, length, permissions and result in all cases, keeping all reserved bytes beyond the length zero |
| Resize.ResizeContents | patches/v8/modified-files/src/objects/backing-store.cc:649-697 | a resize fails exactly when the permission change it needs is refused, which every growth and every shrink by a page needs; a success cuts the contents or extends them with zeros; a failed growth changes nothing; a failed shrink keeps the length and zeroes what it was to cut off |
| Resize.MemoryIsLastWritten | patches/v8/modified-files/src/objects/backing-store.cc:649-658 | after any operations every reserved byte holds the last value written since it was last cut off, or zero |
| Resize.GrowthShowsZeros | patches/v8/modified-files/src/objects/backing-store.cc:649-658 | a growth after any operations, failed ones included, shows zeros |
| FloatRounding.ToFloatIsNearestEven | patches/v8/modified-files/src/wasm/wasm-external-refs.cc:114-122 | rounding to the unit of the last place gives the closest float, the even one of two as close, carry into the next binade included |
| FloatRounding.NearestEvenUnique | patches/v8/modified-files/src/wasm/wasm-external-refs.cc:114-122 | the closest-float statement has one answer |
| FloatRounding.StickyBit | patches/v8/modified-files/src/wasm/wasm-external-refs.cc:123-125 | rounding the leading bits with the low one set rounds the whole integer, unless it is a tie with nothing behind |
| FloatRounding.MultiplierExact | patches/v8/modified-files/src/wasm/wasm-external-refs.cc:156-166 | the multiplier built from wrapped-around exponent bits is the power of two that undoes the shift |
| FloatRounding.ExtractionRounds | patches/v8/modified-files/src/wasm/wasm-external-refs.cc:139-169 | for every integer on the extraction path, the result is that integer rounded to nearest, ties to even |
| FloatRounding.PathMissesTies | patches/v8/modified-files/src/wasm/wasm-external-refs.cc:125-144 | the path is taken exactly by integers spanning more than 25 bits; of the others, exactly those spanning 25 are not floats |
| FloatRounding.TieOffThePath | patches/v8/modified-files/src/wasm/wasm-external-refs.cc:125-129 | 2^24 + 1 does not take the path and is not a float |
| ArrayFill.ArrayFill | patches/v8/modified-files/src/wasm/wasm-external-refs.cc:884-988 | setting eight bytes, doubling and the tail copy fill the range with the value and write nothing outside it, copying between disjoint regions only, without leaving 32-bit arithmetic |
| ArrayFill.FilledElements | patches/v8/modified-files/src/wasm/wasm-external-refs.cc:884-988 | in a filled range every element is the value |

## Left out

- ArrayFill: ranges of 2^30 bytes or more, where the doubled count would leave 32-bit arithmetic; reference elements and the write barrier.
- WaitSync, WaitSyncImpl: the waiting loop is modelled as steps on values and not as a method, because the lock is given up in the middle; what it does to the lists is `EnterWait` and `LeaveWait`.
- GrowWasmMemoryInPlace and GrowInPlace: modelled as steps on values and not as loops, because other threads run between the load and the exchange.
- The mutexes, the condition variables and the stripe locks of the shadow: a critical section is a step.
- Thread ids: their allocation, reuse and liveness, and with them `ThreadFinish`, `ThreadDestroy`, `ThreadDetach` and the orphan clock that a finished thread leaves to later ones.
- The shadow's pages, made when first touched; `ClearShadow` and `RemoveShadow`, which forget accesses.
- `MemoryAccess` beyond the recording: one announcement for every 8 bytes, a shadow made when its buffer is first accessed; suppression, reports' formatting and the reentrancy flags.
- Runs of 2^64 events and more, in which a clock wraps around.
- `WaitWasmManagedObject`, the `Wake` overload on managed objects and the counts for testing.
- The promise set of the native context, handles and garbage collection: a promise is unresolved, "ok", "timed-out" or collected.
- `GlobalBackingStoreRegistry`, allocation and copying of backing stores, Wasm stack switching.
- Builtins and runtime functions that only unwrap arguments; not every Atomics operation is hooked.
- Hardware memory ordering.
- The other wrappers of `wasm-external-refs.cc`: saturation, lanes, rotations and divisions are single-branch facts.
