# Gatos.Monitor in Dafny

A verified model of the core of `Gatos.Monitor`, an in-process health monitor
for .NET applications. The model covers four pieces:

- **Escalation** (`monitor.dfy`, `Monitor.cs`): the sampling state machine
  every monitor shares. Each tick is skipped while intensive mode is on.
  Otherwise a sample within the threshold resets the violation counter, and a
  violating sample increments it. The third violation in a row resets the
  counter, turns intensive mode on and starts an intensive sampling run, which
  clears intensive mode when it finishes.
- **Heap snapshots** (`leak_monitor.dfy`, `LeakMonitor.cs`): the snapshot
  constructor and `HeapSnapshot.Diff`.
  - The constructor groups the live objects of the heap by type name, sums
    their sizes, counts them, orders the groups by total size (heaviest first)
    and keeps the top `topTypes` in two dictionaries.
  - `Diff` builds per-type deltas over the three disjoint groups of types: in
    both snapshots, only in the baseline, only in the current one.
  - The leak monitor's intensive run takes three snapshots.
- **Allocation tally** (`alloc_monitor.dfy`, `AllocMonitor.cs`): allocation
  events are tallied into totals and a per-type dictionary. The monitor then
  reports the ten most-allocated types (most-allocated last) and the ten
  biggest heap types (biggest last), and resets. `ToMemoryUnits` chooses the
  unit a byte count is printed in.
- **Deadlock search** (`deadlock_monitor.dfy`, `DeadlockMonitor.cs`): a
  depth-first search of the wait-for graph from every thread. A thread waits
  on its blocking objects, and an object waits on its owners. The search uses
  a path-local visited set and a chain stack, and reports a deadlock when it
  reaches a thread that is already on the path.

`topk.dfy` holds the LINQ shape that both the leak and the allocation monitors
use: a stable `OrderByDescending`, `Take` and `Reverse`. `wrappers.dfy` holds
`Option`.

Each imperative piece of the source is a class with the source's fields and
methods, proved against pure specification functions:

- `Monitor`: `SampleCounter` is proved against `Tick`.
- `HeapSnapshot`: the constructor is proved against `SizeTable`/`CountTable`
  of `Query`, and `Diff` against `DiffTable`.
- `AllocMonitor`: proved against `Record` and `IsAllocationReport`.
- `DeadlockMonitor`: proved against `Search`, `Explore` and `AllReports`.

The properties the source promises are lemmas about those functions.

Where the design and the code differ, the model follows the code:

- The code keeps no global visited set, only the current path. A cycle is
  therefore reported once per path into it, from every thread on it
  (`Deadlocks.CrossedLocksReportedOncePerThread`) and from every thread waiting
  into it.
- `SampleIntensively` has no try/finally. A hook that throws leaves intensive
  mode on, and the monitor then skips every later tick
  (`Escalation.StuckInIntensiveMode`).
- The leak monitor takes its three snapshots and compares nothing: the
  comparison is a TODO, and `Diff` is never called. There is no forced
  collection before a snapshot and no all-pairs diff.
- Thresholds are not validated when a monitor is constructed.

## Model

| member | source | states |
|---|---|---|
| Escalation.Tick | Gatos.Monitor/Monitor.cs:49-74 | While intensive mode is on, a tick changes nothing and fires nothing. A sample within the threshold resets the counter to 0. Escalation fires iff a violation brings the counter to 3, and then leaves (0, intensive). Any other violation increments the counter. 0 <= counter < 3 is preserved. |
| Escalation.RunFromFresh | Gatos.Monitor/Monitor.cs:51-73 | From a fresh monitor, tick i fires iff it is the first tick that ends three violations in a row. Before that, the counter equals the number of trailing violations. After it, the state is (0, intensive). |
| Escalation.ScriptedRun | Gatos.Monitor/Monitor.cs:56-73 | The run V,V,N,V,V,V fires at the sixth tick and at no other. |
| Escalation.SingleFlight | Gatos.Monitor/Monitor.cs:51-62 | Without the intensive run finishing in between, at most one tick fires. |
| Escalation.FinishRearms | Gatos.Monitor/Monitor.cs:58-80 | Once escalation has fired, finishing the intensive run gives back exactly a fresh monitor: the counter is 0 and intensive mode is off. |
| Escalation.Monitor.constructor | Gatos.Monitor/Monitor.cs:37-42 | A new monitor has counter 0 and intensive mode off. |
| Escalation.Monitor.SampleCounter | Gatos.Monitor/Monitor.cs:49-74 | The new fields and the escalation flag are those `Tick` gives for `counterValue > counterThreshold`. A tick in intensive mode changes nothing, and an escalation leaves (0, intensive). |
| Escalation.Monitor.SampleIntensively | Gatos.Monitor/Monitor.cs:76-82 | When the hooks return, intensive mode is cleared and the counter is kept. When a hook throws, the line that clears the flag is skipped and nothing changes. |
| Escalation.StuckInIntensiveMode | Gatos.Monitor/Monitor.cs:51-52 | A monitor left in intensive mode skips every later tick: its state never changes and no tick fires. |
| TopK.SortDesc | Gatos.Monitor/LeakMonitor.cs:64 | `orderby … descending`: a permutation of the input, sorted by weight, heaviest first. |
| TopK.Take | Gatos.Monitor/LeakMonitor.cs:66 | `Take(n)`: the first min(n, length) elements, none when n <= 0. |
| TopK.Reverse | Gatos.Monitor/AllocMonitor.cs:49 | `Reverse()`: the same length, with element i taken from position length-1-i. |
| TopK.TopKeepsHeaviest | Gatos.Monitor/LeakMonitor.cs:59-66 | Sorting then taking k keeps min(k, n) elements of the input, heaviest first and with distinct keys. No dropped key is heavier than any kept one. |
| TopK.ReverseOfDescIsAsc | Gatos.Monitor/AllocMonitor.cs:49 | Reversing a heaviest-first list lists it heaviest last. |
| HeapSnapshots.LiveTypeNames | Gatos.Monitor/LeakMonitor.cs:59-63 | The group keys have no duplicates, and a name is a key iff some object that is neither untyped nor free has that type. |
| HeapSnapshots.Groups | Gatos.Monitor/LeakMonitor.cs:59-65 | The group-by gives one row per type name. A type has a row iff some typed, non-free object has it. Each row holds the total size and the number of that type's live objects. |
| HeapSnapshots.QueryIsTopTypes | Gatos.Monitor/LeakMonitor.cs:59-66 | The query keeps min(topTypes, number of live types) rows with distinct names, heaviest first. Each row holds its type's total size and count. No live type left out is heavier than a kept one. |
| HeapSnapshots.TableKeys | Gatos.Monitor/LeakMonitor.cs:66-70 | The size and count dictionaries filled by the `Add` loop have the same keys: the type names of the query rows. |
| HeapSnapshots.NextRowIsNew | Gatos.Monitor/LeakMonitor.cs:66-70 | No `Add` of the loop meets a key that is already present. |
| HeapSnapshots.TableSize | Gatos.Monitor/LeakMonitor.cs:66-70 | The dictionaries have one entry per query row. |
| HeapSnapshots.TablesHoldRows | Gatos.Monitor/LeakMonitor.cs:66-70 | Each row's type maps to that row's size and count. |
| HeapSnapshots.SnapshotTablesAreTopTypes | Gatos.Monitor/LeakMonitor.cs:57-71 | A snapshot's dictionaries hold the top types of the heap, by total size, with their sizes and counts. The two dictionaries have the same keys. |
| HeapSnapshots.HeapSnapshot.constructor | Gatos.Monitor/LeakMonitor.cs:57-71 | The `foreach` over the query fills exactly the query's size and count tables, so the snapshot holds the top types of the heap. |
| HeapSnapshots.HeapSnapshot.Empty | Gatos.Monitor/LeakMonitor.cs:105-107 | The private constructor: both dictionaries are empty. |
| HeapSnapshots.DiffTable | Gatos.Monitor/LeakMonitor.cs:73-103 | The keys of a diff are the union of both sides' keys. Each delta is current minus baseline, a missing side counting as 0. |
| HeapSnapshots.DiffWithItselfIsZero | Gatos.Monitor/LeakMonitor.cs:79-84 | Diffing a dictionary with itself gives the same keys, each with delta 0. |
| HeapSnapshots.DiffRoundTrip | Gatos.Monitor/LeakMonitor.cs:77-100 | For every type of either side, the baseline value plus the delta gives the current value. |
| HeapSnapshots.HeapSnapshot.Diff | Gatos.Monitor/LeakMonitor.cs:73-103 | The result's size and count dictionaries are `DiffTable` of the two snapshots' size and count dictionaries. |
| HeapSnapshots.HeapSnapshot.DiffTables | Gatos.Monitor/LeakMonitor.cs:75-102 | The three loops together leave in the two new dictionaries exactly the size and count diffs of the snapshots. |
| HeapSnapshots.HeapSnapshot.AddInBoth | Gatos.Monitor/LeakMonitor.cs:77-84 | The first loop adds current - baseline for each type in both snapshots, to both dictionaries, and never adds a key twice. |
| HeapSnapshots.HeapSnapshot.AddOnlyInBaseline | Gatos.Monitor/LeakMonitor.cs:86-92 | The second loop adds -baseline for each type only in the baseline, and never adds a key twice. |
| HeapSnapshots.HeapSnapshot.AddOnlyInCurrent | Gatos.Monitor/LeakMonitor.cs:94-100 | The third loop adds +current for each type only in the current snapshot, and never adds a key twice. |
| HeapSnapshots.TakeSnapshot | Gatos.Monitor/LeakMonitor.cs:36 | One snapshot of the heap holds the size and count tables of its top 20 types. |
| HeapSnapshots.OnIntensiveSamplingStart | Gatos.Monitor/LeakMonitor.cs:27-42 | Exactly `SnapshotCount` (3) new snapshots. Snapshot i holds the top 20 types of the heap as it is at the i-th snapshot. |
| HeapSnapshots.AsWrittenSnapshotLosesType | Gatos.Monitor/LeakMonitor.cs:52-70 | For a heap holding one live 100-byte `Foo`, the dictionary as written is empty, while the stored dictionary maps `Foo` to 100. |
| Allocations.Tally | Gatos.Monitor/AllocMonitor.cs:39-43 | After one allocation of type t, t is a key. Its count goes up by one (from 0 when new), and every other type's count is unchanged. |
| Allocations.TallyAddsOne | Gatos.Monitor/AllocMonitor.cs:36-43 | A tally adds exactly one to the sum of the per-type counts. |
| Allocations.RecordKeepsConsistent | Gatos.Monitor/AllocMonitor.cs:30-44 | Handling an event keeps the invariant: the per-type counts sum to the total number of allocations, and every count is at least 1. |
| Allocations.ReplayCountsEvents | Gatos.Monitor/AllocMonitor.cs:30-44 | From zero, after any stream of events, the fields hold three things. The first is the number of allocation ticks. The second is the sum of their amounts. The third is, per type, the number of its ticks, where a type is a key iff it had a tick. |
| Allocations.TopAllocatingTypes | Gatos.Monitor/AllocMonitor.cs:49 | The report has min(10, number of types) lines, one per type with its count, most-allocated last. No type left out has more allocations than a listed one. |
| Allocations.HeapBreakdownIsTopTen | Gatos.Monitor/AllocMonitor.cs:71-80 | The breakdown lists min(10, number of live types) distinct types, biggest last. Each listed type has a typed, non-free object and is shown with its total size. No live type left out is bigger than a listed one. |
| Allocations.AllocMonitor.constructor | Gatos.Monitor/AllocMonitor.cs:16-18 | The totals start at 0 and the dictionary starts empty. |
| Allocations.AllocMonitor.OnEventOccurred | Gatos.Monitor/AllocMonitor.cs:30-44 | A non-allocation event leaves the monitor unchanged. An allocation adds 1 to the count and exactly its amount to the bytes, and tallies its type. The count invariant is kept. |
| Allocations.AllocMonitor.OnIntensiveSamplingDone | Gatos.Monitor/AllocMonitor.cs:46-57 | Reports the totals and the top-10 report of the dictionary as they were, plus the heap breakdown. Then the totals are 0 and the dictionary is empty. |
| Allocations.ToMemoryUnits | Gatos.Monitor/AllocMonitor.cs:92-104 | Values below 1024 are printed as exact bytes, below 1024² in KB, below 1024³ in MB, and larger ones in GB. The amount times the unit gives back the value. |
| Allocations.ScaledAmountInRange | Gatos.Monitor/AllocMonitor.cs:92-104 | A scaled amount is at least 1, and in KB or MB it is below 1024. |
| Deadlocks.ManagedNames | Gatos.Monitor/DeadlockMonitor.cs:64-65 | One name per managed frame, in stack order: the managed frame at position k gives the name after those of the managed frames before it. No name comes from anything else. |
| Deadlocks.TopFrames | Gatos.Monitor/DeadlockMonitor.cs:63-66 | The first min(5, number of managed frames) managed frames' display strings, in stack order. |
| Deadlocks.SearchSound | Gatos.Monitor/DeadlockMonitor.cs:46-81 | From a chain that reaches the thread through the graph, every report extends the chain and is a deadlock. Thread and object entries alternate. Each object is blocking for the thread before it and owned by the thread after it. The closing thread owns the last object and is on the chain. |
| Deadlocks.ReportsAreDeadlocks | Gatos.Monitor/DeadlockMonitor.cs:39-81 | Every report of a top-level search from thread t is a deadlock whose chain starts at t. |
| Deadlocks.OwnerIsExplored | Gatos.Monitor/DeadlockMonitor.cs:69-77 | Every owner of every blocking object of a thread is explored, including several owners of one object. Each report found from that owner, one step down the path, is a report of the thread's search. |
| Deadlocks.SelfWaitIsReported | Gatos.Monitor/DeadlockMonitor.cs:51-74 | A thread blocked on an object it owns is reported as a one-thread deadlock. |
| Deadlocks.NotBlockedNoReport | Gatos.Monitor/DeadlockMonitor.cs:69-81 | A thread not on the path that has no blocking objects, or none with owners, reports nothing. |
| Deadlocks.CrossedLocksReportedOncePerThread | Gatos.Monitor/DeadlockMonitor.cs:39-42 | Two threads that each hold the lock the other waits for give two reports, one from each thread, each chain in push order. |
| Deadlocks.WaitingWithoutCycleNotReported | Gatos.Monitor/DeadlockMonitor.cs:46-81 | A thread waiting on a lock held by a thread that waits on nothing gives no report. |
| Deadlocks.SearchPath.constructor | Gatos.Monitor/DeadlockMonitor.cs:41 | Each top-level search starts from an empty visited set and an empty chain. |
| Deadlocks.DeadlockMonitor.constructor | Gatos.Monitor/DeadlockMonitor.cs:23-26 | No report has been written yet. |
| Deadlocks.DeadlockMonitor.FindDeadlocks | Gatos.Monitor/DeadlockMonitor.cs:33-44 | The reports are, in order, those of a search from each thread, each starting from a fresh path. |
| Deadlocks.DeadlockMonitor.FindDeadlockStartingFrom | Gatos.Monitor/DeadlockMonitor.cs:46-81 | A null thread does nothing. Otherwise the reports written are those `Search` gives, and on return the visited set and the chain are what they were on entry. |

## Left out

- Escalation.Monitor.SampleIntensively: does not call the start and done hooks. Each variant's hooks are modelled on their own (`HeapSnapshots.OnIntensiveSamplingStart`, `Allocations.AllocMonitor.OnIntensiveSamplingDone`), and whether one throws is the input `hookThrows`.
- Timers, `Task.Run`, the `volatile` flag and their interleavings: a tick, an intensive run and a sampling are sequential method calls.
- `PerformanceCounter.NextValue` and the float threshold comparison: the sampled value and the threshold are integers, compared with `>`.
- The trace lines: reports are returned or stored as values, and their text formatting is not modelled.
- ClrMD (attaching to the process, heap enumeration, `GetObjectType`/`GetSize`, the thread list, stack traces and blocking objects): these are inputs. A heap is a sequence of objects, and the threads are a map from thread id to stack and blocking objects.
- `Thread.Sleep` between snapshots: the heap at the i-th snapshot is the input `heapAt(i)`.
- `EventStacksMonitor.cs` and `CPUMonitor.cs` are not part of this model. They hold foreign stack-sampling calls and configuration constants.
- `AllocMonitor` declares `: Monitor` but overrides members that only `EventStacksMonitor` has. Its events are handed to `OnEventOccurred` directly.
- The sizes and counts of the source are 64-bit (`long`); the model uses unbounded integers, so overflow of the totals or the summed sizes is not modelled.
- Allocations.ToMemoryUnits: computes the scaled amount as an exact rational. The source divides as a `double` and prints it at default precision, right-aligned to a minimum width of three characters. Neither the rounding nor the text is modelled.
- TopK.SortDesc: the sort is written to be stable (an element goes before the equal ones sorted after it), but stability is not stated as a lemma. The dictionary's enumeration order, which decides ties in the allocation report, is left open.
- HeapSnapshots.OnIntensiveSamplingStart: the snapshots are collected and then dropped, as in the source. No comparison of them is modelled, because the source has none.
- Allocations.HeapBreakdown: reuses the snapshot query, whose rows also carry the object count that the breakdown query does not select.
- Allocations.AllocMonitor.OnIntensiveSamplingDone: the heap sizes per generation and the total heap size that the breakdown prints (from the runtime) are not modelled.

## Findings

| source | as written | input that shows it | evidently intended | confidence | as-written member | corrected member |
|---|---|---|---|---|---|---|
| Gatos.Monitor/LeakMonitor.cs:52-53 | `CountByType` and `SizeByType` are expression-bodied: each read builds a new, empty dictionary, so the constructor's `Add` calls are lost | a heap with one live 100-byte object of type `Foo`: the snapshot's `SizeByType` is empty | stored dictionaries that the constructor fills with the top types | not executed | HeapSnapshots.AsWrittenSnapshotLosesType | HeapSnapshots.HeapSnapshot.constructor |
