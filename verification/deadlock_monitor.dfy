/**
 * `DeadlockMonitor` (Gatos.Monitor/DeadlockMonitor.cs).
 *
 * Every sampling, each thread of the process is the start of a depth-first
 * search of the wait-for graph: a thread waits on its blocking objects, and a
 * blocking object waits on its owner threads. The search keeps the threads of
 * the current path in a set and the path itself, as text lines, on a stack;
 * reaching a thread already on the path reports a deadlock: the path in push
 * order, then the thread that closes it.
 *
 * The runtime's thread list and each thread's stack trace and blocking
 * objects are given as a map from thread id to what the runtime reports for
 * it. The trace lines of a report are kept as a `Report` value.
 */
module Deadlocks {
  import opened Wrappers
  import TopK

  /** `ClrThread.OSThreadId`. */
  type ThreadId = nat

  /** Managed frames shown per thread on the chain (`Take(5)`). */
  const TopFrameCount: int := 5

  datatype StackFrame = StackFrame(isManagedMethod: bool, displayString: string)

  /** A blocking object: its reason, its address and its owner threads, `None` for a null owner. */
  datatype BlockingObject = BlockingObject(reason: string, address: int, owners: seq<Option<ThreadId>>)

  datatype ThreadInfo = ThreadInfo(stackTrace: seq<StackFrame>, blockingObjects: seq<BlockingObject>)

  /** What the runtime reports for each of its threads. */
  type WaitGraph = map<ThreadId, ThreadInfo>

  /** A thread the runtime reports nothing for has no stack and blocks on nothing. */
  function Info(g: WaitGraph, t: ThreadId): ThreadInfo
  {
    if t in g then g[t] else ThreadInfo([], [])
  }

  /** The number of managed frames of a stack. */
  function ManagedCount(stack: seq<StackFrame>): nat
  {
    if stack == [] then 0
    else ManagedCount(stack[..|stack| - 1]) + (if stack[|stack| - 1].isManagedMethod then 1 else 0)
  }

  /** The display strings of the managed frames of a stack, in stack order. */
  function ManagedNames(stack: seq<StackFrame>): (names: seq<string>)
    // one name per managed frame
    ensures |names| == ManagedCount(stack)
    // the managed frame at position k is the one after the ManagedCount(stack[..k]) managed frames before it
    ensures forall k :: 0 <= k < |stack| && stack[k].isManagedMethod ==>
      ManagedCount(stack[..k]) < |names| && names[ManagedCount(stack[..k])] == stack[k].displayString
    // and no name comes from anything but a managed frame
    ensures forall x :: x in names ==> exists f :: f in stack && f.isManagedMethod && f.displayString == x
  {
    if stack == [] then []
    else
      var n := |stack|;
      var init := ManagedNames(stack[..n - 1]);
      var f := stack[n - 1];
      assert forall x :: x in stack[..n - 1] ==> x in stack;
      var names := if f.isManagedMethod then init + [f.displayString] else init;
      assert forall k :: 0 <= k < n - 1 ==> stack[..n - 1][..k] == stack[..k] && stack[..n - 1][k] == stack[k];
      names
  }

  /** `topStackTrace`: the first five managed frames of the thread's stack. */
  function TopFrames(stack: seq<StackFrame>): (top: seq<string>)
    ensures |top| == TopK.Clamp(TopFrameCount, |ManagedNames(stack)|)
    ensures top == ManagedNames(stack)[..|top|]
    ensures forall x :: x in top ==> exists f :: f in stack && f.isManagedMethod && f.displayString == x
  {
    var names := ManagedNames(stack);
    var top := TopK.Take(names, TopFrameCount);
    assert forall x :: x in top ==> x in names by {
      forall x | x in top ensures x in names {
        var i :| 0 <= i < |top| && top[i] == x;
        assert names[i] == x;
      }
    }
    top
  }

  /** One line pushed on the chain: a thread with its top frames, or a blocking object. */
  datatype ChainEntry =
    | ThreadEntry(id: ThreadId, topFrames: seq<string>)
    | ObjectEntry(reason: string, address: int)

  /** A deadlock report: the chain in push order, then the thread that closes it. */
  datatype Report = Report(chain: seq<ChainEntry>, closing: ThreadId)

  function EntryOf(g: WaitGraph, t: ThreadId): ChainEntry
  {
    ThreadEntry(t, TopFrames(Info(g, t).stackTrace))
  }

  function ObjectEntryOf(obj: BlockingObject): ChainEntry
  {
    ObjectEntry(obj.reason, obj.address)
  }

  // ---------------------------------------------------------------------
  // What the search reports

  /**
   * The reports of `FindDeadlockStartingFrom(t)` when the threads on the path
   * are `visited` and the chain holds `chain`.
   */
  function Search(g: WaitGraph, t: ThreadId, visited: set<ThreadId>, chain: seq<ChainEntry>): seq<Report>
    decreases g.Keys - visited, 0, 0
  {
    if t in visited then [Report(chain, t)]
    else if t !in g then []
    else SearchObjects(g, visited + {t}, chain + [EntryOf(g, t)], g[t].blockingObjects)
  }

  /** The reports of the `foreach` over blocking objects, for the objects `objs`. */
  function SearchObjects(g: WaitGraph, visited: set<ThreadId>, chain: seq<ChainEntry>, objs: seq<BlockingObject>): seq<Report>
    decreases g.Keys - visited, 2, |objs|
  {
    if objs == [] then []
    else
      var obj := objs[|objs| - 1];
      SearchObjects(g, visited, chain, objs[..|objs| - 1]) + SearchOwners(g, visited, chain + [ObjectEntryOf(obj)], obj.owners)
  }

  /** The reports of the `foreach` over the owners of one blocking object. */
  function SearchOwners(g: WaitGraph, visited: set<ThreadId>, chain: seq<ChainEntry>, owners: seq<Option<ThreadId>>): seq<Report>
    decreases g.Keys - visited, 1, |owners|
  {
    if owners == [] then []
    else SearchOwners(g, visited, chain, owners[..|owners| - 1]) + Explore(g, owners[|owners| - 1], visited, chain)
  }

  /** One call `FindDeadlockStartingFrom(thread, ...)`: a null thread reports nothing. */
  function Explore(g: WaitGraph, thread: Option<ThreadId>, visited: set<ThreadId>, chain: seq<ChainEntry>): seq<Report>
    decreases g.Keys - visited, 0, 1
  {
    match thread
    case None => []
    case Some(t) => Search(g, t, visited, chain)
  }

  /** `FindDeadlocks`: one search per thread, each from an empty path. */
  function AllReports(g: WaitGraph, threads: seq<ThreadId>): seq<Report>
  {
    if threads == [] then []
    else AllReports(g, threads[..|threads| - 1]) + Search(g, threads[|threads| - 1], {}, [])
  }

  // ---------------------------------------------------------------------
  // Soundness: every report is a cycle of the wait-for graph

  /** The threads on a chain. */
  function ThreadsOf(chain: seq<ChainEntry>): set<ThreadId>
  {
    set i | 0 <= i < |chain| && chain[i].ThreadEntry? :: chain[i].id
  }

  /** `entry` shows a blocking object of thread `a` that thread `b` owns. */
  ghost predicate WaitsOn(g: WaitGraph, a: ThreadId, entry: ChainEntry, b: ThreadId)
  {
    exists k :: 0 <= k < |Info(g, a).blockingObjects| &&
      entry == ObjectEntryOf(Info(g, a).blockingObjects[k]) && Some(b) in Info(g, a).blockingObjects[k].owners
  }

  /**
   * A path of the wait-for graph as the chain shows it: thread and object
   * entries alternate, thread first; a thread entry shows that thread's top
   * frames; and the object between two threads is one the first waits on and
   * the second owns.
   */
  ghost predicate IsPath(g: WaitGraph, chain: seq<ChainEntry>)
  {
    && (forall i :: 0 <= i < |chain| ==> (chain[i].ThreadEntry? <==> i % 2 == 0))
    && (forall i :: 0 <= i < |chain| && chain[i].ThreadEntry? ==> chain[i] == EntryOf(g, chain[i].id))
    && (forall i :: 0 < i < |chain| - 1 && i % 2 == 1 ==> WaitsOn(g, chain[i - 1].id, chain[i], chain[i + 1].id))
  }

  /**
   * A deadlock: a path ending in a blocking object whose owner `closing` is
   * already on the path, so the threads from `closing` on wait on each other.
   */
  ghost predicate IsDeadlock(g: WaitGraph, r: Report)
  {
    && IsPath(g, r.chain)
    && |r.chain| >= 2 && |r.chain| % 2 == 0
    && WaitsOn(g, r.chain[|r.chain| - 2].id, r.chain[|r.chain| - 1], r.closing)
    && r.closing in ThreadsOf(r.chain)
  }

  /** How the search reaches thread `t`: from nothing, or as an owner of the last object on the chain. */
  ghost predicate Reaches(g: WaitGraph, chain: seq<ChainEntry>, t: ThreadId)
  {
    chain == [] ||
      (IsPath(g, chain) && |chain| >= 2 && |chain| % 2 == 0 && WaitsOn(g, chain[|chain| - 2].id, chain[|chain| - 1], t))
  }

  /** Pushing an entry adds its thread, if it is a thread entry, to the threads of the chain. */
  lemma ThreadsOfAppend(chain: seq<ChainEntry>, e: ChainEntry)
    ensures ThreadsOf(chain + [e]) == ThreadsOf(chain) + (if e.ThreadEntry? then {e.id} else {})
  {
    var c := chain + [e];
    forall u | u in ThreadsOf(c) ensures u in ThreadsOf(chain) + (if e.ThreadEntry? then {e.id} else {}) {
      var i :| 0 <= i < |c| && c[i].ThreadEntry? && c[i].id == u;
      if i < |chain| {
        assert chain[i] == c[i];
      }
    }
    forall u | u in ThreadsOf(chain) ensures u in ThreadsOf(c) {
      var i :| 0 <= i < |chain| && chain[i].ThreadEntry? && chain[i].id == u;
      assert c[i] == chain[i];
    }
    if e.ThreadEntry? {
      assert c[|chain|] == e;
    }
  }

  lemma PathAddThread(g: WaitGraph, chain: seq<ChainEntry>, t: ThreadId)
    requires Reaches(g, chain, t)
    ensures var c := chain + [EntryOf(g, t)];
      IsPath(g, c) && |c| % 2 == 1 && ThreadsOf(c) == ThreadsOf(chain) + {t}
  {
    var c := chain + [EntryOf(g, t)];
    forall i | 0 < i < |c| - 1 && i % 2 == 1 ensures WaitsOn(g, c[i - 1].id, c[i], c[i + 1].id) {
      if i + 1 < |chain| {
        assert c[i - 1] == chain[i - 1] && c[i] == chain[i] && c[i + 1] == chain[i + 1];
      } else {
        assert i == |chain| - 1 && c[i - 1] == chain[|chain| - 2] && c[i] == chain[|chain| - 1];
      }
    }
    forall i | 0 <= i < |c| ensures (c[i].ThreadEntry? <==> i % 2 == 0) && (c[i].ThreadEntry? ==> c[i] == EntryOf(g, c[i].id)) {
      if i < |chain| {
        assert c[i] == chain[i];
      }
    }
    ThreadsOfAppend(chain, EntryOf(g, t));
  }

  lemma PathAddObject(g: WaitGraph, chain: seq<ChainEntry>, t: ThreadId, obj: BlockingObject)
    requires IsPath(g, chain) && |chain| % 2 == 1 && chain[|chain| - 1] == EntryOf(g, t)
    ensures var c := chain + [ObjectEntryOf(obj)];
      && IsPath(g, c) && |c| >= 2 && |c| % 2 == 0 && c[|c| - 2].id == t
      && ThreadsOf(c) == ThreadsOf(chain)
  {
    var c := chain + [ObjectEntryOf(obj)];
    forall i | 0 < i < |c| - 1 && i % 2 == 1 ensures WaitsOn(g, c[i - 1].id, c[i], c[i + 1].id) {
      assert c[i - 1] == chain[i - 1] && c[i] == chain[i] && c[i + 1] == chain[i + 1];
    }
    forall i | 0 <= i < |c| ensures (c[i].ThreadEntry? <==> i % 2 == 0) && (c[i].ThreadEntry? ==> c[i] == EntryOf(g, c[i].id)) {
      if i < |chain| {
        assert c[i] == chain[i];
      }
    }
    assert c[|c| - 2] == chain[|chain| - 1];
    ThreadsOfAppend(chain, ObjectEntryOf(obj));
  }

  /**
   * Soundness: from a chain that reaches `t` through the wait-for graph, with
   * its threads as the visited set, every report is a deadlock and extends
   * the chain.
   */
  lemma {:induction false} SearchSound(g: WaitGraph, t: ThreadId, visited: set<ThreadId>, chain: seq<ChainEntry>)
    requires Reaches(g, chain, t) && visited == ThreadsOf(chain)
    ensures forall r :: r in Search(g, t, visited, chain) ==> IsDeadlock(g, r) && chain <= r.chain
    decreases g.Keys - visited, 0, 0
  {
    if t in visited {
      assert chain != [];
    } else if t in g {
      var c := chain + [EntryOf(g, t)];
      PathAddThread(g, chain, t);
      SearchObjectsSound(g, t, visited + {t}, c, g[t].blockingObjects);
    }
  }

  lemma {:induction false} SearchObjectsSound(g: WaitGraph, t: ThreadId, visited: set<ThreadId>, chain: seq<ChainEntry>, objs: seq<BlockingObject>)
    requires IsPath(g, chain) && |chain| % 2 == 1 && chain[|chain| - 1] == EntryOf(g, t)
    requires visited == ThreadsOf(chain)
    requires forall obj :: obj in objs ==> obj in Info(g, t).blockingObjects
    ensures forall r :: r in SearchObjects(g, visited, chain, objs) ==> IsDeadlock(g, r) && chain <= r.chain
    decreases g.Keys - visited, 2, |objs|
  {
    if objs != [] {
      var n := |objs| - 1;
      var obj := objs[n];
      assert forall o :: o in objs[..n] ==> o in objs;
      SearchObjectsSound(g, t, visited, chain, objs[..n]);
      PathAddObject(g, chain, t, obj);
      SearchOwnersSound(g, t, visited, chain + [ObjectEntryOf(obj)], obj, obj.owners);
    }
  }

  lemma {:induction false} SearchOwnersSound(g: WaitGraph, t: ThreadId, visited: set<ThreadId>, chain: seq<ChainEntry>,
                                             obj: BlockingObject, owners: seq<Option<ThreadId>>)
    requires IsPath(g, chain) && |chain| >= 2 && |chain| % 2 == 0
    requires chain[|chain| - 2].id == t && chain[|chain| - 1] == ObjectEntryOf(obj)
    requires obj in Info(g, t).blockingObjects
    requires visited == ThreadsOf(chain)
    requires forall o :: o in owners ==> o in obj.owners
    ensures forall r :: r in SearchOwners(g, visited, chain, owners) ==> IsDeadlock(g, r) && chain[..|chain| - 1] <= r.chain
    decreases g.Keys - visited, 1, |owners|
  {
    if owners != [] {
      var n := |owners| - 1;
      assert forall o :: o in owners[..n] ==> o in owners;
      SearchOwnersSound(g, t, visited, chain, obj, owners[..n]);
      if owners[n].Some? {
        var o := owners[n].value;
        var k :| 0 <= k < |Info(g, t).blockingObjects| && Info(g, t).blockingObjects[k] == obj;
        assert WaitsOn(g, t, chain[|chain| - 1], o);
        SearchSound(g, o, visited, chain);
      }
    }
  }

  /**
   * Every deadlock a top-level search from thread `t` reports is a real cycle
   * of the wait-for graph, on a path that starts at `t`.
   */
  lemma ReportsAreDeadlocks(g: WaitGraph, t: ThreadId)
    ensures forall r :: r in Search(g, t, {}, []) ==> IsDeadlock(g, r) && r.chain[0] == EntryOf(g, t)
  {
    if t in g {
      var c := [EntryOf(g, t)];
      assert [] + [EntryOf(g, t)] == c;
      assert ThreadsOf([]) == {};
      PathAddThread(g, [], t);
      var rs := SearchObjects(g, {} + {t}, c, g[t].blockingObjects);
      assert Search(g, t, {}, []) == rs;
      SearchObjectsSound(g, t, {t}, c, g[t].blockingObjects);
      forall r | r in rs ensures IsDeadlock(g, r) && r.chain[0] == EntryOf(g, t) {
        assert c <= r.chain;
      }
    }
  }

  // ---------------------------------------------------------------------
  // Completeness of one step: every owner of every blocking object is explored

  lemma {:induction false} OwnerInSearchOwners(g: WaitGraph, visited: set<ThreadId>, chain: seq<ChainEntry>,
                                               owners: seq<Option<ThreadId>>, j: nat)
    requires j < |owners|
    ensures forall r :: r in Explore(g, owners[j], visited, chain) ==> r in SearchOwners(g, visited, chain, owners)
  {
    var n := |owners| - 1;
    if j < n {
      OwnerInSearchOwners(g, visited, chain, owners[..n], j);
    }
  }

  lemma {:induction false} ObjectInSearchObjects(g: WaitGraph, visited: set<ThreadId>, chain: seq<ChainEntry>,
                                                 objs: seq<BlockingObject>, k: nat)
    requires k < |objs|
    ensures forall r :: r in SearchOwners(g, visited, chain + [ObjectEntryOf(objs[k])], objs[k].owners) ==>
      r in SearchObjects(g, visited, chain, objs)
  {
    var n := |objs| - 1;
    if k < n {
      ObjectInSearchObjects(g, visited, chain, objs[..n], k);
    }
  }

  /**
   * The search from thread `t` explores every owner of every blocking object
   * of `t`, one object after another and several owners per object: each
   * report of the search from owner `j` of object `k`, one step further down
   * the path, is a report of the search from `t`.
   */
  lemma OwnerIsExplored(g: WaitGraph, t: ThreadId, visited: set<ThreadId>, chain: seq<ChainEntry>, k: nat, j: nat)
    requires t !in visited && t in g
    requires k < |g[t].blockingObjects| && j < |g[t].blockingObjects[k].owners|
    requires g[t].blockingObjects[k].owners[j].Some?
    ensures var obj := g[t].blockingObjects[k];
      forall r :: r in Search(g, obj.owners[j].value, visited + {t}, chain + [EntryOf(g, t), ObjectEntryOf(obj)]) ==>
        r in Search(g, t, visited, chain)
  {
    var objs := g[t].blockingObjects;
    var c := chain + [EntryOf(g, t)];
    assert chain + [EntryOf(g, t), ObjectEntryOf(objs[k])] == c + [ObjectEntryOf(objs[k])];
    OwnerInSearchOwners(g, visited + {t}, c + [ObjectEntryOf(objs[k])], objs[k].owners, j);
    ObjectInSearchObjects(g, visited + {t}, c, objs, k);
  }

  /** A thread blocked on an object it owns itself is reported as a one-thread deadlock. */
  lemma SelfWaitIsReported(g: WaitGraph, t: ThreadId, k: nat)
    requires t in g && k < |g[t].blockingObjects| && Some(t) in g[t].blockingObjects[k].owners
    ensures Report([EntryOf(g, t), ObjectEntryOf(g[t].blockingObjects[k])], t) in Search(g, t, {}, [])
  {
    var obj := g[t].blockingObjects[k];
    var j :| 0 <= j < |obj.owners| && obj.owners[j] == Some(t);
    OwnerIsExplored(g, t, {}, [], k, j);
    assert [] + [EntryOf(g, t), ObjectEntryOf(obj)] == [EntryOf(g, t), ObjectEntryOf(obj)];
    assert {} + {t} == {t};
  }

  lemma {:induction false} NoOwnersNoReports(g: WaitGraph, visited: set<ThreadId>, chain: seq<ChainEntry>, objs: seq<BlockingObject>)
    requires forall k :: 0 <= k < |objs| ==> objs[k].owners == []
    ensures SearchObjects(g, visited, chain, objs) == []
  {
    if objs != [] {
      NoOwnersNoReports(g, visited, chain, objs[..|objs| - 1]);
    }
  }

  /**
   * A thread not on the path that blocks on nothing, or only on objects
   * without owners, reports nothing.
   */
  lemma NotBlockedNoReport(g: WaitGraph, t: ThreadId, visited: set<ThreadId>, chain: seq<ChainEntry>)
    requires t !in visited
    requires forall k :: 0 <= k < |Info(g, t).blockingObjects| ==> Info(g, t).blockingObjects[k].owners == []
    ensures Search(g, t, visited, chain) == []
  {
    if t in g {
      NoOwnersNoReports(g, visited + {t}, chain + [EntryOf(g, t)], g[t].blockingObjects);
    }
  }

  // ---------------------------------------------------------------------
  // Scenarios

  /** Two threads, each holding the lock the other waits for (a lock-order inversion). */
  function Crossed(): WaitGraph
  {
    map[
      1 := ThreadInfo([], [BlockingObject("Monitor", 160, [Some(2)])]),
      2 := ThreadInfo([], [BlockingObject("Monitor", 176, [Some(1)])])
    ]
  }

  /**
   * The crossed locks are reported twice, once from each thread, since every
   * top-level search starts from an empty path.
   */
  lemma CrossedLocksReportedOncePerThread()
    ensures AllReports(Crossed(), [1, 2]) == [
      Report([ThreadEntry(1, []), ObjectEntry("Monitor", 160), ThreadEntry(2, []), ObjectEntry("Monitor", 176)], 1),
      Report([ThreadEntry(2, []), ObjectEntry("Monitor", 176), ThreadEntry(1, []), ObjectEntry("Monitor", 160)], 2)
    ]
  {
    var g := Crossed();
    var a, b := BlockingObject("Monitor", 160, [Some(2)]), BlockingObject("Monitor", 176, [Some(1)]);
    assert TopFrames([]) == [];
    var t1, t2 := ThreadEntry(1, []), ThreadEntry(2, []);
    var oa, ob := ObjectEntry("Monitor", 160), ObjectEntry("Monitor", 176);
    assert EntryOf(g, 1) == t1 && EntryOf(g, 2) == t2;
    assert ObjectEntryOf(a) == oa && ObjectEntryOf(b) == ob;
    assert 1 in g && 2 in g && g[1].blockingObjects == [a] && g[2].blockingObjects == [b];
    // from thread 1
    TwoStep(g, 1, a, 2, b);
    // from thread 2
    TwoStep(g, 2, b, 1, a);
    assert [1, 2][..1] == [1];
    assert [1][..0] == [];
  }

  /**
   * Thread `x` blocks only on `a`, owned only by `y`, which blocks only on
   * `b`, owned only by `x`, neither with managed frames: the search from `x`
   * reports the cycle once.
   */
  lemma TwoStep(g: WaitGraph, x: ThreadId, a: BlockingObject, y: ThreadId, b: BlockingObject)
    requires x != y && x in g && y in g
    requires g[x] == ThreadInfo([], [a]) && g[y] == ThreadInfo([], [b])
    requires a.owners == [Some(y)] && b.owners == [Some(x)]
    ensures Search(g, x, {}, []) ==
      [Report([ThreadEntry(x, []), ObjectEntryOf(a), ThreadEntry(y, []), ObjectEntryOf(b)], x)]
  {
    assert TopFrames([]) == [];
    var cx := [ThreadEntry(x, [])];
    var cxa := cx + [ObjectEntryOf(a)];
    var cxay := cxa + [ThreadEntry(y, [])];
    var full := cxay + [ObjectEntryOf(b)];
    assert full == [ThreadEntry(x, []), ObjectEntryOf(a), ThreadEntry(y, []), ObjectEntryOf(b)];
    assert Search(g, x, {x, y}, full) == [Report(full, x)];
    OneOwner(g, {x, y}, cxay, b);
    OneObject(g, {x, y}, cxay, b);
    assert {x} + {y} == {x, y};
    assert Search(g, y, {x}, cxa) == SearchObjects(g, {x, y}, cxay, [b]);
    OneOwner(g, {x}, cx, a);
    OneObject(g, {x}, cx, a);
    assert {} + {x} == {x};
    assert [] + [ThreadEntry(x, [])] == cx;
    assert Search(g, x, {}, []) == SearchObjects(g, {x}, cx, [a]);
  }

  /** A blocking object with one owner: the search from that owner. */
  lemma OneOwner(g: WaitGraph, visited: set<ThreadId>, chain: seq<ChainEntry>, obj: BlockingObject)
    requires |obj.owners| == 1 && obj.owners[0].Some?
    ensures SearchOwners(g, visited, chain + [ObjectEntryOf(obj)], obj.owners) ==
      Search(g, obj.owners[0].value, visited, chain + [ObjectEntryOf(obj)])
  {
    assert obj.owners[..0] == [];
  }

  /** A single blocking object: the search over its owners. */
  lemma OneObject(g: WaitGraph, visited: set<ThreadId>, chain: seq<ChainEntry>, obj: BlockingObject)
    ensures SearchObjects(g, visited, chain, [obj]) == SearchOwners(g, visited, chain + [ObjectEntryOf(obj)], obj.owners)
  {
    assert [obj][..0] == [];
  }

  /** Thread 1 waits on a lock thread 2 holds, and thread 2 waits on nothing. */
  function Waiting(): WaitGraph
  {
    map[
      1 := ThreadInfo([], [BlockingObject("Monitor", 160, [Some(2)])]),
      2 := ThreadInfo([], [])
    ]
  }

  /** Waiting without a cycle is not reported. */
  lemma WaitingWithoutCycleNotReported()
    ensures AllReports(Waiting(), [1, 2]) == []
  {
    var g := Waiting();
    var a := BlockingObject("Monitor", 160, [Some(2)]);
    var c := [EntryOf(g, 1)];
    NotBlockedNoReport(g, 2, {1}, c + [ObjectEntryOf(a)]);
    OneOwner(g, {1}, c, a);
    OneObject(g, {1}, c, a);
    assert {} + {1} == {1};
    assert [] + [EntryOf(g, 1)] == c;
    assert Search(g, 1, {}, []) == [];
    NotBlockedNoReport(g, 2, {}, []);
    assert [1, 2][..1] == [1];
    assert [1][..0] == [];
  }

  // ---------------------------------------------------------------------
  // The monitor

  /** The `visitedThreadIds` set and the `chain` stack one top-level search shares. */
  class SearchPath {
    var visitedThreadIds: set<ThreadId>
    var chain: seq<ChainEntry>

    constructor ()
      ensures visitedThreadIds == {} && chain == []
    {
      visitedThreadIds := {};
      chain := [];
    }
  }

  class DeadlockMonitor {
    /** The deadlocks written to the trace, in order. */
    var reports: seq<Report>

    constructor ()
      ensures reports == []
    {
      reports := [];
    }

    /** `FindDeadlocks`: a fresh path for every thread of the runtime. */
    method FindDeadlocks(g: WaitGraph, threads: seq<ThreadId>)
      modifies this
      ensures reports == old(reports) + AllReports(g, threads)
    {
      for i := 0 to |threads|
        invariant reports == old(reports) + AllReports(g, threads[..i])
      {
        var path := new SearchPath();
        FindDeadlockStartingFrom(g, Some(threads[i]), path);
        assert threads[..i + 1][..i] == threads[..i];
      }
      assert threads[..|threads|] == threads;
    }

    /**
     * `FindDeadlockStartingFrom(thread, visitedThreadIds, chain)`: reports what
     * `Explore` says and leaves the path as it found it.
     */
    method FindDeadlockStartingFrom(g: WaitGraph, thread: Option<ThreadId>, path: SearchPath)
      modifies this, path
      decreases g.Keys - path.visitedThreadIds
      ensures path.visitedThreadIds == old(path.visitedThreadIds) && path.chain == old(path.chain)
      ensures reports == old(reports) + Explore(g, thread, old(path.visitedThreadIds), old(path.chain))
      ensures thread.None? ==> reports == old(reports)
    {
      if thread.None? {
        return;
      }
      var t := thread.value;
      if t in path.visitedThreadIds {
        // deadlock: the chain in push order, then the thread closing it
        reports := reports + [Report(path.chain, t)];
        return;
      }

      ghost var visited, chain0, reports0 := path.visitedThreadIds, path.chain, reports;
      path.visitedThreadIds := path.visitedThreadIds + {t};
      var info := Info(g, t);
      path.chain := path.chain + [ThreadEntry(t, TopFrames(info.stackTrace))];
      ghost var chain1 := path.chain;

      var objs := info.blockingObjects;
      for i := 0 to |objs|
        invariant path.visitedThreadIds == visited + {t} && path.chain == chain1
        invariant reports == reports0 + SearchObjects(g, visited + {t}, chain1, objs[..i])
      {
        var blockingObject := objs[i];
        path.chain := path.chain + [ObjectEntryOf(blockingObject)];
        ghost var reports1 := reports;
        var owners := blockingObject.owners;
        for j := 0 to |owners|
          invariant path.visitedThreadIds == visited + {t} && path.chain == chain1 + [ObjectEntryOf(blockingObject)]
          invariant reports == reports1 + SearchOwners(g, visited + {t}, path.chain, owners[..j])
        {
          assert t in g;
          FindDeadlockStartingFrom(g, owners[j], path);
          assert owners[..j + 1][..j] == owners[..j];
        }
        assert owners[..|owners|] == owners;
        path.chain := path.chain[..|path.chain| - 1];
        assert objs[..i + 1][..i] == objs[..i];
      }
      assert objs[..|objs|] == objs;

      path.chain := path.chain[..|path.chain| - 1];
      assert path.chain == chain0;
      path.visitedThreadIds := path.visitedThreadIds - {t};
      assert path.visitedThreadIds == visited;
    }
  }
}
