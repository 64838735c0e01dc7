/**
 * `AllocMonitor` and `Extensions.ToMemoryUnits` (Gatos.Monitor/AllocMonitor.cs).
 *
 * While a run of intensive sampling lasts, every allocation-tick event of the
 * runtime is tallied: one more allocation, the event's byte amount, and one
 * more allocation for the event's type. When the run is done the monitor
 * reports the totals and the ten most-allocated types (most-allocated last),
 * prints the ten biggest types of the heap (biggest last) and starts again
 * from zero.
 *
 * Events come in as values; the trace output is returned instead of written.
 */
module Allocations {
  import TopK
  import HeapSnapshots

  /** `Take(10)` in both reports. */
  const ReportedTypes: int := 10

  /** The events the monitor is handed; only allocation ticks are looked at. */
  datatype TraceEvent =
    | AllocationTick(typeName: string, allocationAmount: int)
    | OtherEvent(eventName: string)

  // ---------------------------------------------------------------------
  // Sums over a dictionary

  /** The sum of `m[k]` over the keys `keys` of `m`. */
  ghost function SumOver(m: map<string, int>, keys: set<string>): int
    requires keys <= m.Keys
    decreases keys
  {
    if keys == {} then 0
    else
      var k :| k in keys;
      m[k] + SumOver(m, keys - {k})
  }

  /** The sum of all the values of `m`. */
  ghost function SumValues(m: map<string, int>): int
  {
    SumOver(m, m.Keys)
  }

  /** Any key can be taken out of the sum first. */
  lemma {:induction false} SumOverRemove(m: map<string, int>, keys: set<string>, k: string)
    requires keys <= m.Keys && k in keys
    ensures SumOver(m, keys) == m[k] + SumOver(m, keys - {k})
    decreases keys
  {
    var j :| j in keys && SumOver(m, keys) == m[j] + SumOver(m, keys - {j});
    if j != k {
      SumOverRemove(m, keys - {j}, k);
      SumOverRemove(m, keys - {k}, j);
      assert keys - {j} - {k} == keys - {k} - {j};
    }
  }

  /** The sum over `keys` depends only on the values at `keys`. */
  lemma {:induction false} SumOverAgree(m1: map<string, int>, m2: map<string, int>, keys: set<string>)
    requires keys <= m1.Keys && keys <= m2.Keys
    requires forall k :: k in keys ==> m1[k] == m2[k]
    ensures SumOver(m1, keys) == SumOver(m2, keys)
    decreases keys
  {
    if keys != {} {
      var j :| j in keys && SumOver(m1, keys) == m1[j] + SumOver(m1, keys - {j});
      SumOverAgree(m1, m2, keys - {j});
      SumOverRemove(m2, keys, j);
    }
  }

  // ---------------------------------------------------------------------
  // The tally

  /**
   * `_allocsPerType` after one allocation of type `t`: `Add(t, 1)` for a new
   * type, `typeAllocations + 1` for a known one. Every type's count, absent
   * counting as 0, goes up by one for `t` and by nothing for the others.
   */
  function Tally(counts: map<string, int>, t: string): (r: map<string, int>)
    ensures r.Keys == counts.Keys + {t}
    ensures forall u :: HeapSnapshots.ValueOr0(r, u) == HeapSnapshots.ValueOr0(counts, u) + (if u == t then 1 else 0)
  {
    if t !in counts then counts[t := 1] else counts[t := counts[t] + 1]
  }

  /** One more allocation adds exactly one to the sum of the per-type counts. */
  lemma TallyAddsOne(counts: map<string, int>, t: string)
    ensures SumValues(Tally(counts, t)) == SumValues(counts) + 1
  {
    var r := Tally(counts, t);
    assert forall u :: u in counts && u != t ==> r[u] == counts[u];
    if t in counts {
      assert r.Keys == counts.Keys;
      SumOverRemove(r, r.Keys, t);
      SumOverRemove(counts, counts.Keys, t);
      SumOverAgree(r, counts, counts.Keys - {t});
    } else {
      SumOverRemove(r, r.Keys, t);
      assert r.Keys - {t} == counts.Keys;
      SumOverAgree(r, counts, counts.Keys);
    }
  }

  /** The three fields of the monitor, as a value. */
  datatype Tallies = Tallies(totalAllocs: int, totalAllocatedBytes: int, allocsPerType: map<string, int>)

  /** The fields as constructed and as reset. */
  const NoTallies := Tallies(0, 0, map[])

  /** `OnEventOccurred`: ignore anything but an allocation tick, else tally it. */
  function Record(s: Tallies, e: TraceEvent): Tallies
  {
    match e
    case OtherEvent(_) => s
    case AllocationTick(t, amount) =>
      Tallies(s.totalAllocs + 1, s.totalAllocatedBytes + amount, Tally(s.allocsPerType, t))
  }

  /**
   * The monitor's invariant: the per-type counts add up to the number of
   * allocations, and a type is in the dictionary only once it has been
   * allocated.
   */
  ghost predicate Consistent(s: Tallies)
  {
    && SumValues(s.allocsPerType) == s.totalAllocs
    && forall t :: t in s.allocsPerType ==> s.allocsPerType[t] >= 1
  }

  lemma RecordKeepsConsistent(s: Tallies, e: TraceEvent)
    requires Consistent(s)
    ensures Consistent(Record(s, e))
  {
    if e.AllocationTick? {
      TallyAddsOne(s.allocsPerType, e.typeName);
    }
  }

  /** The tallies after the events, in order, starting from `s`. */
  function Replay(s: Tallies, events: seq<TraceEvent>): Tallies
  {
    if events == [] then s else Record(Replay(s, events[..|events| - 1]), events[|events| - 1])
  }

  /** Number of allocation ticks among the events. */
  function AllocationCount(events: seq<TraceEvent>): nat
  {
    if events == [] then 0
    else AllocationCount(events[..|events| - 1]) + (if events[|events| - 1].AllocationTick? then 1 else 0)
  }

  /** Bytes announced by the allocation ticks among the events. */
  function AllocatedBytes(events: seq<TraceEvent>): int
  {
    if events == [] then 0
    else
      var e := events[|events| - 1];
      AllocatedBytes(events[..|events| - 1]) + (if e.AllocationTick? then e.allocationAmount else 0)
  }

  /** Number of allocation ticks of type `t` among the events. */
  function Occurrences(events: seq<TraceEvent>, t: string): nat
  {
    if events == [] then 0
    else
      var e := events[|events| - 1];
      Occurrences(events[..|events| - 1], t) + (if e.AllocationTick? && e.typeName == t then 1 else 0)
  }

  /**
   * From a fresh (or reset) monitor, the fields after a stream of events are
   * the number of allocation ticks, the bytes they announce, and for every
   * type the number of its ticks, a type being in the dictionary exactly when
   * it has had one.
   */
  lemma {:induction false} ReplayCountsEvents(events: seq<TraceEvent>)
    ensures var s := Replay(NoTallies, events);
      && s.totalAllocs == AllocationCount(events)
      && s.totalAllocatedBytes == AllocatedBytes(events)
      && (forall t :: HeapSnapshots.ValueOr0(s.allocsPerType, t) == Occurrences(events, t))
      && (forall t :: t in s.allocsPerType <==> Occurrences(events, t) > 0)
      && Consistent(s)
  {
    if events == [] {
      assert SumValues(map[]) == 0;
    } else {
      var init := events[..|events| - 1];
      ReplayCountsEvents(init);
      RecordKeepsConsistent(Replay(NoTallies, init), events[|events| - 1]);
    }
  }

  // ---------------------------------------------------------------------
  // The reports

  /** One line of the allocation report: a type and its number of allocations. */
  datatype TypeCount = TypeCount(typeName: string, count: int)

  function CountName(e: TypeCount): string { e.typeName }

  function CountValue(e: TypeCount): int { e.count }

  /**
   * `report` is the per-type part of the report on `perType`: min(10, number
   * of types) lines, one per type with that type's count, most-allocated
   * last, and no type left out has more allocations than a type listed.
   */
  ghost predicate IsAllocationReport(report: seq<TypeCount>, perType: map<string, int>)
  {
    && |report| == TopK.Clamp(ReportedTypes, |perType|)
    && TopK.SortedAsc(report, CountValue)
    && TopK.DistinctKeys(report, CountName)
    && (forall i :: 0 <= i < |report| ==> report[i].typeName in perType && perType[report[i].typeName] == report[i].count)
    && (forall i, t :: 0 <= i < |report| && t in perType && !TopK.HasKey(report, CountName, t) ==> report[i].count >= perType[t])
  }

  /**
   * `_allocsPerType.OrderByDescending(kvp => kvp.Value).Take(10).Reverse()`:
   * the dictionary's entries are enumerated in an order the dictionary does
   * not specify (any order here), then sorted, cut and reversed.
   */
  method TopAllocatingTypes(perType: map<string, int>) returns (report: seq<TypeCount>)
    ensures IsAllocationReport(report, perType)
  {
    var entries: seq<TypeCount> := [];
    var rest := perType.Keys;
    while rest != {}
      invariant rest <= perType.Keys
      invariant |entries| + |rest| == |perType.Keys|
      invariant TopK.DistinctKeys(entries, CountName)
      invariant forall i :: 0 <= i < |entries| ==>
        entries[i].typeName in perType.Keys - rest && entries[i].count == perType[entries[i].typeName]
      invariant forall t :: t in perType.Keys - rest ==> TopK.HasKey(entries, CountName, t)
      decreases rest
    {
      var t :| t in rest;
      ghost var before := entries;
      entries := entries + [TypeCount(t, perType[t])];
      forall u | u in perType.Keys - (rest - {t}) ensures TopK.HasKey(entries, CountName, u) {
        if u == t {
          assert CountName(entries[|before|]) == u;
        } else {
          assert u in perType.Keys - rest;
          assert TopK.HasKey(before, CountName, u);
          var j :| 0 <= j < |before| && CountName(before[j]) == u;
          assert CountName(entries[j]) == u;
        }
      }
      rest := rest - {t};
    }
    assert |perType.Keys| == |perType|;
    var top := TopK.Top(entries, ReportedTypes, CountValue);
    report := TopK.Reverse(top);  // most-allocated types last
    ReportOfEntries(entries, perType, top, report);
  }

  /**
   * `top` is the top ten of `perType`, heaviest first: the report before it is
   * reversed.
   */
  ghost predicate IsTopTen(top: seq<TypeCount>, perType: map<string, int>)
  {
    && |top| == TopK.Clamp(ReportedTypes, |perType|)
    && TopK.SortedDesc(top, CountValue)
    && TopK.DistinctKeys(top, CountName)
    && (forall i :: 0 <= i < |top| ==> top[i].typeName in perType && perType[top[i].typeName] == top[i].count)
    && (forall i, t :: 0 <= i < |top| && t in perType && !TopK.HasKey(top, CountName, t) ==> top[i].count >= perType[t])
  }

  lemma ReportOfEntries(entries: seq<TypeCount>, perType: map<string, int>, top: seq<TypeCount>, report: seq<TypeCount>)
    requires |entries| == |perType|
    requires TopK.DistinctKeys(entries, CountName)
    requires forall i :: 0 <= i < |entries| ==>
      entries[i].typeName in perType && entries[i].count == perType[entries[i].typeName]
    requires forall t :: t in perType ==> TopK.HasKey(entries, CountName, t)
    requires top == TopK.Top(entries, ReportedTypes, CountValue) && report == TopK.Reverse(top)
    ensures IsAllocationReport(report, perType)
  {
    TopOfEntries(entries, perType);
    ReversedTopTen(top, perType);
  }

  lemma TopOfEntries(entries: seq<TypeCount>, perType: map<string, int>)
    requires |entries| == |perType|
    requires TopK.DistinctKeys(entries, CountName)
    requires forall i :: 0 <= i < |entries| ==>
      entries[i].typeName in perType && entries[i].count == perType[entries[i].typeName]
    requires forall t :: t in perType ==> TopK.HasKey(entries, CountName, t)
    ensures IsTopTen(TopK.Top(entries, ReportedTypes, CountValue), perType)
  {
    var top := TopK.Top(entries, ReportedTypes, CountValue);
    TopK.TopKeepsHeaviest(entries, ReportedTypes, CountValue, CountName);
    TopRowsAreEntries(entries, perType, top);
    TopRowsAreHeaviest(entries, perType, top);
  }

  /** Rows taken from the entries carry their type's true count. */
  lemma TopRowsAreEntries(entries: seq<TypeCount>, perType: map<string, int>, top: seq<TypeCount>)
    requires forall i :: 0 <= i < |entries| ==>
      entries[i].typeName in perType && entries[i].count == perType[entries[i].typeName]
    requires forall x :: x in top ==> x in entries
    ensures forall i :: 0 <= i < |top| ==> top[i].typeName in perType && perType[top[i].typeName] == top[i].count
  {
    forall i | 0 <= i < |top|
      ensures top[i].typeName in perType && perType[top[i].typeName] == top[i].count
    {
      assert top[i] in top;
      var j :| 0 <= j < |entries| && entries[j] == top[i];
    }
  }

  /** No type of the map left out of `top` is heavier than a row of `top`, when every type has an entry. */
  lemma TopRowsAreHeaviest(entries: seq<TypeCount>, perType: map<string, int>, top: seq<TypeCount>)
    requires forall i :: 0 <= i < |entries| ==>
      entries[i].typeName in perType && entries[i].count == perType[entries[i].typeName]
    requires forall t :: t in perType ==> TopK.HasKey(entries, CountName, t)
    requires forall i, y :: 0 <= i < |top| && y in entries && !TopK.HasKey(top, CountName, CountName(y)) ==>
      CountValue(top[i]) >= CountValue(y)
    ensures forall i, t :: 0 <= i < |top| && t in perType && !TopK.HasKey(top, CountName, t) ==> top[i].count >= perType[t]
  {
    forall i, t | 0 <= i < |top| && t in perType && !TopK.HasKey(top, CountName, t)
      ensures top[i].count >= perType[t]
    {
      var j :| 0 <= j < |entries| && CountName(entries[j]) == t;
      assert entries[j] in entries;
    }
  }

  lemma ReversedTopTen(top: seq<TypeCount>, perType: map<string, int>)
    requires IsTopTen(top, perType)
    ensures IsAllocationReport(TopK.Reverse(top), perType)
  {
    var report := TopK.Reverse(top);
    TopK.ReverseOfDescIsAsc(top, CountValue);
    TopK.ReverseKeepsKeysDistinct(top, CountName);
    forall i | 0 <= i < |report|
      ensures report[i].typeName in perType && perType[report[i].typeName] == report[i].count
    {
      assert report[i] == top[|top| - 1 - i];
    }
    forall i, t | 0 <= i < |report| && t in perType && !TopK.HasKey(report, CountName, t)
      ensures report[i].count >= perType[t]
    {
      TopK.ReverseHasKey(top, CountName, t);
      assert report[i] == top[|top| - 1 - i];
    }
  }

  /**
   * `PrintHeapBreakdown`'s query: the same grouping of the live objects as a
   * heap snapshot's, ordered by total size, the first ten, biggest last.
   */
  function HeapBreakdown(heap: seq<HeapSnapshots.HeapObject>): seq<HeapSnapshots.TypeStats>
  {
    TopK.Reverse(HeapSnapshots.Query(heap, ReportedTypes))
  }

  /**
   * The breakdown lists min(10, number of live types) types, each once, each
   * a type of some counted object (so neither a null type nor the free-space
   * type) with the total size of its objects, biggest last, and no live type
   * left out is bigger than one listed.
   */
  lemma HeapBreakdownIsTopTen(heap: seq<HeapSnapshots.HeapObject>)
    ensures var rows := HeapBreakdown(heap);
      && |rows| == TopK.Clamp(ReportedTypes, |HeapSnapshots.LiveTypeNames(heap)|)
      && TopK.SortedAsc(rows, HeapSnapshots.StatsSize)
      && HeapSnapshots.DistinctNames(rows)
      && (forall i :: 0 <= i < |rows| ==>
            HeapSnapshots.HasLiveType(heap, rows[i].typeName) && rows[i].size == HeapSnapshots.SizeOf(heap, rows[i].typeName))
      && (forall i, t :: 0 <= i < |rows| && HeapSnapshots.HasLiveType(heap, t) && !HeapSnapshots.HasRow(rows, t) ==>
            rows[i].size >= HeapSnapshots.SizeOf(heap, t))
  {
    var q := HeapSnapshots.Query(heap, ReportedTypes);
    HeapSnapshots.QueryIsTopTypes(heap, ReportedTypes);
    TopK.ReverseOfDescIsAsc(q, HeapSnapshots.StatsSize);
    BreakdownRows(heap, q);
    BreakdownKeepsBiggest(heap, q);
  }

  lemma BreakdownRows(heap: seq<HeapSnapshots.HeapObject>, q: seq<HeapSnapshots.TypeStats>)
    requires HeapSnapshots.DistinctNames(q)
    requires forall i :: 0 <= i < |q| ==>
      q[i] == HeapSnapshots.Stats(heap, q[i].typeName) && HeapSnapshots.HasLiveType(heap, q[i].typeName)
    ensures var rows := TopK.Reverse(q);
      && HeapSnapshots.DistinctNames(rows)
      && (forall i :: 0 <= i < |rows| ==>
            HeapSnapshots.HasLiveType(heap, rows[i].typeName) && rows[i].size == HeapSnapshots.SizeOf(heap, rows[i].typeName))
  {
    var rows := TopK.Reverse(q);
    forall i, j | 0 <= i < j < |rows| ensures rows[i].typeName != rows[j].typeName {
      assert rows[i] == q[|q| - 1 - i] && rows[j] == q[|q| - 1 - j];
    }
    forall i | 0 <= i < |rows|
      ensures HeapSnapshots.HasLiveType(heap, rows[i].typeName) && rows[i].size == HeapSnapshots.SizeOf(heap, rows[i].typeName)
    {
      assert rows[i] == q[|q| - 1 - i];
    }
  }

  lemma BreakdownKeepsBiggest(heap: seq<HeapSnapshots.HeapObject>, q: seq<HeapSnapshots.TypeStats>)
    requires forall i, t :: 0 <= i < |q| && HeapSnapshots.HasLiveType(heap, t) && !HeapSnapshots.HasRow(q, t) ==>
      q[i].size >= HeapSnapshots.SizeOf(heap, t)
    ensures var rows := TopK.Reverse(q);
      forall i, t :: 0 <= i < |rows| && HeapSnapshots.HasLiveType(heap, t) && !HeapSnapshots.HasRow(rows, t) ==>
        rows[i].size >= HeapSnapshots.SizeOf(heap, t)
  {
    var rows := TopK.Reverse(q);
    forall i, t | 0 <= i < |rows| && HeapSnapshots.HasLiveType(heap, t) && !HeapSnapshots.HasRow(rows, t)
      ensures rows[i].size >= HeapSnapshots.SizeOf(heap, t)
    {
      // a type missing from the reversed rows is missing from the query too
      HeapSnapshots.HasKeyIsHasRow(rows, t);
      HeapSnapshots.HasKeyIsHasRow(q, t);
      TopK.ReverseHasKey(q, HeapSnapshots.StatsName, t);
      assert rows[i] == q[|q| - 1 - i];
    }
  }

  // ---------------------------------------------------------------------
  // The monitor

  class AllocMonitor {
    var totalAllocs: int
    var totalAllocatedBytes: int
    var allocsPerType: map<string, int>

    function State(): Tallies
      reads this
    {
      Tallies(totalAllocs, totalAllocatedBytes, allocsPerType)
    }

    ghost predicate Valid()
      reads this
    {
      Consistent(State())
    }

    constructor ()
      ensures Valid() && State() == NoTallies
    {
      totalAllocs := 0;
      totalAllocatedBytes := 0;
      allocsPerType := map[];
      assert SumValues(map[]) == 0;
    }

    /** `OnEventOccurred(@event)`. */
    method OnEventOccurred(e: TraceEvent)
      requires Valid()
      modifies this
      ensures Valid()
      ensures State() == Record(old(State()), e)
      ensures !e.AllocationTick? ==> unchanged(this)
      ensures e.AllocationTick? ==>
        && totalAllocs == old(totalAllocs) + 1
        && totalAllocatedBytes == old(totalAllocatedBytes) + e.allocationAmount
        && allocsPerType.Keys == old(allocsPerType).Keys + {e.typeName}
        && allocsPerType[e.typeName] == (if e.typeName in old(allocsPerType) then old(allocsPerType)[e.typeName] + 1 else 1)
        && forall u :: u in old(allocsPerType) && u != e.typeName ==> allocsPerType[u] == old(allocsPerType)[u]
    {
      if !e.AllocationTick? {
        return;
      }
      RecordKeepsConsistent(State(), e);
      totalAllocs := totalAllocs + 1;
      totalAllocatedBytes := totalAllocatedBytes + e.allocationAmount;
      if e.typeName !in allocsPerType {
        allocsPerType := allocsPerType[e.typeName := 1];
      } else {
        var typeAllocations := allocsPerType[e.typeName];
        allocsPerType := allocsPerType[e.typeName := typeAllocations + 1];
      }
    }

    /**
     * `OnIntensiveSamplingDone()`: the totals line, the per-type report and
     * the heap breakdown of `heap`, then everything back to zero.
     */
    method OnIntensiveSamplingDone(heap: seq<HeapSnapshots.HeapObject>)
      returns (allocs: int, bytes: int, report: seq<TypeCount>, breakdown: seq<HeapSnapshots.TypeStats>)
      requires Valid()
      modifies this
      ensures allocs == old(totalAllocs) && bytes == old(totalAllocatedBytes)
      ensures IsAllocationReport(report, old(allocsPerType))
      ensures breakdown == HeapBreakdown(heap)
      ensures Valid() && State() == NoTallies
    {
      allocs, bytes := totalAllocs, totalAllocatedBytes;
      report := TopAllocatingTypes(allocsPerType);
      breakdown := HeapBreakdown(heap);
      totalAllocs := 0;
      totalAllocatedBytes := 0;
      allocsPerType := map[];
      assert SumValues(map[]) == 0;
    }
  }

  // ---------------------------------------------------------------------
  // Memory units

  /** An unsigned 64-bit value. */
  type ULong = x: int | 0 <= x < 0x1_0000_0000_0000_0000

  datatype MemoryUnit = KB | MB | GB

  function Scale(u: MemoryUnit): int
  {
    match u
    case KB => 1024
    case MB => 1024 * 1024
    case GB => 1024 * 1024 * 1024
  }

  /** The text `ToMemoryUnits` prints: a whole number of bytes, or an amount in a unit. */
  datatype MemoryText = InBytes(bytes: int) | Scaled(amount: real, unit: MemoryUnit)

  /**
   * `value.ToMemoryUnits()`: bytes below 1 KB, KB below 1 MB, MB below 1 GB,
   * GB from there; the scaled amount is `value` divided by the unit.
   */
  function ToMemoryUnits(value: ULong): (r: MemoryText)
    ensures r.InBytes? <==> value < 1024
    ensures r.InBytes? ==> r.bytes == value
    ensures r.Scaled? ==> r.amount * Scale(r.unit) as real == value as real
    ensures r.Scaled? && r.unit == KB <==> 1024 <= value < 1024 * 1024
    ensures r.Scaled? && r.unit == MB <==> 1024 * 1024 <= value < 1024 * 1024 * 1024
    ensures r.Scaled? && r.unit == GB <==> 1024 * 1024 * 1024 <= value
  {
    if value < 1024 then InBytes(value)
    else if value < 1024 * 1024 then Scaled(value as real / 1024.0, KB)
    else if value < 1024 * 1024 * 1024 then Scaled(value as real / (1024.0 * 1024.0), MB)
    else Scaled(value as real / (1024.0 * 1024.0 * 1024.0), GB)
  }

  /**
   * The unit is the largest that keeps the amount at 1 or more, and below
   * GB the amount stays under 1024: the printed number never needs the next
   * unit up.
   */
  lemma ScaledAmountInRange(value: ULong)
    ensures var r := ToMemoryUnits(value);
      r.Scaled? ==> 1.0 <= r.amount && (r.unit != GB ==> r.amount < 1024.0)
  {
    var r := ToMemoryUnits(value);
    if r.Scaled? {
      var s := Scale(r.unit) as real;
      assert r.amount * s == value as real;
      assert s <= value as real;
      if r.unit != GB {
        assert value as real < 1024.0 * s;
      }
    }
  }
}
