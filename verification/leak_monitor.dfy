/**
 * `LeakMonitor` and `HeapSnapshot` (Gatos.Monitor/LeakMonitor.cs).
 *
 * A heap snapshot groups the live objects of the heap by type name, sums
 * their sizes and counts them, orders the groups by total size (heaviest
 * first, ties in first-occurrence order) and keeps the first `topTypes` of
 * them in two dictionaries, size by type and count by type. `Diff` compares a
 * baseline snapshot with a current one type by type.
 *
 * The heap is given as the sequence of its objects, each with its type name
 * (`None` where the runtime reports no type), its size and whether its type
 * is the free-space marker. Attaching to the process is outside the model.
 */
module HeapSnapshots {
  import opened Wrappers
  import TopK

  /** Snapshots taken per intensive run. */
  const SnapshotCount: nat := 3
  /** Types kept per snapshot. */
  const TopTypes: int := 20

  datatype HeapObject = HeapObject(typeName: Option<string>, size: nat, isFree: bool)

  /** The query's filter: `type != null && !type.IsFree`. */
  predicate IsCounted(o: HeapObject)
  {
    o.typeName.Some? && !o.isFree
  }

  /** Some counted object of the heap has type `t`. */
  ghost predicate HasLiveType(heap: seq<HeapObject>, t: string)
  {
    exists i :: 0 <= i < |heap| && IsCounted(heap[i]) && heap[i].typeName.value == t
  }

  /** The group keys, each once, in the order the types first occur. */
  function LiveTypeNames(heap: seq<HeapObject>): (names: seq<string>)
    ensures forall i, j :: 0 <= i < j < |names| ==> names[i] != names[j]
    ensures forall t :: t in names <==> HasLiveType(heap, t)
  {
    if heap == [] then []
    else
      var init := heap[..|heap| - 1];
      var o := heap[|heap| - 1];
      var names := LiveTypeNames(init);
      assert forall t :: HasLiveType(heap, t) <==> HasLiveType(init, t) || (IsCounted(o) && o.typeName.value == t) by {
        forall t ensures HasLiveType(heap, t) <==> HasLiveType(init, t) || (IsCounted(o) && o.typeName.value == t) {
          if HasLiveType(init, t) {
            var i :| 0 <= i < |init| && IsCounted(init[i]) && init[i].typeName.value == t;
            assert heap[i] == init[i];
          }
          if HasLiveType(heap, t) {
            var i :| 0 <= i < |heap| && IsCounted(heap[i]) && heap[i].typeName.value == t;
            if i < |init| {
              assert heap[i] == init[i];
            }
          }
        }
      }
      if IsCounted(o) && o.typeName.value !in names then names + [o.typeName.value] else names
  }

  /** `g.Sum(v => (long)v)`: total size of the counted objects of type `t`. */
  function SizeOf(heap: seq<HeapObject>, t: string): int
  {
    if heap == [] then 0
    else
      var o := heap[|heap| - 1];
      SizeOf(heap[..|heap| - 1], t) + (if IsCounted(o) && o.typeName.value == t then o.size else 0)
  }

  /** `g.Count()`: number of counted objects of type `t`. */
  function CountOf(heap: seq<HeapObject>, t: string): nat
  {
    if heap == [] then 0
    else
      var o := heap[|heap| - 1];
      CountOf(heap[..|heap| - 1], t) + (if IsCounted(o) && o.typeName.value == t then 1 else 0)
  }

  /** One row of the query: `new { Type, Size, Count }`. */
  datatype TypeStats = TypeStats(typeName: string, size: int, count: int)

  function StatsName(g: TypeStats): string { g.typeName }

  function StatsSize(g: TypeStats): int { g.size }

  function Stats(heap: seq<HeapObject>, t: string): TypeStats
  {
    TypeStats(t, SizeOf(heap, t), CountOf(heap, t))
  }

  /** `group size by type.Name`: one row per type, in first-occurrence order. */
  function Groups(heap: seq<HeapObject>): (groups: seq<TypeStats>)
    // one row per type name
    ensures DistinctNames(groups)
    // exactly the types of the live objects have a row
    ensures forall t :: HasRow(groups, t) <==> HasLiveType(heap, t)
    // each row holds the total size and the number of the live objects of its type
    ensures forall i :: 0 <= i < |groups| ==>
      groups[i].size == SizeOf(heap, groups[i].typeName) && groups[i].count == CountOf(heap, groups[i].typeName)
  {
    var names := LiveTypeNames(heap);
    var groups := seq(|names|, i requires 0 <= i < |names| => Stats(heap, names[i]));
    assert forall t :: HasRow(groups, t) <==> t in names by {
      forall t ensures HasRow(groups, t) <==> t in names {
        if t in names {
          var j :| 0 <= j < |names| && names[j] == t;
          assert groups[j].typeName == t;
        }
      }
    }
    groups
  }

  /** The whole query of the constructor: `orderby totalSize descending` then `Take(topTypes)`. */
  function Query(heap: seq<HeapObject>, topTypes: int): seq<TypeStats>
  {
    TopK.Top(Groups(heap), topTypes, StatsSize)
  }

  /** No two rows have the same type name. */
  ghost predicate DistinctNames(q: seq<TypeStats>)
  {
    forall i, j :: 0 <= i < j < |q| ==> q[i].typeName != q[j].typeName
  }

  /** Some row has type name `t`. */
  ghost predicate HasRow(q: seq<TypeStats>, t: string)
  {
    exists j :: 0 <= j < |q| && q[j].typeName == t
  }

  lemma GroupsHaveDistinctNames(heap: seq<HeapObject>)
    ensures DistinctNames(Groups(heap))
    ensures TopK.DistinctKeys(Groups(heap), StatsName)
  {
    var groups, names := Groups(heap), LiveTypeNames(heap);
    forall i, j | 0 <= i < j < |groups| ensures groups[i].typeName != groups[j].typeName {
      assert groups[i].typeName == names[i] && groups[j].typeName == names[j];
    }
  }

  lemma DistinctKeysAreDistinctNames(q: seq<TypeStats>)
    requires TopK.DistinctKeys(q, StatsName)
    ensures DistinctNames(q)
  {
    forall i, j | 0 <= i < j < |q| ensures q[i].typeName != q[j].typeName {
      assert StatsName(q[i]) != StatsName(q[j]);
    }
  }

  /**
   * The query keeps min(topTypes, number of live types) rows, one per type,
   * heaviest first; each row holds the total size and the object count of its
   * type; and no type it drops is heavier than a type it keeps.
   */
  lemma QueryIsTopTypes(heap: seq<HeapObject>, topTypes: int)
    ensures var q := Query(heap, topTypes);
      && |q| == TopK.Clamp(topTypes, |LiveTypeNames(heap)|)
      && TopK.SortedDesc(q, StatsSize)
      && DistinctNames(q)
      && (forall i :: 0 <= i < |q| ==> q[i] == Stats(heap, q[i].typeName) && HasLiveType(heap, q[i].typeName))
      && (forall i, t :: 0 <= i < |q| && HasLiveType(heap, t) && !HasRow(q, t) ==> q[i].size >= SizeOf(heap, t))
  {
    var groups := Groups(heap);
    var names := LiveTypeNames(heap);
    var q := Query(heap, topTypes);
    GroupsHaveDistinctNames(heap);
    TopK.TopKeepsHeaviest(groups, topTypes, StatsSize, StatsName);
    DistinctKeysAreDistinctNames(q);
    forall i | 0 <= i < |q| ensures q[i] == Stats(heap, q[i].typeName) && HasLiveType(heap, q[i].typeName) {
      RowOfGroups(heap, q[i]);
    }
    forall i, t | 0 <= i < |q| && HasLiveType(heap, t) && !HasRow(q, t)
      ensures q[i].size >= SizeOf(heap, t)
    {
      assert t in names;
      var k :| 0 <= k < |names| && names[k] == t;
      var y := groups[k];
      assert y in groups && StatsName(y) == t;
      HasKeyIsHasRow(q, t);
      assert StatsSize(q[i]) >= StatsSize(y);
    }
  }

  lemma QueryHasDistinctNames(heap: seq<HeapObject>, topTypes: int)
    ensures DistinctNames(Query(heap, topTypes))
  {
    QueryIsTopTypes(heap, topTypes);
  }

  lemma HasKeyIsHasRow(q: seq<TypeStats>, t: string)
    ensures TopK.HasKey(q, StatsName, t) <==> HasRow(q, t)
  {
    if TopK.HasKey(q, StatsName, t) {
      var j :| 0 <= j < |q| && StatsName(q[j]) == t;
      assert q[j].typeName == t;
    }
    if HasRow(q, t) {
      var j :| 0 <= j < |q| && q[j].typeName == t;
      assert StatsName(q[j]) == t;
    }
  }

  lemma RowOfGroups(heap: seq<HeapObject>, g: TypeStats)
    requires g in Groups(heap)
    ensures g == Stats(heap, g.typeName) && HasLiveType(heap, g.typeName)
  {
    var groups, names := Groups(heap), LiveTypeNames(heap);
    var k :| 0 <= k < |groups| && groups[k] == g;
    assert names[k] in names;
  }

  /** The dictionary the constructor's `SizeByType.Add` calls fill, in query order. */
  function SizeTable(q: seq<TypeStats>): map<string, int>
  {
    if q == [] then map[] else SizeTable(q[..|q| - 1])[q[|q| - 1].typeName := q[|q| - 1].size]
  }

  /** The dictionary the constructor's `CountByType.Add` calls fill, in query order. */
  function CountTable(q: seq<TypeStats>): map<string, int>
  {
    if q == [] then map[] else CountTable(q[..|q| - 1])[q[|q| - 1].typeName := q[|q| - 1].count]
  }

  /** The tables have the same keys: the type names of the rows. */
  lemma {:induction false} TableKeys(q: seq<TypeStats>)
    ensures SizeTable(q).Keys == CountTable(q).Keys
    ensures forall t :: t in SizeTable(q) <==> HasRow(q, t)
  {
    if q != [] {
      var n := |q| - 1;
      TableKeys(q[..n]);
      forall t ensures t in SizeTable(q) <==> HasRow(q, t) {
        if HasRow(q[..n], t) {
          var j :| 0 <= j < n && q[..n][j].typeName == t;
          assert q[j].typeName == t;
        }
        if HasRow(q, t) && t != q[n].typeName {
          var j :| 0 <= j < |q| && q[j].typeName == t;
          assert q[..n][j].typeName == t;
        }
      }
    }
  }

  lemma DistinctInit(q: seq<TypeStats>)
    requires q != [] && DistinctNames(q)
    ensures DistinctNames(q[..|q| - 1])
    ensures !HasRow(q[..|q| - 1], q[|q| - 1].typeName)
  {
    var init := q[..|q| - 1];
    forall i, j | 0 <= i < j < |init| ensures init[i].typeName != init[j].typeName {
      assert init[i] == q[i] && init[j] == q[j];
    }
    forall j | 0 <= j < |init| ensures init[j].typeName != q[|q| - 1].typeName {
      assert init[j] == q[j];
    }
  }

  /** With distinct type names, the row at `i` is not yet in the tables of the rows before it. */
  lemma NextRowIsNew(q: seq<TypeStats>, i: nat)
    requires i < |q| && DistinctNames(q)
    ensures q[i].typeName !in SizeTable(q[..i]) && q[i].typeName !in CountTable(q[..i])
  {
    TableKeys(q[..i]);
    forall j | 0 <= j < i ensures q[..i][j].typeName != q[i].typeName {
      assert q[..i][j] == q[j];
    }
  }

  /** With distinct type names, the tables have one entry per row. */
  lemma {:induction false} TableSize(q: seq<TypeStats>)
    requires DistinctNames(q)
    ensures |SizeTable(q)| == |q|
  {
    if q != [] {
      var init := q[..|q| - 1];
      DistinctInit(q);
      TableSize(init);
      TableKeys(init);
    }
  }

  /** With distinct type names, every row is in the tables with its own size and count. */
  lemma {:induction false} TablesHoldRows(q: seq<TypeStats>)
    requires DistinctNames(q)
    ensures forall i :: 0 <= i < |q| ==> q[i].typeName in SizeTable(q) && q[i].typeName in CountTable(q)
    ensures forall i :: 0 <= i < |q| ==> SizeTable(q)[q[i].typeName] == q[i].size && CountTable(q)[q[i].typeName] == q[i].count
  {
    if q != [] {
      var n := |q| - 1;
      var init := q[..n];
      DistinctInit(q);
      TablesHoldRows(init);
      forall i | 0 <= i < n
        ensures q[i].typeName in SizeTable(q) && q[i].typeName in CountTable(q)
        ensures SizeTable(q)[q[i].typeName] == q[i].size && CountTable(q)[q[i].typeName] == q[i].count
      {
        assert init[i] == q[i];
        assert q[i].typeName != q[n].typeName;
      }
    }
  }

  /**
   * What a snapshot of `heap` holds: the same types in both dictionaries, as
   * many as `Take(topTypes)` keeps, each with the total size and the count of
   * its live objects, and no live type left out is heavier than one kept.
   */
  ghost predicate IsTopTypesOf(sizes: map<string, int>, counts: map<string, int>, heap: seq<HeapObject>, topTypes: int)
  {
    && sizes.Keys == counts.Keys
    && |sizes| == TopK.Clamp(topTypes, |LiveTypeNames(heap)|)
    && (forall t :: t in sizes ==> HasLiveType(heap, t) && sizes[t] == SizeOf(heap, t) && counts[t] == CountOf(heap, t))
    && (forall t, u :: t in sizes && HasLiveType(heap, u) && u !in sizes ==> sizes[t] >= SizeOf(heap, u))
  }

  lemma SnapshotTablesAreTopTypes(heap: seq<HeapObject>, topTypes: int)
    ensures IsTopTypesOf(SizeTable(Query(heap, topTypes)), CountTable(Query(heap, topTypes)), heap, topTypes)
  {
    var q := Query(heap, topTypes);
    QueryIsTopTypes(heap, topTypes);
    TablesHoldRows(q);
    TableSize(q);
    var sizes, counts := SizeTable(q), CountTable(q);
    TableKeys(q);
    forall t | t in sizes ensures HasLiveType(heap, t) && sizes[t] == SizeOf(heap, t) && counts[t] == CountOf(heap, t) {
      var j :| 0 <= j < |q| && q[j].typeName == t;
    }
    forall t, u | t in sizes && HasLiveType(heap, u) && u !in sizes ensures sizes[t] >= SizeOf(heap, u) {
      var j :| 0 <= j < |q| && q[j].typeName == t;
    }
  }

  /** A dictionary entry read as 0 when the key is absent. */
  function ValueOr0(m: map<string, int>, t: string): int
  {
    if t in m then m[t] else 0
  }

  /**
   * `Diff` on one pair of dictionaries: the types of both sides, each with
   * current minus baseline, a side that lacks the type counting as 0. The
   * body is the source's three disjoint groups.
   */
  function DiffTable(baseline: map<string, int>, current: map<string, int>): (delta: map<string, int>)
    ensures delta.Keys == baseline.Keys + current.Keys
    ensures forall t :: t in delta ==> delta[t] == ValueOr0(current, t) - ValueOr0(baseline, t)
  {
    var inBoth := map t | t in baseline.Keys * current.Keys :: current[t] - baseline[t];
    var onlyBaseline := map t | t in baseline.Keys - current.Keys :: -baseline[t];
    var onlyCurrent := map t | t in current.Keys - baseline.Keys :: current[t];
    inBoth + onlyBaseline + onlyCurrent
  }

  /** Comparing a snapshot with itself shows no change for any of its types. */
  lemma DiffWithItselfIsZero(m: map<string, int>)
    ensures DiffTable(m, m).Keys == m.Keys
    ensures forall t :: t in DiffTable(m, m) ==> DiffTable(m, m)[t] == 0
  {
  }

  /** Adding the delta to the baseline gives the current value, for every type of either side. */
  lemma DiffRoundTrip(baseline: map<string, int>, current: map<string, int>)
    ensures forall t :: t in baseline.Keys + current.Keys ==>
      ValueOr0(baseline, t) + DiffTable(baseline, current)[t] == ValueOr0(current, t)
  {
  }

  /** `r` holds the deltas of exactly the types in `done`. */
  ghost predicate DeltasOn(r: map<string, int>, done: set<string>, baseline: map<string, int>, current: map<string, int>)
  {
    r.Keys == done && forall t :: t in r ==> r[t] == ValueOr0(current, t) - ValueOr0(baseline, t)
  }

  class HeapSnapshot {
    /**
     * `SizeByType` and `CountByType`, as stored dictionaries. (As written in
     * the source they are expression-bodied and so always empty; see
     * `AsWrittenSizeByType`.)
     */
    var sizeByType: map<string, int>
    var countByType: map<string, int>

    ghost predicate Valid()
      reads this
    {
      sizeByType.Keys == countByType.Keys
    }

    /** `new HeapSnapshot(heap, topTypes)`. */
    constructor (heap: seq<HeapObject>, topTypes: int)
      ensures Valid()
      ensures sizeByType == SizeTable(Query(heap, topTypes))
      ensures countByType == CountTable(Query(heap, topTypes))
      ensures IsTopTypesOf(sizeByType, countByType, heap, topTypes)
    {
      var query := Query(heap, topTypes);
      QueryHasDistinctNames(heap, topTypes);
      var sizes: map<string, int> := map[];
      var counts: map<string, int> := map[];
      for i := 0 to |query|
        invariant sizes == SizeTable(query[..i]) && counts == CountTable(query[..i])
      {
        // Dictionary.Add throws on a key already present: every type name is new here
        NextRowIsNew(query, i);
        assert query[i].typeName !in sizes && query[i].typeName !in counts;
        assert query[..i + 1][..i] == query[..i];
        sizes := sizes[query[i].typeName := query[i].size];
        counts := counts[query[i].typeName := query[i].count];
      }
      assert query[..|query|] == query;
      SnapshotTablesAreTopTypes(heap, topTypes);
      sizeByType := sizes;
      countByType := counts;
    }

    /** The private constructor `Diff` starts from. */
    constructor Empty()
      ensures Valid() && sizeByType == map[] && countByType == map[]
    {
      sizeByType := map[];
      countByType := map[];
    }

    /**
     * `HeapSnapshot.Diff(baseline, current)`: three loops, over the types in
     * both, only in the baseline and only in the current snapshot, each
     * adding one entry per type to both dictionaries of a new snapshot.
     */
    static method Diff(baseline: HeapSnapshot, current: HeapSnapshot) returns (result: HeapSnapshot)
      requires baseline.Valid() && current.Valid()
      ensures fresh(result) && result.Valid()
      ensures result.sizeByType == DiffTable(baseline.sizeByType, current.sizeByType)
      ensures result.countByType == DiffTable(baseline.countByType, current.countByType)
    {
      var sizes, counts := DiffTables(baseline.sizeByType, current.sizeByType, baseline.countByType, current.countByType);
      result := new HeapSnapshot.Empty();
      result.sizeByType, result.countByType := sizes, counts;
    }

    /** The body of `Diff` on the two snapshots' dictionaries: sizes `b`, `c` and counts `bc`, `cc`. */
    static method DiffTables(b: map<string, int>, c: map<string, int>, bc: map<string, int>, cc: map<string, int>)
      returns (sizes: map<string, int>, counts: map<string, int>)
      requires b.Keys == bc.Keys && c.Keys == cc.Keys
      ensures sizes == DiffTable(b, c) && counts == DiffTable(bc, cc)
    {
      // the two dictionaries of the new snapshot
      sizes := map[];
      counts := map[];

      var baselineTypes := b.Keys;
      var currentTypes := c.Keys;
      baselineTypes := baselineTypes * currentTypes;  // IntersectWith
      sizes, counts := AddInBoth(baselineTypes, b, c, bc, cc, sizes, counts, {});

      baselineTypes := b.Keys;
      baselineTypes := baselineTypes - currentTypes;  // ExceptWith
      sizes, counts := AddOnlyInBaseline(baselineTypes, b, c, bc, cc, sizes, counts, b.Keys * c.Keys);
      assert (b.Keys * c.Keys) + (b.Keys - c.Keys) == b.Keys;

      baselineTypes := b.Keys;
      currentTypes := currentTypes - baselineTypes;  // ExceptWith
      sizes, counts := AddOnlyInCurrent(currentTypes, b, c, bc, cc, sizes, counts, b.Keys);

      assert b.Keys + (c.Keys - b.Keys) == b.Keys + c.Keys;
      DeltasOnIsDiff(sizes, b, c);
      DeltasOnIsDiff(counts, bc, cc);
    }

    /** The first loop of `Diff`: one entry per type in both snapshots. */
    static method AddInBoth(types: set<string>, b: map<string, int>, c: map<string, int>,
                            bc: map<string, int>, cc: map<string, int>,
                            sizes0: map<string, int>, counts0: map<string, int>, ghost done: set<string>)
      returns (sizes: map<string, int>, counts: map<string, int>)
      requires types <= b.Keys * c.Keys && types <= bc.Keys * cc.Keys && done !! types
      requires DeltasOn(sizes0, done, b, c) && DeltasOn(counts0, done, bc, cc)
      ensures DeltasOn(sizes, done + types, b, c) && DeltasOn(counts, done + types, bc, cc)
    {
      sizes, counts := sizes0, counts0;
      var rest := types;
      ghost var added := done;
      while rest != {}
        invariant rest <= types && added == done + (types - rest)
        invariant DeltasOn(sizes, added, b, c) && DeltasOn(counts, added, bc, cc)
        decreases rest
      {
        var t :| t in rest;
        // Dictionary.Add throws on a key already present: none is here
        assert t !in sizes && t !in counts;
        DeltasOnAdd(sizes, added, b, c, t);
        DeltasOnAdd(counts, added, bc, cc, t);
        sizes := sizes[t := c[t] - b[t]];
        counts := counts[t := cc[t] - bc[t]];
        added := added + {t};
        rest := rest - {t};
      }
    }

    /** The second loop of `Diff`: one entry per type only in the baseline. */
    static method AddOnlyInBaseline(types: set<string>, b: map<string, int>, c: map<string, int>,
                                    bc: map<string, int>, cc: map<string, int>,
                                    sizes0: map<string, int>, counts0: map<string, int>, ghost done: set<string>)
      returns (sizes: map<string, int>, counts: map<string, int>)
      requires types <= b.Keys - c.Keys && types <= bc.Keys - cc.Keys && done !! types
      requires DeltasOn(sizes0, done, b, c) && DeltasOn(counts0, done, bc, cc)
      ensures DeltasOn(sizes, done + types, b, c) && DeltasOn(counts, done + types, bc, cc)
    {
      sizes, counts := sizes0, counts0;
      var rest := types;
      ghost var added := done;
      while rest != {}
        invariant rest <= types && added == done + (types - rest)
        invariant DeltasOn(sizes, added, b, c) && DeltasOn(counts, added, bc, cc)
        decreases rest
      {
        var t :| t in rest;
        assert t !in sizes && t !in counts;
        DeltasOnAdd(sizes, added, b, c, t);
        DeltasOnAdd(counts, added, bc, cc, t);
        sizes := sizes[t := -b[t]];
        counts := counts[t := -bc[t]];
        added := added + {t};
        rest := rest - {t};
      }
    }

    /** The third loop of `Diff`: one entry per type only in the current snapshot. */
    static method AddOnlyInCurrent(types: set<string>, b: map<string, int>, c: map<string, int>,
                                   bc: map<string, int>, cc: map<string, int>,
                                   sizes0: map<string, int>, counts0: map<string, int>, ghost done: set<string>)
      returns (sizes: map<string, int>, counts: map<string, int>)
      requires types <= c.Keys - b.Keys && types <= cc.Keys - bc.Keys && done !! types
      requires DeltasOn(sizes0, done, b, c) && DeltasOn(counts0, done, bc, cc)
      ensures DeltasOn(sizes, done + types, b, c) && DeltasOn(counts, done + types, bc, cc)
    {
      sizes, counts := sizes0, counts0;
      var rest := types;
      ghost var added := done;
      while rest != {}
        invariant rest <= types && added == done + (types - rest)
        invariant DeltasOn(sizes, added, b, c) && DeltasOn(counts, added, bc, cc)
        decreases rest
      {
        var t :| t in rest;
        assert t !in sizes && t !in counts;
        DeltasOnAdd(sizes, added, b, c, t);
        DeltasOnAdd(counts, added, bc, cc, t);
        sizes := sizes[t := c[t]];
        counts := counts[t := cc[t]];
        added := added + {t};
        rest := rest - {t};
      }
    }
  }

  lemma DeltasOnAdd(r: map<string, int>, done: set<string>, baseline: map<string, int>, current: map<string, int>, t: string)
    requires DeltasOn(r, done, baseline, current) && t !in done
    ensures DeltasOn(r[t := ValueOr0(current, t) - ValueOr0(baseline, t)], done + {t}, baseline, current)
  {
  }

  lemma DeltasOnIsDiff(r: map<string, int>, baseline: map<string, int>, current: map<string, int>)
    requires DeltasOn(r, baseline.Keys + current.Keys, baseline, current)
    ensures r == DiffTable(baseline, current)
  {
    var d := DiffTable(baseline, current);
    assert r.Keys == d.Keys;
    forall t | t in r ensures r[t] == d[t] {
    }
  }

  /**
   * `LeakMonitor.OnIntensiveSamplingStart`: `SnapshotCount` snapshots of the
   * top `TopTypes` types, the i-th of the heap as it is at the i-th snapshot
   * (`heapAt(i)`). The sleep between snapshots is outside the model; the
   * comparison of the snapshots is a TODO in the source and is not done.
   */
  method OnIntensiveSamplingStart(heapAt: nat -> seq<HeapObject>) returns (snapshots: seq<HeapSnapshot>)
    ensures |snapshots| == SnapshotCount
    ensures forall i :: 0 <= i < SnapshotCount ==> fresh(snapshots[i]) && IsSnapshotOf(snapshots[i], heapAt(i))
  {
    ghost var tablesAt := k => TablesOfHeap(heapAt(k));  // what the k-th snapshot is to hold
    snapshots := [];
    for i := 0 to SnapshotCount
      invariant |snapshots| == i
      invariant forall k :: 0 <= k < i ==> fresh(snapshots[k]) && snapshots[k].Valid()
      invariant TablesOf(snapshots) == Prefix(tablesAt, i)
    {
      var snapshot := TakeSnapshot(heapAt(i));
      ghost var before := snapshots;
      snapshots := snapshots + [snapshot];
      assert snapshots[..i] == before;
    }
    forall i | 0 <= i < SnapshotCount ensures IsSnapshotOf(snapshots[i], heapAt(i)) {
      PrefixAt(tablesAt, SnapshotCount, i);
      TablesOfAt(snapshots, i);
      HoldsTopTypes(snapshots[i], heapAt(i));
    }
  }

  /** The first `n` values of `f`. */
  ghost function Prefix<T>(f: nat -> T, n: nat): seq<T>
  {
    if n == 0 then [] else Prefix(f, n - 1) + [f(n - 1)]
  }

  lemma {:induction false} PrefixAt<T>(f: nat -> T, n: nat, i: nat)
    requires i < n
    ensures |Prefix(f, n)| == n && Prefix(f, n)[i] == f(i)
  {
    if i < n - 1 {
      PrefixAt(f, n - 1, i);
    } else if n > 1 {
      PrefixAt(f, n - 1, 0);
    }
  }

  /** The size and count tables of the top `TopTypes` types of `heap`. */
  ghost function TablesOfHeap(heap: seq<HeapObject>): (map<string, int>, map<string, int>)
  {
    (SizeTable(Query(heap, TopTypes)), CountTable(Query(heap, TopTypes)))
  }

  /** The tables the snapshots hold. */
  ghost function TablesOf(snapshots: seq<HeapSnapshot>): seq<(map<string, int>, map<string, int>)>
    reads set s | s in snapshots
  {
    if snapshots == [] then [] else TablesOf(snapshots[..|snapshots| - 1]) + [(snapshots[|snapshots| - 1].sizeByType, snapshots[|snapshots| - 1].countByType)]
  }

  lemma {:induction false} TablesOfAt(snapshots: seq<HeapSnapshot>, i: nat)
    requires i < |snapshots|
    ensures |TablesOf(snapshots)| == |snapshots|
    ensures TablesOf(snapshots)[i] == (snapshots[i].sizeByType, snapshots[i].countByType)
  {
    var n := |snapshots|;
    if i < n - 1 {
      TablesOfAt(snapshots[..n - 1], i);
      assert snapshots[..n - 1][i] == snapshots[i];
    } else if n > 1 {
      TablesOfAt(snapshots[..n - 1], 0);
    }
  }

  /** `new HeapSnapshot(runtime.Heap, TopTypes)`. */
  method TakeSnapshot(heap: seq<HeapObject>) returns (snapshot: HeapSnapshot)
    ensures fresh(snapshot) && snapshot.Valid()
    ensures (snapshot.sizeByType, snapshot.countByType) == TablesOfHeap(heap)
  {
    snapshot := new HeapSnapshot(heap, TopTypes);
  }

  /** `s` holds the top `TopTypes` types of `heap`, by size, with their sizes and counts. */
  ghost predicate IsSnapshotOf(s: HeapSnapshot, heap: seq<HeapObject>)
    reads s
  {
    && s.Valid()
    && s.sizeByType == SizeTable(Query(heap, TopTypes))
    && s.countByType == CountTable(Query(heap, TopTypes))
    && IsTopTypesOf(s.sizeByType, s.countByType, heap, TopTypes)
  }

  lemma HoldsTopTypes(s: HeapSnapshot, heap: seq<HeapObject>)
    requires s.Valid()
    requires s.sizeByType == SizeTable(Query(heap, TopTypes)) && s.countByType == CountTable(Query(heap, TopTypes))
    ensures IsSnapshotOf(s, heap)
  {
    SnapshotTablesAreTopTypes(heap, TopTypes);
  }

  /**
   * As written, `CountByType` and `SizeByType` are expression-bodied
   * properties: each read returns a new, empty dictionary, the constructor's
   * `Add` calls fill dictionaries nobody keeps, and every later read of a
   * snapshot sees no type at all.
   */
  function AsWrittenSizeByType(heap: seq<HeapObject>, topTypes: int): map<string, int>
  {
    map[]
  }

  /** One live 100-byte `Foo`: the snapshot as written loses it, the stored-dictionary snapshot keeps it. */
  lemma AsWrittenSnapshotLosesType()
    ensures AsWrittenSizeByType([HeapObject(Some("Foo"), 100, false)], TopTypes) == map[]
    ensures SizeTable(Query([HeapObject(Some("Foo"), 100, false)], TopTypes)) == map["Foo" := 100]
  {
    var heap := [HeapObject(Some("Foo"), 100, false)];
    assert heap[..0] == [];
    assert LiveTypeNames(heap) == ["Foo"];
    assert SizeOf(heap, "Foo") == 100;
    var g := Groups(heap);
    assert g == [TypeStats("Foo", 100, 1)];
    assert g[1..] == [];
    assert TopK.SortDesc(g, StatsSize) == g;
    assert Query(heap, TopTypes) == g;
    assert g[..0] == [];
  }
}
