/**
 * The LINQ pipeline `OrderByDescending(weight).Take(k)` (and the `Reverse()`
 * that follows it in the reports), shared by the heap snapshot, the
 * allocation report and the heap breakdown.
 *
 * `OrderByDescending` is a stable sort: entries of equal weight keep their
 * input order. It is modelled as an insertion sort that places each entry in
 * front of the entries of equal weight that came after it.
 */
module TopK {

  /** Heaviest first. */
  ghost predicate SortedDesc<T>(s: seq<T>, w: T -> int)
  {
    forall i, j :: 0 <= i < j < |s| ==> w(s[i]) >= w(s[j])
  }

  /** Lightest first. */
  ghost predicate SortedAsc<T>(s: seq<T>, w: T -> int)
  {
    forall i, j :: 0 <= i < j < |s| ==> w(s[i]) <= w(s[j])
  }

  /** No two entries share a key (a type name, in every use here). */
  ghost predicate DistinctKeys<T>(s: seq<T>, key: T -> string)
  {
    forall i, j :: 0 <= i < j < |s| ==> key(s[i]) != key(s[j])
  }

  /** The number of entries `Take(n)` keeps from a sequence of length `len`. */
  function Clamp(n: int, len: nat): nat
  {
    if n <= 0 then 0 else if n < len then n else len
  }

  /** Puts `x` in front of the first entry that is not heavier than it. */
  function Insert<T>(x: T, s: seq<T>, w: T -> int): (r: seq<T>)
    ensures multiset(r) == multiset{x} + multiset(s)
  {
    if s == [] || w(x) >= w(s[0]) then
      [x] + s
    else
      assert s == [s[0]] + s[1..];
      [s[0]] + Insert(x, s[1..], w)
  }

  /** Every entry of `Insert(x, s, w)` is `x` or an entry of `s`. */
  lemma InsertFrom<T>(x: T, s: seq<T>, w: T -> int)
    ensures forall y :: y in Insert(x, s, w) ==> y == x || y in s
  {
    forall y | y in Insert(x, s, w) ensures y == x || y in s {
      assert y in multiset(Insert(x, s, w));
    }
  }

  /** An entry no lighter than every entry of a sorted sequence can go in front of it. */
  lemma ConsSorted<T>(a: T, rest: seq<T>, w: T -> int)
    requires SortedDesc(rest, w)
    requires forall y :: y in rest ==> w(y) <= w(a)
    ensures SortedDesc([a] + rest, w)
  {
    var r := [a] + rest;
    forall i, j | 0 <= i < j < |r| ensures w(r[i]) >= w(r[j]) {
      assert r[j] == rest[j - 1];
      if i > 0 {
        assert r[i] == rest[i - 1];
      }
    }
  }

  /** An entry whose key no entry of `rest` has can go in front of it. */
  lemma ConsDistinct<T>(a: T, rest: seq<T>, key: T -> string)
    requires DistinctKeys(rest, key)
    requires forall y :: y in rest ==> key(y) != key(a)
    ensures DistinctKeys([a] + rest, key)
  {
    var r := [a] + rest;
    forall i, j | 0 <= i < j < |r| ensures key(r[i]) != key(r[j]) {
      assert r[j] == rest[j - 1];
      if i > 0 {
        assert r[i] == rest[i - 1];
      }
    }
  }

  lemma {:induction false} InsertKeepsSorted<T>(x: T, s: seq<T>, w: T -> int)
    requires SortedDesc(s, w)
    ensures SortedDesc(Insert(x, s, w), w)
  {
    if s == [] || w(x) >= w(s[0]) {
    } else {
      var rest := Insert(x, s[1..], w);
      InsertKeepsSorted(x, s[1..], w);
      InsertFrom(x, s[1..], w);
      forall y | y in rest ensures w(y) <= w(s[0]) {
        if y != x {
          var j :| 0 <= j < |s[1..]| && s[1..][j] == y;
          assert s[j + 1] == y;
        }
      }
      ConsSorted(s[0], rest, w);
    }
  }

  /** `OrderByDescending(w)`: a permutation of `s`, heaviest first. */
  function SortDesc<T>(s: seq<T>, w: T -> int): (r: seq<T>)
    ensures multiset(r) == multiset(s)
    ensures SortedDesc(r, w)
  {
    if s == [] then []
    else
      var rest := SortDesc(s[1..], w);
      assert s == [s[0]] + s[1..];
      InsertKeepsSorted(s[0], rest, w);
      Insert(s[0], rest, w)
  }

  /** `Take(n)`: the first `n` entries, none when `n` is not positive. */
  function Take<T>(s: seq<T>, n: int): (r: seq<T>)
    ensures |r| == Clamp(n, |s|)
    ensures r == s[..|r|]
  {
    if n <= 0 then [] else if n < |s| then s[..n] else s
  }

  /** `OrderByDescending(w).Take(k)`. */
  function Top<T>(s: seq<T>, k: int, w: T -> int): seq<T>
  {
    Take(SortDesc(s, w), k)
  }

  /** `Reverse()`. */
  function Reverse<T>(s: seq<T>): (r: seq<T>)
    ensures |r| == |s|
    ensures forall i :: 0 <= i < |s| ==> r[i] == s[|s| - 1 - i]
  {
    if s == [] then [] else Reverse(s[1..]) + [s[0]]
  }

  lemma {:induction false} InsertKeepsKeysDistinct<T>(x: T, s: seq<T>, w: T -> int, key: T -> string)
    requires DistinctKeys(s, key)
    requires forall i :: 0 <= i < |s| ==> key(s[i]) != key(x)
    ensures DistinctKeys(Insert(x, s, w), key)
  {
    if s == [] || w(x) >= w(s[0]) {
    } else {
      var rest := Insert(x, s[1..], w);
      InsertKeepsKeysDistinct(x, s[1..], w, key);
      InsertFrom(x, s[1..], w);
      forall y | y in rest ensures key(y) != key(s[0]) {
        if y != x {
          var j :| 0 <= j < |s[1..]| && s[1..][j] == y;
          assert s[j + 1] == y;
        }
      }
      ConsDistinct(s[0], rest, key);
    }
  }

  lemma {:induction false} SortKeepsKeysDistinct<T>(s: seq<T>, w: T -> int, key: T -> string)
    requires DistinctKeys(s, key)
    ensures DistinctKeys(SortDesc(s, w), key)
  {
    if s != [] {
      var rest := SortDesc(s[1..], w);
      SortKeepsKeysDistinct(s[1..], w, key);
      forall i | 0 <= i < |rest| ensures key(rest[i]) != key(s[0]) {
        assert rest[i] in multiset(s[1..]);
        var j :| 0 <= j < |s[1..]| && s[1..][j] == rest[i];
        assert s[j + 1] == rest[i];
      }
      InsertKeepsKeysDistinct(s[0], rest, w, key);
    }
  }

  /** Some entry of `s` has key `k`. */
  ghost predicate HasKey<T>(s: seq<T>, key: T -> string, k: string)
  {
    exists j :: 0 <= j < |s| && key(s[j]) == k
  }

  /**
   * The top-k guarantee: `Top` keeps min(k, |s|) entries of `s`, heaviest
   * first, and no entry it drops is heavier than any entry it keeps. When the
   * keys of `s` are distinct, so are the kept keys, and "dropped" can be said
   * by key.
   */
  lemma TopKeepsHeaviest<T>(s: seq<T>, k: int, w: T -> int, key: T -> string)
    requires DistinctKeys(s, key)
    ensures var r := Top(s, k, w);
      && |r| == Clamp(k, |s|)
      && SortedDesc(r, w)
      && DistinctKeys(r, key)
      && (forall x :: x in r ==> x in s)
      && (forall i, y :: 0 <= i < |r| && y in s && !HasKey(r, key, key(y)) ==> w(r[i]) >= w(y))
  {
    var sorted := SortDesc(s, w);
    var r := Top(s, k, w);
    SortKeepsKeysDistinct(s, w, key);
    TopIsSortedPrefix(s, k, w);
    forall x | x in r ensures x in s {
      assert x in sorted;
      assert x in multiset(sorted);
    }
    forall i, y | 0 <= i < |r| && y in s && !HasKey(r, key, key(y))
      ensures w(r[i]) >= w(y)
    {
      assert y in multiset(s);
      assert y in sorted;
      DroppedIsLighter(sorted, |r|, w, key, i, y);
    }
  }

  lemma TopIsSortedPrefix<T>(s: seq<T>, k: int, w: T -> int)
    ensures var sorted := SortDesc(s, w);
      && multiset(sorted) == multiset(s)
      && Top(s, k, w) == sorted[..|Top(s, k, w)|]
      && SortedDesc(Top(s, k, w), w)
  {
  }

  lemma DroppedIsLighter<T>(sorted: seq<T>, n: nat, w: T -> int, key: T -> string, i: nat, y: T)
    requires SortedDesc(sorted, w)
    requires i < n <= |sorted|
    requires y in sorted
    requires !HasKey(sorted[..n], key, key(y))
    ensures w(sorted[i]) >= w(y)
  {
    var m :| 0 <= m < |sorted| && sorted[m] == y;
    if m < n {
      assert false;
    }
  }

  /** Reversing a heaviest-first sequence lists it heaviest last. */
  lemma ReverseOfDescIsAsc<T>(s: seq<T>, w: T -> int)
    requires SortedDesc(s, w)
    ensures SortedAsc(Reverse(s), w)
  {
  }

  lemma ReverseKeepsKeysDistinct<T>(s: seq<T>, key: T -> string)
    requires DistinctKeys(s, key)
    ensures DistinctKeys(Reverse(s), key)
  {
    var r := Reverse(s);
    forall i, j | 0 <= i < j < |r| ensures key(r[i]) != key(r[j]) {
      assert r[i] == s[|s| - 1 - i] && r[j] == s[|s| - 1 - j];
    }
  }

  /** Reversing keeps the same keys. */
  lemma ReverseHasKey<T>(s: seq<T>, key: T -> string, k: string)
    ensures HasKey(Reverse(s), key, k) <==> HasKey(s, key, k)
  {
    var r := Reverse(s);
    if HasKey(r, key, k) {
      var j :| 0 <= j < |r| && key(r[j]) == k;
      assert key(s[|s| - 1 - j]) == k;
    }
    if HasKey(s, key, k) {
      var j :| 0 <= j < |s| && key(s[j]) == k;
      assert r[|s| - 1 - j] == s[j];
    }
  }
}
