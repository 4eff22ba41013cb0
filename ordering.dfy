/**
 * Stored rows: lookup by key (`findById`), newest-first ordering, as the repositories' `ORDER BY ... DESC`
 * queries return them, and the first `k` rows of that order (`findTop20...`, `LIMIT k`).
 * Rows with equal keys may come back in any order in the source; the model fixes one.
 */
module Ordering {
  import opened Wrappers


  /** `findById`: the position of the first row whose key is `want`, if there is one. */
  function FindKey<T, K(==)>(s: seq<T>, key: T -> K, want: K): (k: Option<nat>)
    ensures k.Some? ==> k.value < |s| && key(s[k.value]) == want
    ensures k.None? <==> forall i :: 0 <= i < |s| ==> key(s[i]) != want
  {
    if s == [] then None
    else if key(s[0]) == want then Some(0)
    else match FindKey(s[1..], key, want)
      case None =>
        assert forall i :: 1 <= i < |s| ==> s[i] == s[1..][i - 1];
        None
      case Some(k) => Some(k + 1)
  }

  /** Keys never increase along `s`. */
  ghost predicate NewestFirst<T>(s: seq<T>, key: T -> int) {
    forall i, j :: 0 <= i < j < |s| ==> key(s[i]) >= key(s[j])
  }

  /** Inserts `x` into a newest-first sequence, before the first element that is not newer. */
  function Insert<T>(x: T, s: seq<T>, key: T -> int): (r: seq<T>)
    requires NewestFirst(s, key)
    ensures multiset(r) == multiset(s) + multiset{x}
    ensures forall y :: y in r ==> y == x || y in s
    ensures NewestFirst(r, key)
  {
    if s == [] || key(x) >= key(s[0]) then [x] + s
    else
      var rest := Insert(x, s[1..], key);
      assert s == [s[0]] + s[1..];
      InsertHeadBound(x, s, rest, key);
      [s[0]] + rest
  }

  /** Every row `Insert` places after the head of `s` is no newer than that head. */
  lemma InsertHeadBound<T>(x: T, s: seq<T>, rest: seq<T>, key: T -> int)
    requires s != [] && NewestFirst(s, key) && key(x) < key(s[0]) && NewestFirst(rest, key)
    requires forall y :: y in rest ==> y == x || y in s[1..]
    ensures NewestFirst([s[0]] + rest, key)
  {
    forall j | 0 <= j < |rest|
      ensures key(s[0]) >= key(rest[j])
    {
      assert rest[j] in rest;
      if rest[j] != x {
        var k :| 0 <= k < |s[1..]| && s[1..][k] == rest[j];
        assert s[k + 1] == rest[j];
      }
    }
  }

  /** The rows of `s` ordered newest first (insertion sort). */
  function SortNewestFirst<T>(s: seq<T>, key: T -> int): (r: seq<T>)
    ensures multiset(r) == multiset(s)
    ensures |r| == |s|
    ensures NewestFirst(r, key)
  {
    if s == [] then []
    else
      var r := Insert(s[0], SortNewestFirst(s[1..], key), key);
      assert s == [s[0]] + s[1..];
      assert |r| == |multiset(r)|;
      r
  }

  /** The smaller of two integers. */
  function Min(a: int, b: int): int {
    if a <= b then a else b
  }

  /** The `k` newest rows of `s`, newest first: none left out is newer than any returned. */
  function TopNewest<T>(s: seq<T>, k: nat, key: T -> int): (r: seq<T>)
    ensures |r| == Min(k, |s|)
    ensures NewestFirst(r, key)
    ensures multiset(r) <= multiset(s)
    ensures forall x, i :: x in multiset(s) - multiset(r) && 0 <= i < |r| ==> key(x) <= key(r[i])
  {
    var sorted := SortNewestFirst(s, key);
    var m := Min(k, |s|);
    TopNewestFacts(s, sorted, m, key);
    sorted[..m]
  }

  /** The prefix of a newest-first arrangement of `s` holds its newest rows. */
  lemma TopNewestFacts<T>(s: seq<T>, sorted: seq<T>, m: nat, key: T -> int)
    requires m <= |sorted| && NewestFirst(sorted, key) && multiset(sorted) == multiset(s)
    ensures NewestFirst(sorted[..m], key)
    ensures multiset(sorted[..m]) <= multiset(s)
    ensures forall x, i :: x in multiset(s) - multiset(sorted[..m]) && 0 <= i < m ==> key(x) <= key(sorted[..m][i])
  {
    assert sorted == sorted[..m] + sorted[m..];
    assert multiset(s) - multiset(sorted[..m]) == multiset(sorted[m..]);
    forall x, i | x in multiset(sorted[m..]) && 0 <= i < m
      ensures key(x) <= key(sorted[..m][i])
    {
      assert x in sorted[m..];
      var j :| 0 <= j < |sorted[m..]| && sorted[m..][j] == x;
      assert sorted[m + j] == x;
    }
  }
}
