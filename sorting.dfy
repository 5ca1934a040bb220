/**
 * A stable sort into descending order of a ranking key, as the engine gets it
 * from the host language's `Array.prototype.sort` with a comparator that
 * subtracts keys: elements whose keys compare equal keep their input order.
 *
 * A key is a lexicographic triple. Sorting by rating uses one component;
 * standings use score, then Buchholz, then Sonneborn-Berger.
 */
module Sorting {

  datatype Rank = Rank(primary: int, secondary: int, tertiary: int)

  /** `a` may stand before `b` in a descending order: it is lexicographically at least `b`. */
  predicate AtLeast(a: Rank, b: Rank)
  {
    a.primary > b.primary ||
    (a.primary == b.primary &&
      (a.secondary > b.secondary || (a.secondary == b.secondary && a.tertiary >= b.tertiary)))
  }

  /** Descending by key: no element ranks strictly above one that precedes it. */
  ghost predicate SortedBy<T>(s: seq<T>, rank: T -> Rank)
  {
    forall i, j :: 0 <= i < j < |s| ==> AtLeast(rank(s[i]), rank(s[j]))
  }

  /**
   * Puts `x` in front of the first element it ranks at least as high as, so
   * that `x` stays ahead of every element of equal rank already in `s`.
   */
  function Insert<T>(x: T, s: seq<T>, rank: T -> Rank): seq<T>
  {
    if s == [] || AtLeast(rank(x), rank(s[0])) then [x] + s
    else [s[0]] + Insert(x, s[1..], rank)
  }

  /** Stable descending sort: insert each element, from the last one to the first. */
  function SortDescending<T>(s: seq<T>, rank: T -> Rank): seq<T>
  {
    if s == [] then []
    else Insert(s[0], SortDescending(s[1..], rank), rank)
  }

  /** The elements of `s` whose key is `k`, in their order in `s`. */
  function WithRank<T>(s: seq<T>, k: Rank, rank: T -> Rank): seq<T>
  {
    if s == [] then [] else (if rank(s[0]) == k then [s[0]] else []) + WithRank(s[1..], k, rank)
  }

  lemma {:induction false} InsertPermutation<T>(x: T, s: seq<T>, rank: T -> Rank)
    ensures multiset(Insert(x, s, rank)) == multiset(s) + multiset{x}
  {
    if s != [] && !AtLeast(rank(x), rank(s[0])) {
      InsertPermutation(x, s[1..], rank);
      assert s == [s[0]] + s[1..];
    }
  }

  /** The sorted sequence holds the same elements, as often as the input does. */
  lemma {:induction false} SortPermutation<T>(s: seq<T>, rank: T -> Rank)
    ensures multiset(SortDescending(s, rank)) == multiset(s)
  {
    if s != [] {
      SortPermutation(s[1..], rank);
      InsertPermutation(s[0], SortDescending(s[1..], rank), rank);
      assert s == [s[0]] + s[1..];
    }
  }

  lemma {:induction false} InsertSorted<T>(x: T, s: seq<T>, rank: T -> Rank)
    requires SortedBy(s, rank)
    ensures SortedBy(Insert(x, s, rank), rank)
  {
    var r := Insert(x, s, rank);
    if s == [] || AtLeast(rank(x), rank(s[0])) {
      assert r == [x] + s;
    } else {
      InsertSorted(x, s[1..], rank);
      var t := Insert(x, s[1..], rank);
      assert r == [s[0]] + t;
      InsertPermutation(x, s[1..], rank);
      forall j | 0 < j < |r| ensures AtLeast(rank(s[0]), rank(r[j])) {
        assert r[j] in multiset(t);
        assert r[j] == x || r[j] in s[1..];
      }
    }
  }

  lemma WithRankCons<T>(y: T, t: seq<T>, k: Rank, rank: T -> Rank)
    ensures WithRank([y] + t, k, rank) == (if rank(y) == k then [y] else []) + WithRank(t, k, rank)
  {
    assert ([y] + t)[1..] == t;
  }

  /** `x` joins its key class in front; the other key classes are untouched. */
  lemma {:induction false} InsertWithRank<T>(x: T, s: seq<T>, k: Rank, rank: T -> Rank)
    ensures WithRank(Insert(x, s, rank), k, rank) == (if rank(x) == k then [x] else []) + WithRank(s, k, rank)
  {
    if s == [] || AtLeast(rank(x), rank(s[0])) {
      WithRankCons(x, s, k, rank);
    } else {
      var t := Insert(x, s[1..], rank);
      WithRankCons(s[0], t, k, rank);
      InsertWithRank(x, s[1..], k, rank);
      assert rank(x) != rank(s[0]);
    }
  }

  /** The sorted sequence is in descending key order. */
  lemma {:induction false} SortedOutput<T>(s: seq<T>, rank: T -> Rank)
    ensures SortedBy(SortDescending(s, rank), rank)
  {
    if s != [] {
      SortedOutput(s[1..], rank);
      InsertSorted(s[0], SortDescending(s[1..], rank), rank);
    }
  }

  /** Stability: the elements of every key class come out in their input order. */
  lemma {:induction false} StableOutput<T>(s: seq<T>, k: Rank, rank: T -> Rank)
    ensures WithRank(SortDescending(s, rank), k, rank) == WithRank(s, k, rank)
  {
    if s != [] {
      StableOutput(s[1..], k, rank);
      InsertWithRank(s[0], SortDescending(s[1..], rank), k, rank);
    }
  }

  lemma SliceCons<T>(s: seq<T>, j: nat)
    requires 0 < j <= |s|
    ensures [s[0]] + s[1..][..j - 1] == s[..j] && s[1..][j - 1..] == s[j..]
  {
  }

  /** `x` lands just before the first element it ranks at least as high as. */
  lemma {:induction false} InsertAt<T>(x: T, s: seq<T>, j: nat, rank: T -> Rank)
    requires j <= |s|
    requires forall k :: 0 <= k < j ==> !AtLeast(rank(x), rank(s[k]))
    requires j == |s| || AtLeast(rank(x), rank(s[j]))
    ensures Insert(x, s, rank) == s[..j] + [x] + s[j..]
  {
    if j > 0 {
      assert Insert(x, s, rank) == [s[0]] + Insert(x, s[1..], rank);
      forall k | 0 <= k < j - 1 ensures !AtLeast(rank(x), rank(s[1..][k])) {
        assert s[1..][k] == s[k + 1];
      }
      InsertAt(x, s[1..], j - 1, rank);
      SliceCons(s, j);
    }
  }
}
