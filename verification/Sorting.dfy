/**
 Stable sorting by an integer rank: what `Array.prototype.sort` computes for a
 comparator that falls back to the original index on a tie.
 */
module Sorting {

  function Insert<T>(sorted: seq<T>, x: T, rank: T -> int): seq<T> {
    if sorted == [] || rank(sorted[|sorted| - 1]) <= rank(x) then sorted + [x]
    else Insert(sorted[..|sorted| - 1], x, rank) + [sorted[|sorted| - 1]]
  }

  function StableSort<T>(s: seq<T>, rank: T -> int): seq<T> {
    if s == [] then [] else Insert(StableSort(s[..|s| - 1], rank), s[|s| - 1], rank)
  }

  ghost predicate AllBelow<T>(s: seq<T>, rank: T -> int, bound: int) {
    forall i | 0 <= i < |s| :: rank(s[i]) <= bound
  }

  ghost predicate SortedBy<T>(s: seq<T>, rank: T -> int) {
    forall i, j | 0 <= i < j < |s| :: rank(s[i]) <= rank(s[j])
  }

  /** The elements of one rank, in order: what a stable sort must not disturb. */
  function OfRank<T>(s: seq<T>, rank: T -> int, r: int): seq<T> {
    if s == [] then []
    else OfRank(s[..|s| - 1], rank, r) + if rank(s[|s| - 1]) == r then [s[|s| - 1]] else []
  }

  lemma SortedByAppend<T>(s: seq<T>, x: T, rank: T -> int)
    requires SortedBy(s, rank) && AllBelow(s, rank, rank(x))
    ensures SortedBy(s + [x], rank)
  {
    forall i, j | 0 <= i < j < |s + [x]| ensures rank((s + [x])[i]) <= rank((s + [x])[j]) {
      assert (s + [x])[i] == s[i];
      if j < |s| {
        assert (s + [x])[j] == s[j];
      }
    }
  }

  lemma {:induction false} InsertBelow<T>(sorted: seq<T>, x: T, rank: T -> int, bound: int)
    requires rank(x) <= bound && AllBelow(sorted, rank, bound)
    ensures AllBelow(Insert(sorted, x, rank), rank, bound)
    decreases |sorted|
  {
    if sorted != [] && rank(x) < rank(sorted[|sorted| - 1]) {
      InsertBelow(sorted[..|sorted| - 1], x, rank, bound);
      assert rank(sorted[|sorted| - 1]) <= bound;
    }
  }

  lemma {:induction false} InsertSorted<T>(sorted: seq<T>, x: T, rank: T -> int)
    requires SortedBy(sorted, rank)
    ensures SortedBy(Insert(sorted, x, rank), rank)
    decreases |sorted|
  {
    if sorted == [] || rank(sorted[|sorted| - 1]) <= rank(x) {
      assert sorted != [] ==> AllBelow(sorted, rank, rank(sorted[|sorted| - 1]));
      SortedByAppend(sorted, x, rank);
    } else {
      var front, last := sorted[..|sorted| - 1], sorted[|sorted| - 1];
      InsertSorted(front, x, rank);
      InsertBelow(front, x, rank, rank(last));
      SortedByAppend(Insert(front, x, rank), last, rank);
    }
  }

  lemma {:induction false} InsertMultiset<T>(sorted: seq<T>, x: T, rank: T -> int)
    ensures multiset(Insert(sorted, x, rank)) == multiset(sorted) + multiset{x}
    decreases |sorted|
  {
    if sorted != [] && rank(x) < rank(sorted[|sorted| - 1]) {
      InsertMultiset(sorted[..|sorted| - 1], x, rank);
      assert sorted == sorted[..|sorted| - 1] + [sorted[|sorted| - 1]];
    }
  }

  lemma {:induction false} InsertOfRank<T>(sorted: seq<T>, x: T, rank: T -> int, r: int)
    requires SortedBy(sorted, rank)
    ensures OfRank(Insert(sorted, x, rank), rank, r) == OfRank(sorted, rank, r) + if rank(x) == r then [x] else []
    decreases |sorted|
  {
    hide OfRank, Insert;
    if sorted == [] || rank(sorted[|sorted| - 1]) <= rank(x) {
      InsertAtEnd(sorted, x, rank);
      OfRankNext(sorted, x, rank, r);
    } else {
      var front, last := sorted[..|sorted| - 1], sorted[|sorted| - 1];
      InsertBeforeEnd(sorted, x, rank);
      InsertOfRank(front, x, rank, r);
      OfRankNext(Insert(front, x, rank), last, rank, r);
      OfRankNext(front, last, rank, r);
      assert sorted == front + [last];
    }
  }

  lemma {:induction false} OfRankNext<T>(s: seq<T>, x: T, rank: T -> int, r: int)
    ensures OfRank(s + [x], rank, r) == OfRank(s, rank, r) + if rank(x) == r then [x] else []
  {
    assert (s + [x])[..|s|] == s;
  }

  lemma {:induction false} InsertBeforeEnd<T>(sorted: seq<T>, x: T, rank: T -> int)
    requires sorted != [] && rank(x) < rank(sorted[|sorted| - 1])
    ensures Insert(sorted, x, rank) == Insert(sorted[..|sorted| - 1], x, rank) + [sorted[|sorted| - 1]]
  {
  }

  /** A stable sort is sorted, a permutation, and keeps the order inside each rank. */
  lemma {:induction false} StableSortCorrect<T>(s: seq<T>, rank: T -> int)
    ensures SortedBy(StableSort(s, rank), rank)
    ensures multiset(StableSort(s, rank)) == multiset(s)
    ensures forall r :: OfRank(StableSort(s, rank), rank, r) == OfRank(s, rank, r)
    decreases |s|
  {
    if s != [] {
      var front, last := s[..|s| - 1], s[|s| - 1];
      StableSortCorrect(front, rank);
      InsertSorted(StableSort(front, rank), last, rank);
      InsertMultiset(StableSort(front, rank), last, rank);
      assert s == front + [last];
      forall r ensures OfRank(StableSort(s, rank), rank, r) == OfRank(s, rank, r) {
        InsertOfRank(StableSort(front, rank), last, rank, r);
      }
    }
  }

  lemma {:induction false} InsertAtEnd<T>(sorted: seq<T>, x: T, rank: T -> int)
    requires sorted == [] || rank(sorted[|sorted| - 1]) <= rank(x)
    ensures Insert(sorted, x, rank) == sorted + [x]
  {
  }

  lemma {:induction false} SortOfSorted<T>(s: seq<T>, rank: T -> int)
    requires SortedBy(s, rank)
    ensures StableSort(s, rank) == s
    decreases |s|
  {
    hide Insert;
    if s != [] {
      var front, last := s[..|s| - 1], s[|s| - 1];
      SortOfSorted(front, rank);
      InsertAtEnd(front, last, rank);
      assert s == front + [last];
    }
  }

  lemma {:induction false} InsertKeepsFirst<T>(sorted: seq<T>, x: T, rank: T -> int)
    requires sorted != [] && rank(sorted[0]) <= rank(x)
    ensures Insert(sorted, x, rank)[0] == sorted[0]
    decreases |sorted|
  {
    if rank(x) < rank(sorted[|sorted| - 1]) {
      assert |sorted| > 1;
      InsertKeepsFirst(sorted[..|sorted| - 1], x, rank);
    }
  }

  lemma {:induction false} SortKeepsFirst<T>(s: seq<T>, rank: T -> int)
    requires s != [] && forall i | 0 <= i < |s| :: rank(s[0]) <= rank(s[i])
    ensures StableSort(s, rank) != [] && StableSort(s, rank)[0] == s[0]
    decreases |s|
  {
    if |s| > 1 {
      SortKeepsFirst(s[..|s| - 1], rank);
      InsertKeepsFirst(StableSort(s[..|s| - 1], rank), s[|s| - 1], rank);
    }
  }

  lemma BagWithout<T>(b: seq<T>, i: nat)
    requires i < |b|
    ensures b == b[..i] + ([b[i]] + b[i + 1..])
    ensures multiset(b) == multiset(b[..i] + b[i + 1..]) + multiset{b[i]}
  {
    assert b == b[..i] + ([b[i]] + b[i + 1..]);
  }

  /** Takes the first element of `a` out of a permutation of `a`. */
  lemma PickFirst<T>(a: seq<T>, b: seq<T>) returns (i: nat)
    requires a != [] && multiset(a) == multiset(b)
    ensures i < |b| && b[i] == a[0] && b == b[..i] + ([a[0]] + b[i + 1..])
    ensures multiset(a[1..]) == multiset(b[..i] + b[i + 1..])
  {
    assert a[0] in multiset(a);
    assert a[0] in multiset(b);
    i :| 0 <= i < |b| && b[i] == a[0];
    BagWithout(b, i);
    BagWithout(a, 0);
    assert a[..0] + a[1..] == a[1..];
    BagsLessOne(multiset(a), multiset(a[1..]), multiset(b[..i] + b[i + 1..]), a[0]);
  }

  lemma BagsLessOne<T>(whole: multiset<T>, x: multiset<T>, y: multiset<T>, e: T)
    requires whole == x + multiset{e} == y + multiset{e}
    ensures x == y
  {
    assert x == whole - multiset{e} == y;
  }

  lemma {:induction false} InsertBehind<T>(first: T, s: seq<T>, x: T, rank: T -> int)
    requires rank(first) <= rank(x)
    ensures Insert([first] + s, x, rank) == [first] + Insert(s, x, rank)
    decreases |s|
  {
    if s == [] {
      assert [first] + s == [first];
    } else {
      var all := [first] + s;
      assert all[|all| - 1] == s[|s| - 1] && all[..|all| - 1] == [first] + s[..|s| - 1];
      InsertBehind(first, s[..|s| - 1], x, rank);
    }
  }

  /** An element of least rank that comes first is sorted independently of the rest. */
  lemma {:induction false} SortBehind<T>(first: T, s: seq<T>, rank: T -> int)
    requires forall i | 0 <= i < |s| :: rank(first) <= rank(s[i])
    ensures StableSort([first] + s, rank) == [first] + StableSort(s, rank)
    decreases |s|
  {
    var all := [first] + s;
    if s == [] {
      assert all == [first] && all[..0] == [];
    } else {
      assert all[|all| - 1] == s[|s| - 1] && all[..|all| - 1] == [first] + s[..|s| - 1];
      SortBehind(first, s[..|s| - 1], rank);
      InsertBehind(first, StableSort(s[..|s| - 1], rank), s[|s| - 1], rank);
    }
  }
}
