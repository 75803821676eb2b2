/**
 Putting text edits together, as `sortNonOverlapping`, `dedupeOverlaps` and the
 back-to-front splicing loops of `src/fix.ts` do.
 */
module Splices {
  import opened Sorting

  /** A replacement of `[start, end)` by `text`, with what a caller remembers about it. */
  datatype Edit<+M> = Edit(start: nat, end: nat, text: string, note: M)

  ghost predicate Within<M>(edits: seq<Edit<M>>, n: nat) {
    forall i | 0 <= i < |edits| :: edits[i].start <= edits[i].end <= n
  }

  // ----- Sorting and dropping overlaps -----

  /** How far the edits reach into the text. */
  function Reach<M>(edits: seq<Edit<M>>): (n: nat)
    ensures forall i | 0 <= i < |edits| :: edits[i].end <= n
  {
    if edits == [] then 0
    else
      var n := Reach(edits[1..]);
      assert forall i | 0 < i < |edits| :: edits[i] == edits[1..][i - 1];
      if edits[0].end > n then edits[0].end else n
  }

  /** Orders edits that reach no further than `n` by start and then by end. */
  function Rank<M>(n: nat): Edit<M> -> int {
    (e: Edit<M>) => e.start * (n + 1) + e.end
  }

  lemma RankIsLexicographic<M>(n: nat, a: Edit<M>, b: Edit<M>)
    requires a.end <= n && b.end <= n
    ensures Rank(n)(a) <= Rank(n)(b) <==> a.start < b.start || (a.start == b.start && a.end <= b.end)
  {
    assert Rank(n)(a) == a.start * (n + 1) + a.end && Rank(n)(b) == b.start * (n + 1) + b.end;
    if a.start < b.start {
      RowsApart(a.start, b.start, n + 1);
    } else if b.start < a.start {
      RowsApart(b.start, a.start, n + 1);
    }
  }

  lemma {:induction false} RowsApart(a: nat, b: nat, m: nat)
    requires a < b
    ensures a * m + m <= b * m
    decreases b
  {
    assert b * m == (b - 1) * m + m;
    if a < b - 1 {
      RowsApart(a, b - 1, m);
    }
  }

  function Sorted<M>(edits: seq<Edit<M>>): seq<Edit<M>> {
    StableSort(edits, Rank(Reach(edits)))
  }

  /** The edits a pass over a sorted list accepts: those that start at or after `floor`. */
  function Accepted<M>(sorted: seq<Edit<M>>, floor: int): seq<Edit<M>> {
    if sorted == [] then []
    else if sorted[0].start < floor then Accepted(sorted[1..], floor)
    else [sorted[0]] + Accepted(sorted[1..], sorted[0].end)
  }

  function Kept<M>(edits: seq<Edit<M>>): seq<Edit<M>> {
    Accepted(Sorted(edits), -1)
  }

  /** In order, pairwise disjoint, and inside `[from, n)`. */
  ghost predicate Ordered<M>(edits: seq<Edit<M>>, from: nat, n: nat)
    decreases |edits|
  {
    if edits == [] then from <= n
    else from <= edits[0].start <= edits[0].end && Ordered(edits[1..], edits[0].end, n)
  }

  /** `e` starts strictly before the end, and not before the start, of a kept edit. */
  ghost predicate Clashes<M>(e: Edit<M>, kept: seq<Edit<M>>) {
    exists i | 0 <= i < |kept| :: kept[i].start <= e.start < kept[i].end
  }

  lemma {:induction false} AcceptedIsOrdered<M>(sorted: seq<Edit<M>>, from: nat, n: nat)
    requires Within(sorted, n) && from <= n
    ensures Ordered(Accepted(sorted, from), from, n)
    decreases |sorted|
  {
    if sorted != [] {
      var head := sorted[0];
      if head.start < from {
        AcceptedIsOrdered(sorted[1..], from, n);
      } else {
        AcceptedIsOrdered(sorted[1..], head.end, n);
        assert ([head] + Accepted(sorted[1..], head.end))[1..] == Accepted(sorted[1..], head.end);
      }
    }
  }

  ghost predicate Ascending<M>(s: seq<Edit<M>>) {
    forall i, j | 0 <= i < j < |s| :: s[i].start <= s[j].start
  }

  /** A dropped edit starts inside `last`, the edit accepted before the list, or inside an accepted one. */
  lemma {:induction false} DroppedEditsClash<M>(sorted: seq<Edit<M>>, last: seq<Edit<M>>, floor: int)
    requires Ascending(sorted)
    requires last == [] ==> floor < 0
    requires last != [] ==> floor == last[0].end && forall i | 0 <= i < |sorted| :: last[0].start <= sorted[i].start
    ensures forall e | e in Accepted(sorted, floor) :: e in sorted
    ensures forall e | e in sorted :: e in Accepted(sorted, floor) || Clashes(e, last + Accepted(sorted, floor))
    decreases |sorted|
  {
    if sorted != [] {
      var head, rest := sorted[0], sorted[1..];
      if head.start < floor {
        DroppedEditsClash(rest, last, floor);
        assert (last + Accepted(rest, floor))[0] == last[0];
      } else {
        DroppedEditsClash(rest, [head], head.end);
        var kept := Accepted(sorted, floor);
        assert kept == [head] + Accepted(rest, head.end);
        forall e | e in sorted && e !in kept ensures Clashes(e, last + kept) {
          assert Clashes(e, kept);
          var i :| 0 <= i < |kept| && kept[i].start <= e.start < kept[i].end;
          assert (last + kept)[|last| + i] == kept[i];
        }
      }
    }
  }

  lemma MemberOfSort<M>(edits: seq<Edit<M>>, e: Edit<M>)
    ensures e in Sorted(edits) <==> e in edits
  {
    StableSortCorrect(edits, Rank<M>(Reach(edits)));
    assert e in multiset(Sorted(edits)) <==> e in multiset(edits);
  }

  lemma SortedWithin<M>(edits: seq<Edit<M>>, n: nat)
    requires Within(edits, n)
    ensures Within(Sorted(edits), n)
  {
    var sorted := Sorted(edits);
    forall i | 0 <= i < |sorted| ensures sorted[i].start <= sorted[i].end <= n {
      MemberOfSort(edits, sorted[i]);
      var k :| 0 <= k < |edits| && edits[k] == sorted[i];
    }
  }

  lemma SortedReach<M>(edits: seq<Edit<M>>)
    ensures forall e | e in Sorted(edits) :: e.end <= Reach(edits)
  {
    forall e | e in Sorted(edits) ensures e.end <= Reach(edits) {
      MemberOfSort(edits, e);
      var k :| 0 <= k < |edits| && edits[k] == e;
    }
  }

  lemma SortAscends<M>(edits: seq<Edit<M>>)
    ensures Ascending(Sorted(edits))
  {
    var n, sorted := Reach(edits), Sorted(edits);
    StableSortCorrect(edits, Rank<M>(n));
    SortedReach(edits);
    forall i, j | 0 <= i < j < |sorted| ensures sorted[i].start <= sorted[j].start {
      assert sorted[i] in sorted && sorted[j] in sorted;
      RankIsLexicographic(n, sorted[i], sorted[j]);
    }
  }

  /** The kept edits are in order and disjoint; each dropped one starts inside a kept one. */
  lemma KeptIsOrdered<M>(edits: seq<Edit<M>>, n: nat)
    requires Within(edits, n)
    ensures Ordered(Kept(edits), 0, n)
    ensures forall e | e in Kept(edits) :: e in edits
    ensures forall e | e in edits :: e in Kept(edits) || Clashes(e, Kept(edits))
  {
    var sorted := Sorted(edits);
    forall e ensures e in sorted <==> e in edits {
      MemberOfSort(edits, e);
    }
    SortAscends(edits);
    SortedWithin(edits, n);
    AcceptedIsOrdered(sorted, 0, n);
    assert Accepted(sorted, -1) == Accepted(sorted, 0);
    DroppedEditsClash(sorted, [], -1);
    assert [] + Accepted(sorted, -1) == Accepted(sorted, -1);
  }

  lemma {:induction false} AcceptedBag<M>(sorted: seq<Edit<M>>, floor: int)
    ensures multiset(Accepted(sorted, floor)) <= multiset(sorted)
    decreases |sorted|
  {
    if sorted != [] {
      assert sorted == [sorted[0]] + sorted[1..];
      AcceptedBag(sorted[1..], if sorted[0].start < floor then floor else sorted[0].end);
    }
  }

  lemma SeenTwice<M>(s: seq<Edit<M>>, x: nat, y: nat)
    requires x < y < |s| && s[x] == s[y]
    ensures multiset(s)[s[y]] >= 2
  {
    assert s == s[..y] + [s[y]] + s[y + 1..];
    assert s[..y][x] == s[y];
    assert s[y] in s[..y];
    assert multiset(s) == multiset(s[..y]) + multiset{s[y]} + multiset(s[y + 1..]);
  }

  lemma SeenOnce<M>(s: seq<Edit<M>>, e: Edit<M>)
    requires forall i, j | 0 <= i < j < |s| :: s[i] != s[j]
    ensures multiset(s)[e] <= 1
  {
    if e in s {
      var i :| 0 <= i < |s| && s[i] == e;
      assert s == s[..i] + [e] + s[i + 1..];
      assert e !in s[..i] && e !in s[i + 1..];
      assert multiset(s) == multiset(s[..i]) + multiset{e} + multiset(s[i + 1..]);
    } else {
      assert e !in multiset(s);
    }
  }

  /** A list of different edits is not made to hold one twice. */
  lemma KeptOnce<M>(edits: seq<Edit<M>>)
    requires forall i, j | 0 <= i < j < |edits| :: edits[i] != edits[j]
    ensures forall x, y | 0 <= x < y < |Kept(edits)| :: Kept(edits)[x] != Kept(edits)[y]
  {
    hide StableSort, Accepted, Rank, Reach;
    var kept := Kept(edits);
    AcceptedBag(Sorted(edits), -1);
    StableSortCorrect(edits, Rank<M>(Reach(edits)));
    forall x, y | 0 <= x < y < |kept| ensures kept[x] != kept[y] {
      SeenOnce(edits, kept[y]);
      if kept[x] == kept[y] {
        SeenTwice(kept, x, y);
      }
    }
  }

  lemma {:induction false} OfRankAtFront<M>(x: Edit<M>, s: seq<Edit<M>>, rank: Edit<M> -> int, r: int)
    ensures OfRank([x] + s, rank, r) == (if rank(x) == r then [x] else []) + OfRank(s, rank, r)
    decreases |s|
  {
    var all := [x] + s;
    if s == [] {
      assert all[..0] == [];
    } else {
      assert all[..|all| - 1] == [x] + s[..|s| - 1];
      OfRankAtFront(x, s[..|s| - 1], rank, r);
    }
  }

  lemma {:induction false} AcceptedStartAfter<M>(sorted: seq<Edit<M>>, floor: int, e: Edit<M>)
    requires e in Accepted(sorted, floor) && Ascending(sorted)
    ensures floor <= e.start
    decreases |sorted|
  {
    if floor <= sorted[0].start {
      assert e in sorted by { AcceptedAreMembers(sorted, floor, e); }
    } else {
      AcceptedStartAfter(sorted[1..], floor, e);
    }
  }

  lemma {:induction false} AcceptedAreMembers<M>(sorted: seq<Edit<M>>, floor: int, e: Edit<M>)
    requires e in Accepted(sorted, floor)
    ensures e in sorted
    decreases |sorted|
  {
    if e != sorted[0] || sorted[0].start < floor {
      AcceptedAreMembers(sorted[1..], if sorted[0].start < floor then floor else sorted[0].end, e);
    }
  }

  lemma {:induction false} FirstOfSpanAccepted<M>(sorted: seq<Edit<M>>, floor: int, e: Edit<M>, n: nat)
    requires Ascending(sorted) && e in Accepted(sorted, floor) && e.start < e.end
    requires forall x | x in sorted :: x.end <= n
    ensures OfRank(sorted, Rank(n), Rank(n)(e)) != [] && OfRank(sorted, Rank(n), Rank(n)(e))[0] == e
    decreases |sorted|
  {
    var head, rest := sorted[0], sorted[1..];
    AcceptedAreMembers(sorted, floor, e);
    AcceptedStartAfter(sorted, floor, e);
    OfRankAtFront(head, rest, Rank<M>(n), Rank(n)(e));
    assert [head] + rest == sorted;
    RankIsLexicographic(n, head, e);
    RankIsLexicographic(n, e, head);
    if head != e {
      var next := if head.start < floor then floor else head.end;
      assert e in Accepted(rest, next);
      FirstOfSpanAccepted(rest, next, e, n);
      AcceptedStartAfter(rest, next, e);
    }
  }

  /** Of several edits of the same range, the one that was listed first is the one kept. */
  lemma FirstEditWins<M>(edits: seq<Edit<M>>, e: Edit<M>)
    requires e in Kept(edits) && e.start < e.end
    ensures exists i | 0 <= i < |edits| ::
      edits[i] == e && forall j | 0 <= j < i :: edits[j].start != e.start || edits[j].end != e.end
  {
    var n, sorted := Reach(edits), Sorted(edits);
    SortAscends(edits);
    SortedReach(edits);
    FirstOfSpanAccepted(sorted, -1, e, n);
    StableSortCorrect(edits, Rank<M>(n));
    assert OfRank(sorted, Rank(n), Rank(n)(e)) == OfRank(edits, Rank(n), Rank(n)(e));
    var i := FirstOfRank(edits, Rank(n), Rank(n)(e));
    forall j | 0 <= j < i ensures edits[j].start != e.start || edits[j].end != e.end {
      RankIsLexicographic(n, edits[j], e);
    }
  }

  lemma {:induction false} FirstOfRank<M>(s: seq<Edit<M>>, rank: Edit<M> -> int, r: int) returns (i: nat)
    requires OfRank(s, rank, r) != []
    ensures i < |s| && s[i] == OfRank(s, rank, r)[0] && forall j | 0 <= j < i :: rank(s[j]) != r
    decreases |s|
  {
    OfRankAtFront(s[0], s[1..], rank, r);
    assert [s[0]] + s[1..] == s;
    if rank(s[0]) == r {
      i := 0;
    } else {
      i := FirstOfRank(s[1..], rank, r);
      assert forall j | 0 < j < |s| :: s[j] == s[1..][j - 1];
      i := i + 1;
    }
  }

  /** `sortNonOverlapping`. */
  method SortNonOverlapping<M>(edits: seq<Edit<M>>) returns (accepted: seq<Edit<M>>)
    ensures accepted == Kept(edits)
  {
    var sorted := Sorted(edits);
    accepted := [];
    for i := 0 to |sorted|
      invariant accepted + Accepted(sorted[i..], if accepted == [] then -1 else accepted[|accepted| - 1].end) == Kept(edits)
    {
      assert sorted[i..][1..] == sorted[i + 1..];
      var edit := sorted[i];
      if accepted != [] && edit.start < accepted[|accepted| - 1].end {
        continue;
      }
      accepted := accepted + [edit];
    }
  }

  /** `dedupeOverlaps`. */
  method DedupeOverlaps<M>(edits: seq<Edit<M>>) returns (kept: seq<Edit<M>>)
    ensures kept == Kept(edits)
  {
    var sorted := Sorted(edits);
    kept := [];
    var lastEnd: int := -1;
    for i := 0 to |sorted|
      invariant kept + Accepted(sorted[i..], lastEnd) == Kept(edits)
    {
      assert sorted[i..][1..] == sorted[i + 1..];
      var edit := sorted[i];
      if edit.start < lastEnd {
        continue;
      }
      kept := kept + [edit];
      lastEnd := edit.end;
    }
  }

  // ----- Applying the edits -----

  /** The text from `from` on with every edited range replaced at once. */
  function Replaced<M>(source: string, edits: seq<Edit<M>>, from: nat): string
    requires Ordered(edits, from, |source|)
    decreases |edits|
  {
    OrderedBound(edits, from, |source|);
    if edits == [] then source[from..]
    else source[from..edits[0].start] + edits[0].text + Replaced(source, edits[1..], edits[0].end)
  }

  lemma {:induction false} OrderedBound<M>(edits: seq<Edit<M>>, from: nat, n: nat)
    requires Ordered(edits, from, n)
    ensures from <= n
    ensures forall i | 0 <= i < |edits| :: from <= edits[i].start <= edits[i].end <= n
    ensures forall i, j | 0 <= i < j < |edits| :: edits[i].end <= edits[j].start
    decreases |edits|
  {
    if edits != [] {
      OrderedBound(edits[1..], edits[0].end, n);
      assert forall i | 0 < i < |edits| :: edits[i] == edits[1..][i - 1];
    }
  }

  lemma {:induction false} OrderedSuffix<M>(edits: seq<Edit<M>>, from: nat, n: nat, k: nat)
    requires Ordered(edits, from, n) && k <= |edits|
    ensures Ordered(edits[k..], if k == 0 then from else edits[k - 1].end, n)
    decreases k
  {
    if k > 0 {
      OrderedSuffix(edits[1..], edits[0].end, n, k - 1);
      assert edits[1..][k - 1..] == edits[k..];
    } else {
      assert edits[0..] == edits;
    }
  }

  lemma {:induction false} ReplacedHead<M>(s: string, edits: seq<Edit<M>>, from: nat)
    requires Ordered(edits, from, |s|)
    ensures edits == [] ==> from <= |s| && Replaced(s, edits, from) == s[from..]
    ensures edits != [] ==>
      && from <= edits[0].start <= edits[0].end <= |s| && Ordered(edits[1..], edits[0].end, |s|)
      && Replaced(s, edits, from) == s[from..edits[0].start] + (edits[0].text + Replaced(s, edits[1..], edits[0].end))
  {
    OrderedBound(edits, from, |s|);
    if edits != [] {
      var a, t, r := s[from..edits[0].start], edits[0].text, Replaced(s, edits[1..], edits[0].end);
      assert a + t + r == a + (t + r);
    }
  }

  lemma ReplacedNothing<M>(source: string, edits: seq<Edit<M>>, from: nat)
    requires edits == [] && from <= |source|
    ensures Ordered(edits, from, |source|) && source[..from] + Replaced(source, edits, from) == source
  {
  }

  lemma {:induction false} SpliceOne<M>(source: string, edits: seq<Edit<M>>, from: nat)
    requires edits != [] && Ordered(edits, from, |source|)
    ensures edits[0].start <= edits[0].end <= |source| && Ordered(edits[1..], edits[0].end, |source|)
    ensures var next := source[..edits[0].end] + Replaced(source, edits[1..], edits[0].end);
      next[..edits[0].start] + edits[0].text + next[edits[0].end..] == source[..from] + Replaced(source, edits, from)
  {
    hide Replaced, Ordered;
    ReplacedHead(source, edits, from);
    var e := edits[0];
    SpliceText(source, from, e.start, e.end, e.text, Replaced(source, edits[1..], e.end));
  }

  lemma SpliceText(s: string, from: nat, start: nat, end: nat, text: string, rest: string)
    requires from <= start <= end <= |s|
    ensures var next := s[..end] + rest;
      next[..start] + text + next[end..] == s[..from] + (s[from..start] + (text + rest))
  {
    var next := s[..end] + rest;
    assert next[end..] == rest && next[..start] == s[..start];
    assert s[..from] + s[from..start] == s[..start];
    assert s[..from] + (s[from..start] + (text + rest)) == (s[..from] + s[from..start]) + (text + rest);
    assert s[..start] + (text + rest) == s[..start] + text + rest;
  }

  /** Splicing the edits in from the last to the first replaces them all at once. */
  method Apply<M>(source: string, edits: seq<Edit<M>>) returns (next: string)
    requires Ordered(edits, 0, |source|)
    ensures next == Replaced(source, edits, 0)
  {
    hide Replaced, Ordered;
    next := source;
    var k := |edits|;
    OrderedSuffix(edits, 0, |source|, k);
    OrderedBound(edits, 0, |source|);
    ReplacedNothing(source, edits[k..], if k == 0 then 0 else edits[k - 1].end);
    while k > 0
      invariant 0 <= k <= |edits|
      invariant var from := if k == 0 then 0 else edits[k - 1].end;
        from <= |source| && Ordered(edits[k..], from, |source|) &&
        next == source[..from] + Replaced(source, edits[k..], from)
    {
      k := k - 1;
      var edit := edits[k];
      OrderedSuffix(edits, 0, |source|, k);
      assert edits[k..][1..] == edits[k + 1..];
      SpliceOne(source, edits[k..], if k == 0 then 0 else edits[k - 1].end);
      next := next[..edit.start] + edit.text + next[edit.end..];
    }
    assert edits[0..] == edits;
  }

  /** By how much the edits lengthen the text. */
  function Growth<M>(edits: seq<Edit<M>>): int {
    if edits == [] then 0 else |edits[0].text| - (edits[0].end - edits[0].start) + Growth(edits[1..])
  }

  lemma {:induction false} LengthBalance<M>(source: string, edits: seq<Edit<M>>, from: nat)
    requires Ordered(edits, from, |source|)
    ensures |Replaced(source, edits, from)| == |source| - from + Growth(edits)
    decreases |edits|
  {
    hide Replaced, Ordered;
    ReplacedHead(source, edits, from);
    if edits != [] {
      LengthBalance(source, edits[1..], edits[0].end);
    }
  }

  /** Every character outside the first `k` and the other ranges keeps its value, shifted by what stands before it. */
  lemma {:induction false} Untouched<M>(source: string, edits: seq<Edit<M>>, from: nat, k: nat, i: nat)
    requires Ordered(edits, from, |source|) && k <= |edits| && from <= i < |source|
    requires forall j | 0 <= j < k :: edits[j].end <= i
    requires k < |edits| ==> i < edits[k].start
    ensures var p := i - from + Growth(edits[..k]);
      0 <= p < |Replaced(source, edits, from)| && Replaced(source, edits, from)[p] == source[i]
    decreases k
  {
    hide Replaced, Ordered;
    ReplacedHead(source, edits, from);
    if k > 0 {
      forall j | 0 <= j < k - 1 ensures edits[1..][j].end <= i {
        assert edits[1..][j] == edits[j + 1];
      }
      Untouched(source, edits[1..], edits[0].end, k - 1, i);
      GrowthFirst(edits, k);
    }
  }

  /** The text of the `k`-th edit stands where its range was, shifted by what stands before it. */
  lemma {:induction false} Written<M>(source: string, edits: seq<Edit<M>>, from: nat, k: nat)
    requires Ordered(edits, from, |source|) && k < |edits|
    ensures var p := edits[k].start - from + Growth(edits[..k]);
      0 <= p <= p + |edits[k].text| <= |Replaced(source, edits, from)| &&
      Replaced(source, edits, from)[p..p + |edits[k].text|] == edits[k].text
    decreases k
  {
    hide Replaced, Ordered;
    ReplacedHead(source, edits, from);
    var a, t, r := source[from..edits[0].start], edits[0].text, Replaced(source, edits[1..], edits[0].end);
    if k > 0 {
      Written(source, edits[1..], edits[0].end, k - 1);
      GrowthFirst(edits, k);
      var p := edits[k].start - edits[0].end + Growth(edits[1..][..k - 1]);
      SliceBehind(a + t, r, p, p + |edits[k].text|);
      assert a + (t + r) == (a + t) + r;
    } else {
      SliceBehind(a, t + r, 0, |t|);
    }
  }

  lemma GrowthFirst<M>(edits: seq<Edit<M>>, k: nat)
    requires 0 < k <= |edits|
    ensures Growth(edits[..k]) == |edits[0].text| - (edits[0].end - edits[0].start) + Growth(edits[1..][..k - 1])
  {
    assert edits[..k][1..] == edits[1..][..k - 1];
  }

  lemma SliceBehind(a: string, b: string, i: nat, j: nat)
    requires i <= j <= |b|
    ensures (a + b)[|a| + i..|a| + j] == b[i..j]
  {
  }
}
