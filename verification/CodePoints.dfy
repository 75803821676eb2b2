/**
 The order of texts by code points, as `compareCodePoints` of `src/cst/semantic-hash.ts`
 has it, and lists of texts sorted by it.
 */
module CodePoints {

  // ----- The order -----

  /** `compareCodePoints`: the first difference of code points, else of lengths. */
  function CompareCodePoints(a: string, b: string): int {
    if a == "" || b == "" then |a| - |b|
    else if a[0] != b[0] then a[0] as int - b[0] as int
    else CompareCodePoints(a[1..], b[1..])
  }

  predicate Before(a: string, b: string) {
    CompareCodePoints(a, b) < 0
  }

  lemma {:induction false} CompareZero(a: string, b: string)
    ensures CompareCodePoints(a, b) == 0 <==> a == b
  {
    if a != "" && b != "" && a[0] == b[0] {
      CompareZero(a[1..], b[1..]);
      assert a == [a[0]] + a[1..] && b == [b[0]] + b[1..];
    }
  }

  lemma {:induction false} CompareSwap(a: string, b: string)
    ensures CompareCodePoints(a, b) == -CompareCodePoints(b, a)
  {
    if a != "" && b != "" && a[0] == b[0] {
      CompareSwap(a[1..], b[1..]);
    }
  }

  lemma {:induction false} BeforeTransitive(a: string, b: string, c: string)
    requires Before(a, b) && Before(b, c)
    ensures Before(a, c)
  {
    if a != "" && b != "" && c != "" && a[0] == b[0] == c[0] {
      BeforeTransitive(a[1..], b[1..], c[1..]);
    }
  }

  /** `compareCodePoints` is a strict total order. */
  lemma BeforeTotal(a: string, b: string)
    ensures !Before(a, a)
    ensures a != b ==> (Before(a, b) <==> !Before(b, a))
    ensures forall c | Before(a, b) && Before(b, c) :: Before(a, c)
  {
    CompareZero(a, a);
    CompareZero(a, b);
    CompareSwap(a, b);
    forall c | Before(a, b) && Before(b, c) ensures Before(a, c) {
      BeforeTransitive(a, b, c);
    }
  }

  /** `a` is a proper beginning of `b`, or at the first difference has the lesser character. */
  ghost predicate Precedes(a: string, b: string) {
    || (|a| < |b| && a == b[..|a|])
    || exists k | 0 <= k < |a| && k < |b| :: a[..k] == b[..k] && a[k] < b[k]
  }

  /** The order, on the characters of the two texts. */
  lemma {:induction false} BeforeMeans(a: string, b: string)
    ensures Before(a, b) <==> Precedes(a, b)
    decreases |a|
  {
    if a != "" && b != "" && a[0] == b[0] {
      BeforeMeans(a[1..], b[1..]);
      assert a == [a[0]] + a[1..] && b == [b[0]] + b[1..];
      if Precedes(a[1..], b[1..]) {
        LongerPrecedes(a, b);
      }
      if Precedes(a, b) {
        ShorterPrecedes(a, b);
      }
    } else if a != "" && b != "" {
      assert a[..0] == b[..0];
      PrefixFirst(a, b);
      forall k | 0 < k < |a| && k < |b| ensures a[..k] != b[..k] {
        assert a[..k][0] != b[..k][0];
      }
    } else {
      assert a == "" ==> b[..|a|] == "";
    }
  }

  lemma PrefixFirst(a: string, b: string)
    requires a != "" && b != ""
    ensures |a| < |b| && a == b[..|a|] ==> a[0] == b[0]
  {
  }

  lemma LongerPrecedes(a: string, b: string)
    requires a != "" && b != "" && a[0] == b[0] && Precedes(a[1..], b[1..])
    ensures Precedes(a, b)
  {
    var x, y := a[1..], b[1..];
    if |x| < |y| && x == y[..|x|] {
      assert a == b[..|a|];
    } else {
      var k :| 0 <= k < |x| && k < |y| && x[..k] == y[..k] && x[k] < y[k];
      assert a[..k + 1] == [a[0]] + x[..k] && b[..k + 1] == [b[0]] + y[..k];
      assert a[k + 1] < b[k + 1];
    }
  }

  lemma ShorterPrecedes(a: string, b: string)
    requires a != "" && b != "" && a[0] == b[0] && Precedes(a, b)
    ensures Precedes(a[1..], b[1..])
  {
    var x, y := a[1..], b[1..];
    if |a| < |b| && a == b[..|a|] {
      assert x == b[..|a|][1..] == y[..|x|];
    } else {
      var k :| 0 <= k < |a| && k < |b| && a[..k] == b[..k] && a[k] < b[k];
      assert x[..k - 1] == a[..k][1..] && y[..k - 1] == b[..k][1..];
      assert x[k - 1] < y[k - 1];
    }
  }

  /** The loop of `compareCodePoints`. */
  method Compare(left: string, right: string) returns (r: int)
    ensures r == CompareCodePoints(left, right)
  {
    var length := if |left| <= |right| then |left| else |right|;
    assert left[0..] == left && right[0..] == right;
    for index := 0 to length
      invariant CompareCodePoints(left, right) == CompareCodePoints(left[index..], right[index..])
    {
      var difference := left[index] as int - right[index] as int;
      assert left[index..][1..] == left[index + 1..] && right[index..][1..] == right[index + 1..];
      if difference != 0 {
        return difference;
      }
    }
    return |left| - |right|;
  }

  // ----- Sorted lists -----

  function InsertKey(sorted: seq<string>, key: string): seq<string> {
    if sorted == [] || !Before(sorted[0], key) then [key] + sorted
    else [sorted[0]] + InsertKey(sorted[1..], key)
  }

  /** `keys.sort(compareCodePoints)`. */
  function SortKeys(keys: seq<string>): seq<string> {
    if keys == [] then [] else InsertKey(SortKeys(keys[1..]), keys[0])
  }

  ghost predicate Ascending(keys: seq<string>) {
    forall i, j | 0 <= i < j < |keys| :: Before(keys[i], keys[j])
  }

  ghost predicate Distinct(keys: seq<string>) {
    forall i, j | 0 <= i < j < |keys| :: keys[i] != keys[j]
  }

  ghost function Elements(keys: seq<string>): set<string> {
    set k | k in keys
  }

  lemma {:induction false} InsertKeyElements(sorted: seq<string>, key: string)
    ensures Elements(InsertKey(sorted, key)) == Elements(sorted) + {key}
  {
    if sorted != [] && Before(sorted[0], key) {
      InsertKeyElements(sorted[1..], key);
      ElementsCons(sorted[0], sorted[1..]);
      ElementsCons(sorted[0], InsertKey(sorted[1..], key));
      assert sorted == [sorted[0]] + sorted[1..];
    } else {
      ElementsCons(key, sorted);
    }
  }

  lemma ElementsCons(x: string, s: seq<string>)
    ensures Elements([x] + s) == {x} + Elements(s)
  {
  }

  lemma {:induction false} InsertKeyAscending(sorted: seq<string>, key: string)
    requires Ascending(sorted) && key !in sorted
    ensures Ascending(InsertKey(sorted, key))
  {
    if sorted == [] {
    } else if !Before(sorted[0], key) {
      BeforeTotal(sorted[0], key);
      forall i | 0 <= i < |sorted| ensures Before(key, sorted[i]) {
        if i > 0 { BeforeTransitive(key, sorted[0], sorted[i]); }
      }
    } else {
      var rest := InsertKey(sorted[1..], key);
      InsertKeyAscending(sorted[1..], key);
      InsertKeyElements(sorted[1..], key);
      forall i | 0 <= i < |rest| ensures Before(sorted[0], rest[i]) {
        assert rest[i] in Elements(rest);
        if rest[i] != key {
          var j :| 0 <= j < |sorted[1..]| && sorted[1..][j] == rest[i];
          assert sorted[j + 1] == rest[i];
        }
      }
    }
  }

  lemma {:induction false} SortKeysCorrect(keys: seq<string>)
    requires Distinct(keys)
    ensures Ascending(SortKeys(keys)) && Elements(SortKeys(keys)) == Elements(keys)
  {
    if keys != [] {
      SortKeysCorrect(keys[1..]);
      assert keys == [keys[0]] + keys[1..];
      assert keys[0] !in keys[1..];
      assert keys[0] !in Elements(SortKeys(keys[1..]));
      InsertKeyAscending(SortKeys(keys[1..]), keys[0]);
      InsertKeyElements(SortKeys(keys[1..]), keys[0]);
    }
  }

  /** There is only one ascending list of a given set of keys. */
  lemma {:induction false} AscendingUnique(a: seq<string>, b: seq<string>)
    requires Ascending(a) && Ascending(b) && Elements(a) == Elements(b)
    ensures a == b
  {
    assert a != [] ==> a[0] in Elements(a);
    assert b != [] ==> b[0] in Elements(b);
    if a != [] {
      assert a[0] in Elements(b) && b[0] in Elements(a);
      BeforeTotal(a[0], b[0]);
      assert a[0] == b[0];
      assert a == [a[0]] + a[1..] && b == [b[0]] + b[1..];
      BeforeTotal(a[0], a[0]);
      assert a[0] !in a[1..] && b[0] !in b[1..];
      assert Elements(a[1..]) == Elements(a) - {a[0]} && Elements(b[1..]) == Elements(b) - {b[0]};
      AscendingUnique(a[1..], b[1..]);
    }
  }
}
