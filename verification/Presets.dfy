/**
 `editDistance` and `nearestPreset` of `src/presets.ts`: the two-row table
 computes the length of a shortest edit script.
 */
module Presets {
  import opened Wrappers

  // ----- Edit scripts -----

  /** A script that rewrites a text, its last step outermost. */
  datatype Script =
    | Done
    | Keep(before: Script)
    | Change(before: Script, to: char)
    | Insert(before: Script, to: char)
    | Delete(before: Script)

  function Init(s: string): string
    requires s != ""
  {
    s[..|s| - 1]
  }

  function Last(s: string): char
    requires s != ""
  {
    s[|s| - 1]
  }

  /** What a script makes of `a`, when it fits. */
  function Apply(script: Script, a: string): Option<string>
    decreases script
  {
    match script
    case Done => if a == "" then Some("") else None
    case Keep(before) => if a == "" then None else Append(Apply(before, Init(a)), Last(a))
    case Change(before, to) => if a == "" then None else Append(Apply(before, Init(a)), to)
    case Insert(before, to) => Append(Apply(before, a), to)
    case Delete(before) => if a == "" then None else Apply(before, Init(a))
  }

  function Append(s: Option<string>, c: char): Option<string> {
    match s
    case None => None
    case Some(t) => Some(t + [c])
  }

  /** Every step costs one edit, except keeping a character. */
  function Cost(script: Script): nat {
    match script
    case Done => 0
    case Keep(before) => Cost(before)
    case Change(before, _) => Cost(before) + 1
    case Insert(before, _) => Cost(before) + 1
    case Delete(before) => Cost(before) + 1
  }

  /** `script` turns `a` into `b`. */
  predicate Edits(script: Script, a: string, b: string) {
    Apply(script, a) == Some(b)
  }

  // ----- The recurrence -----

  function Min(x: int, y: int): int {
    if x <= y then x else y
  }

  /** The value of the table cell for the prefixes `a` and `b`. */
  function Distance(a: string, b: string): nat
    decreases |a| + |b|
  {
    if a == "" then |b|
    else if b == "" then |a|
    else
      Min(Distance(Init(a), Init(b)) + (if Last(a) == Last(b) then 0 else 1),
          Min(Distance(Init(a), b) + 1, Distance(a, Init(b)) + 1))
  }

  // ----- The recurrence is the shortest script -----

  function Shortest(a: string, b: string): Script
    decreases |a| + |b|
  {
    if a == "" then if b == "" then Done else Insert(Shortest(a, Init(b)), Last(b))
    else if b == "" then Delete(Shortest(Init(a), b))
    else if Distance(a, b) == Distance(Init(a), b) + 1 then Delete(Shortest(Init(a), b))
    else if Distance(a, b) == Distance(a, Init(b)) + 1 then Insert(Shortest(a, Init(b)), Last(b))
    else if Last(a) == Last(b) then Keep(Shortest(Init(a), Init(b)))
    else Change(Shortest(Init(a), Init(b)), Last(b))
  }

  lemma {:induction false} LastStep(script: Script, a: string, b: string)
    ensures a != "" && Edits(script, Init(a), b) ==> Edits(Delete(script), a, b)
    ensures b != "" && Edits(script, a, Init(b)) ==> Edits(Insert(script, Last(b)), a, b)
    ensures a != "" && b != "" && Edits(script, Init(a), Init(b)) ==>
      Edits(Change(script, Last(b)), a, b) && (Last(a) == Last(b) ==> Edits(Keep(script), a, b))
  {
    assert b != "" ==> b == Init(b) + [Last(b)];
  }

  lemma {:induction false} DistanceStep(a: string, b: string)
    requires a != "" && b != ""
    ensures Distance(a, b) ==
      Min(Distance(Init(a), Init(b)) + (if Last(a) == Last(b) then 0 else 1),
          Min(Distance(Init(a), b) + 1, Distance(a, Init(b)) + 1))
  {
  }

  lemma {:induction false} DistanceOfEmpty(a: string, b: string)
    ensures a == "" ==> Distance(a, b) == |b|
    ensures b == "" ==> Distance(a, b) == |a|
  {
  }

  /** Some script achieves the distance. */
  lemma {:induction false} ShortestAchieves(a: string, b: string)
    ensures Edits(Shortest(a, b), a, b) && Cost(Shortest(a, b)) == Distance(a, b)
    decreases |a| + |b|
  {
    hide Edits, Distance;
    DistanceOfEmpty(a, b);
    if a != "" && b != "" {
      DistanceStep(a, b);
      ShortestAchieves(Init(a), Init(b));
      LastStep(Shortest(Init(a), Init(b)), a, b);
    }
    if a != "" {
      DistanceOfEmpty(Init(a), b);
      ShortestAchieves(Init(a), b);
      LastStep(Shortest(Init(a), b), a, b);
    }
    if b != "" {
      DistanceOfEmpty(a, Init(b));
      ShortestAchieves(a, Init(b));
      LastStep(Shortest(a, Init(b)), a, b);
    }
    NothingToDo();
  }

  lemma NothingToDo()
    ensures Edits(Done, "", "")
  {
  }

  /** No script is shorter. */
  lemma {:induction false} NoneShorter(script: Script, a: string, b: string)
    requires Edits(script, a, b)
    ensures Cost(script) >= Distance(a, b)
    decreases script
  {
    match script
    case Done =>
    case Keep(before) =>
      NoneShorter(before, Init(a), Apply(before, Init(a)).value);
      assert b == Apply(before, Init(a)).value + [Last(a)] && Init(b) == Apply(before, Init(a)).value;
    case Change(before, to) =>
      NoneShorter(before, Init(a), Apply(before, Init(a)).value);
      assert Init(b) == Apply(before, Init(a)).value;
    case Insert(before, to) =>
      NoneShorter(before, a, Apply(before, a).value);
      assert Init(b) == Apply(before, a).value;
    case Delete(before) =>
      NoneShorter(before, Init(a), b);
  }

  /** The distance is the least cost of a script: achieved by one, undercut by none. */
  ghost predicate IsEditDistance(n: nat, a: string, b: string) {
    (exists script :: Edits(script, a, b) && Cost(script) == n)
    && forall script :: Edits(script, a, b) ==> n <= Cost(script)
  }

  lemma DistanceIsLeastCost(a: string, b: string)
    ensures IsEditDistance(Distance(a, b), a, b)
  {
    ShortestAchieves(a, b);
    forall script | Edits(script, a, b) ensures Distance(a, b) <= Cost(script) {
      NoneShorter(script, a, b);
    }
  }

  // ----- A metric -----

  /** Doing `s` and then `t`, step by step. */
  function Compose(s: Script, t: Script): Script
    decreases s, t
  {
    match (s, t)
    case (_, Insert(t', to)) => Insert(Compose(s, t'), to)
    case (Delete(s'), _) => Delete(Compose(s', t))
    case (Done, _) => Done
    case (Keep(s'), Keep(t')) => Keep(Compose(s', t'))
    case (Keep(s'), Change(t', to)) => Change(Compose(s', t'), to)
    case (Keep(s'), Delete(t')) => Delete(Compose(s', t'))
    case (Change(s', to), Keep(t')) => Change(Compose(s', t'), to)
    case (Change(s', _), Change(t', to)) => Change(Compose(s', t'), to)
    case (Change(s', _), Delete(t')) => Delete(Compose(s', t'))
    case (Insert(s', to), Keep(t')) => Insert(Compose(s', t'), to)
    case (Insert(s', _), Change(t', to)) => Insert(Compose(s', t'), to)
    case (Insert(s', _), Delete(t')) => Compose(s', t')
    case (_, Done) => s
  }

  lemma {:induction false} ComposeEdits(s: Script, t: Script, a: string, b: string, c: string)
    requires Edits(s, a, b) && Edits(t, b, c)
    ensures Edits(Compose(s, t), a, c) && Cost(Compose(s, t)) <= Cost(s) + Cost(t)
    decreases s, t
  {
    if t.Insert? {
      ComposeEdits(s, t.before, a, b, Init(c));
      assert c == Init(c) + [t.to];
    } else if s.Delete? {
      ComposeEdits(s.before, t, Init(a), b, c);
    } else if !s.Done? && !t.Done? {
      var a' := if s.Insert? then a else Init(a);
      var c' := if t.Delete? then c else Init(c);
      assert Apply(s.before, a') == Some(Init(b));
      assert Apply(t.before, Init(b)) == Some(c');
      ComposeEdits(s.before, t.before, a', Init(b), c');
      if !t.Delete? { assert c == Init(c) + [Last(c)]; }
    }
  }

  lemma DistanceTriangle(a: string, b: string, c: string)
    ensures Distance(a, c) <= Distance(a, b) + Distance(b, c)
  {
    ShortestAchieves(a, b);
    ShortestAchieves(b, c);
    ComposeEdits(Shortest(a, b), Shortest(b, c), a, b, c);
    NoneShorter(Compose(Shortest(a, b), Shortest(b, c)), a, c);
  }

  lemma {:induction false} DistanceSymmetric(a: string, b: string)
    ensures Distance(a, b) == Distance(b, a)
    decreases |a| + |b|
  {
    if a != "" && b != "" {
      DistanceSymmetric(Init(a), Init(b));
      DistanceSymmetric(Init(a), b);
      DistanceSymmetric(a, Init(b));
    }
  }

  lemma {:induction false} DistanceZero(a: string, b: string)
    ensures Distance(a, b) == 0 <==> a == b
    decreases |a| + |b|
  {
    if a != "" && b != "" {
      DistanceZero(Init(a), Init(b));
      assert a == Init(a) + [Last(a)] && b == Init(b) + [Last(b)];
    }
  }

  lemma {:induction false} DistanceBounds(a: string, b: string)
    ensures Distance(a, b) >= |a| - |b| && Distance(a, b) >= |b| - |a|
    ensures Distance(a, b) <= if |a| <= |b| then |b| else |a|
    decreases |a| + |b|
  {
    if a != "" && b != "" {
      DistanceBounds(Init(a), Init(b));
      DistanceBounds(Init(a), b);
      DistanceBounds(a, Init(b));
    }
  }

  // ----- The two-row table -----

  /** `Array.from({ length: length + 1 }, (_, i) => i)` */
  method Row(length: nat) returns (row: array<int>)
    ensures fresh(row) && row.Length == length + 1
    ensures forall j | 0 <= j <= length :: row[j] == j
  {
    row := new int[length + 1](i => i);
  }

  lemma {:induction false} CellStep(a: string, b: string, i: nat, j: nat)
    requires 1 <= i <= |a| && 1 <= j <= |b|
    ensures Distance(a[..i], b[..j])
         == Min(Distance(a[..i - 1], b[..j - 1]) + (if a[i - 1] == b[j - 1] then 0 else 1),
                Min(Distance(a[..i - 1], b[..j]) + 1, Distance(a[..i], b[..j - 1]) + 1))
  {
    hide Distance;
    DistanceStep(a[..i], b[..j]);
    assert Init(a[..i]) == a[..i - 1] && Init(b[..j]) == b[..j - 1];
  }

  lemma Border(a: string, b: string)
    ensures forall j | 0 <= j <= |b| :: Distance(a[..0], b[..j]) == j
    ensures forall i | 0 <= i <= |a| :: Distance(a[..i], b[..0]) == i
  {
  }

  method EditDistance(a: string, b: string) returns (r: nat)
    ensures r == Distance(a, b)
    ensures IsEditDistance(r, a, b)
  {
    hide *;
    Border(a, b);
    var previous := Row(|b|);
    for i := 1 to |a| + 1
      invariant previous.Length == |b| + 1 && fresh(previous)
      invariant forall j | 0 <= j <= |b| :: previous[j] == Distance(a[..i - 1], b[..j])
    {
      var current := Row(|b|);
      current[0] := i;
      for j := 1 to |b| + 1
        invariant forall k | 0 <= k < j :: current[k] == Distance(a[..i], b[..k])
        invariant forall k | 0 <= k <= |b| :: previous[k] == Distance(a[..i - 1], b[..k])
      {
        var substitution := previous[j - 1] + if a[i - 1] == b[j - 1] then 0 else 1;
        current[j] := Min(substitution, Min(previous[j] + 1, current[j - 1] + 1));
        CellStep(a, b, i, j);
      }
      previous := current;
    }
    assert a[..|a|] == a && b[..|b|] == b;
    r := previous[|b|];
    DistanceIsLeastCost(a, b);
  }

  // ----- nearestPreset -----

  const PRESET_NAMES: seq<string> := ["validator", "anchor-sep24", "issuer"]

  function Threshold(name: string): nat {
    if |name| / 3 >= 1 then |name| / 3 else 1
  }

  /** The first name at the least distance, when that distance is small for a name of this length. */
  method NearestPreset(name: string) returns (r: Option<string>)
    ensures r.Some? <==> exists p | p in ["validator", "anchor-sep24", "issuer"] ::
      Distance(name, p) <= 1 || 3 * Distance(name, p) <= |name|
    ensures r.Some? ==> exists k ::
      && 0 <= k < |PRESET_NAMES| && r.value == PRESET_NAMES[k]
      && (forall i | 0 <= i < |PRESET_NAMES| :: Distance(name, PRESET_NAMES[k]) <= Distance(name, PRESET_NAMES[i]))
      && (forall i | 0 <= i < k :: Distance(name, PRESET_NAMES[k]) < Distance(name, PRESET_NAMES[i]))
  {
    hide Distance;
    var smallest := EditDistance(name, PRESET_NAMES[0]);
    var nearest := 0;
    for i := 1 to |PRESET_NAMES|
      invariant 0 <= nearest < i && smallest == Distance(name, PRESET_NAMES[nearest])
      invariant forall k | 0 <= k < i :: smallest <= Distance(name, PRESET_NAMES[k])
      invariant forall k | 0 <= k < nearest :: smallest < Distance(name, PRESET_NAMES[k])
    {
      var distance := EditDistance(name, PRESET_NAMES[i]);
      if distance < smallest {
        nearest, smallest := i, distance;
      }
    }
    assert PRESET_NAMES[nearest] in PRESET_NAMES;
    r := if smallest <= Threshold(name) then Some(PRESET_NAMES[nearest]) else None;
  }
}
