/**
 The loop of `parseSuppressions` in `src/comments.ts` over its mutable sets: blocks are
 deleted from in place, and no set of the map is ever one of the live blocks.
 */
module SuppressionScan {
  import opened JsText
  import opened Wrappers
  import opened Comments

  /** A mutable set of rule ids. */
  class RuleSet {
    var ids: set<string>

    constructor (ids: set<string>)
      ensures this.ids == ids
    {
      this.ids := ids;
    }
  }

  datatype Entry = Star | Held(of: RuleSet)

  ghost function SetsOf(es: seq<Entry>): set<RuleSet> {
    set e | e in es && e.Held? :: e.of
  }

  ghost function View(e: Entry): Rules
    reads if e.Held? then {e.of} else {}
  {
    if e.Star? then All else Only(e.of.ids)
  }

  ghost function Views(es: seq<Entry>): (r: seq<Rules>)
    reads SetsOf(es)
    ensures |r| == |es| && forall i | 0 <= i < |es| :: r[i] == View(es[i])
  {
    if es == [] then [] else
      assert forall e | e in es[1..] :: e in es;
      [View(es[0])] + Views(es[1..])
  }

  /** No two entries share a set. */
  ghost predicate Apart(es: seq<Entry>) {
    forall i, j | 0 <= i < j < |es| && es[i].Held? && es[j].Held? :: es[i].of != es[j].of
  }

  lemma ViewsConcat(a: seq<Entry>, b: seq<Entry>)
    ensures Views(a + b) == Views(a) + Views(b)
  {
  }

  lemma ViewOfOne(e: Entry, es: seq<Entry>)
    ensures Views([e] + es) == [View(e)] + Views(es) && Views([e]) == [View(e)]
  {
    hide SetsOf;
  }

  lemma ApartWithout(es: seq<Entry>, i: nat)
    requires Apart(es) && i < |es|
    ensures Apart(es[..i] + es[i + 1..]) && SetsOf(es[..i] + es[i + 1..]) <= SetsOf(es)
    ensures es[i].Held? ==> es[i].of !in SetsOf(es[i + 1..])
  {
    var rest := es[..i] + es[i + 1..];
    assert forall j | 0 <= j < |rest| :: rest[j] == es[if j < i then j else j + 1];
  }

  lemma ApartNext(es: seq<Entry>, e: Entry)
    requires Apart(es) && (e.Held? ==> e.of !in SetsOf(es))
    ensures Apart(es + [e]) && SetsOf(es + [e]) == SetsOf(es) + SetsOf([e])
  {
    forall i, j | 0 <= i < j < |es + [e]| && (es + [e])[i].Held? && (es + [e])[j].Held?
      ensures (es + [e])[i].of != (es + [e])[j].of
    {
      assert (es + [e])[i] == es[i] && es[i] in es;
    }
  }

  lemma ApartBefore(es: seq<Entry>, i: nat)
    requires Apart(es) && i < |es|
    ensures forall j | 0 <= j < i && es[j].Held? && es[i].Held? :: es[j].of != es[i].of
  {
  }

  lemma NothingLifted(ids: set<string>)
    ensures Views([]) == [] && Lifted([], ids) == []
  {
  }

  lemma LiftedStep(stack: seq<Rules>, i: nat, ids: set<string>)
    requires i < |stack|
    ensures Lifted(stack[i..], ids) == Without(stack[i], ids) + Lifted(stack[i + 1..], ids)
  {
    assert stack[i..][1..] == stack[i + 1..];
  }

  class Scan {
    var lines: map<nat, Entry>
    var blocks: seq<Entry>
    ghost var Repr: set<RuleSet>

    /** The map's sets are its own: each belongs to one line, and none is a block. */
    ghost predicate Valid()
      reads this
    {
      && SetsOf(blocks) <= Repr && Apart(blocks)
      && (forall n | n in lines && lines[n].Held? :: lines[n].of in Repr && lines[n].of !in SetsOf(blocks))
      && (forall m, n | m in lines && n in lines && m != n && lines[m].Held? && lines[n].Held? :: lines[m].of != lines[n].of)
    }

    ghost function Lines(): map<nat, Rules>
      requires Valid()
      reads this, Repr
    {
      map n | n in lines :: View(lines[n])
    }

    ghost function Stack(): seq<Rules>
      requires Valid()
      reads this, Repr
    {
      Views(blocks)
    }

    constructor ()
      ensures Valid() && Repr == {} && Lines() == map[] && Stack() == []
    {
      lines, blocks, Repr := map[], [], {};
    }

    /** `add`: a set is copied into the map, never shared with it. */
    method Add(line: nat, rules: Entry)
      requires Valid()
      requires rules.Held? ==> forall n | n in lines && lines[n].Held? :: lines[n].of != rules.of
      modifies this`lines, this`Repr, Repr
      ensures Valid() && fresh(Repr - old(Repr)) && old(Repr) <= Repr
      ensures Lines() == AddTo(old(Lines()), line, old(View(rules)))
      ensures Stack() == old(Stack())
      ensures rules.Held? ==> rules.of.ids == old(rules.of.ids)
    {
      hide Views, Apart;
      if rules.Star? {
        lines := lines[line := Star];
        return;
      }
      if line !in lines {
        AddCopy(line, rules.of.ids);
        return;
      }
      var existing := lines[line];
      if existing.Held? {
        existing.of.ids := existing.of.ids + rules.of.ids;
      }
    }

    /** `map.set(line, new Set(rules))`. */
    method AddCopy(line: nat, ids: set<string>)
      requires Valid() && line !in lines
      modifies this`lines, this`Repr
      ensures Valid() && fresh(Repr - old(Repr)) && old(Repr) <= Repr
      ensures Lines() == old(Lines())[line := Only(ids)] && Stack() == old(Stack())
    {
      hide Views, Apart;
      var copy := new RuleSet(ids);
      Repr := Repr + {copy};
      lines := lines[line := Held(copy)];
    }

    /** One turn of that loop: deletes the ids from one block, and splices it out if that empties it. */
    method LiftOne(i: nat, ids: set<string>)
      requires i < |blocks| && Apart(blocks)
      modifies this`blocks, if blocks[i].Held? then {blocks[i].of} else {}
      ensures i <= |blocks| && blocks[..i] == old(blocks[..i])
      ensures Apart(blocks) && SetsOf(blocks) <= old(SetsOf(blocks))
      ensures Views(blocks[i..]) == Without(old(View(blocks[i])), ids) + old(Views(blocks[i + 1..]))
    {
      hide Views, Apart, SetsOf;
      var block := blocks[i];
      ghost var tail := blocks[i + 1..];
      assert blocks[i..] == [block] + tail;
      ViewOfOne(block, tail);
      if block.Star? {
        return;
      }
      ApartWithout(blocks, i);
      block.of.ids := block.of.ids - ids;
      ViewOfOne(block, tail);
      if block.of.ids == {} {
        blocks := blocks[..i] + blocks[i + 1..];
        assert blocks[i..] == tail && blocks[..i] == old(blocks[..i]);
      }
    }

    /** A specific `enable`: deletes from the blocks in place, and splices out those left empty. */
    method Lift(ids: set<string>)
      requires Valid()
      modifies this`blocks, Repr
      ensures Valid() && Lines() == old(Lines()) && Stack() == Lifted(old(Stack()), ids)
    {
      hide Lifted, Without, Views, Apart;
      ghost var was, stack := blocks, Stack();
      var i := |blocks|;
      assert stack[i..] == [] && blocks[i..] == [];
      NothingLifted(ids);
      while i > 0
        invariant 0 <= i <= |was| && i <= |blocks| && blocks[..i] == was[..i]
        invariant forall j | 0 <= j < i && was[j].Held? :: was[j].of.ids == old(was[j].of.ids)
        invariant forall s | s in Repr && s !in SetsOf(was) :: s.ids == old(s.ids)
        invariant Apart(blocks) && SetsOf(blocks) <= SetsOf(was)
        invariant Views(blocks[i..]) == Lifted(stack[i..], ids)
      {
        i := i - 1;
        LiftedStep(stack, i, ids);
        assert blocks[i] == was[..i + 1][i] == was[i];
        ApartBefore(was, i);
        LiftOne(i, ids);
      }
      assert blocks[0..] == blocks && stack[0..] == stack;
    }

    ghost function Abstract(): State
      requires Valid()
      reads this, Repr
    {
      State(Lines(), Stack())
    }

    /** The ids of all blocks, gathered into a new set. */
    method Gather() returns (union: RuleSet)
      requires Valid() && forall i | 0 <= i < |blocks| :: blocks[i].Held?
      ensures fresh(union) && union.ids == Union(Stack())
    {
      union := new RuleSet({});
      var i := |blocks|;
      ghost var stack := Stack();
      assert stack[i..] == [];
      while i > 0
        invariant 0 <= i <= |blocks| && Stack() == stack && union.ids == Union(stack[i..])
      {
        i := i - 1;
        assert stack[i..][1..] == stack[i + 1..] && stack[i] == View(blocks[i]);
        union.ids := union.ids + blocks[i].of.ids;
      }
      assert stack[0..] == stack;
    }

    /** The end of a turn: the blocks that are active now cover the line. */
    method Cover(line: nat)
      requires Valid()
      modifies this`lines, this`Repr, Repr
      ensures Valid() && fresh(Repr - old(Repr)) && old(Repr) <= Repr
      ensures Abstract() == CoverLine(old(Abstract()), line)
    {
      if |blocks| == 0 {
        return;
      }
      if Star in blocks {
        assert All in Stack() by {
          var i :| 0 <= i < |blocks| && blocks[i] == Star;
          assert Stack()[i] == All;
        }
        Add(line, Star);
      } else {
        assert All !in Stack();
        var union := Gather();
        Add(line, Held(union));
      }
    }

    /** Opens a block with a set nobody else holds. */
    method Push(rules: Entry)
      requires Valid() && (rules.Held? ==> rules.of !in Repr)
      modifies this`blocks, this`Repr
      ensures Valid() && Repr == old(Repr) + SetsOf([rules])
      ensures Lines() == old(Lines()) && Stack() == old(Stack()) + [View(rules)]
    {
      hide Views, Apart;
      ViewsConcat(blocks, [rules]);
      ViewOfOne(rules, []);
      ApartNext(blocks, rules);
      blocks := blocks + [rules];
      Repr := Repr + SetsOf([rules]);
    }

    /** A bare `enable`. */
    method Clear()
      requires Valid()
      modifies this`blocks
      ensures Valid() && Lines() == old(Lines()) && Stack() == []
    {
      blocks := [];
    }

    /** What the pragma of a line does. */
    method Obey(line: nat, p: Pragma)
      requires Valid()
      modifies this, Repr
      ensures Valid() && fresh(Repr - old(Repr)) && old(Repr) <= Repr
      ensures Abstract() == Heed(old(Abstract()), line, p)
    {
      hide AddTo, Lifted, Views, Union, Apart;
      var rules := Star;
      if p.rules.Only? {
        var parsed := new RuleSet(p.rules.ids);
        rules := Held(parsed);
      }
      match p.kind {
        case DisableLine => Add(line, rules);
        case DisableNextLine => Add(line + 1, rules);
        case Disable => Push(rules);
        case Enable =>
          if rules.Star? {
            Clear();
          } else {
            Lift(rules.of.ids);
          }
      }
    }

    method Turn(line: nat, text: string)
      requires Valid()
      modifies this, Repr
      ensures Valid() && fresh(Repr - old(Repr)) && old(Repr) <= Repr
      ensures Abstract() == Comments.ReadLine(old(Abstract()), line, text)
    {
      var p := PragmaOf(text);
      if p.Some? {
        Obey(line, p.value);
      }
      Cover(line);
    }

    method Suppresses(line: Option<nat>, rule: string) returns (r: bool)
      requires Valid()
      ensures r == IsSuppressed(Lines(), line, rule)
    {
      if line.None? || line.value !in lines {
        return false;
      }
      var entry := lines[line.value];
      return entry.Star? || rule in entry.of.ids;
    }
  }

  method ParseSuppressions(source: string) returns (scan: Scan)
    ensures fresh(scan) && scan.Valid() && scan.Lines() == Suppressions(source)
  {
    hide PragmaOf, Comments.ReadLine;
    scan := new Scan();
    var text := Comments.Lines(source);
    for i := 0 to |text|
      invariant scan.Valid() && fresh(scan.Repr)
      invariant scan.Abstract() == ReadLines(text[..i])
    {
      assert text[..i + 1][..i] == text[..i];
      scan.Turn(i + 1, text[i]);
    }
    assert text[..|text|] == text;
  }
}
