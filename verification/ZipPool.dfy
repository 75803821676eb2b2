/**
 The bounded pool `mapConcurrency` of `src/browser/zip-validator.ts`, under every
 order in which the mapper's promises may settle.
 */
module ZipPool {
  import opened Wrappers

  /**
   The pool's variables, and what it did to the outside: which indices were handed
   to the mapper, which of those are unsettled, rejected or fulfilled, and each `resolve` call.
   */
  datatype Pool<U> = Pool(
    next: nat, running: int, done: nat, results: seq<Option<U>>,
    started: seq<nat>, pending: set<nat>, failed: set<nat>, settled: set<nat>, resolutions: seq<seq<Option<U>>>)

  /** How a promise that the mapper returned settles. */
  datatype Event<U> = Fulfil(index: nat, value: U) | Reject(index: nat)

  // ----- The steps -----

  /** One turn of the loop of `tick`: the next item is started, or passed over if it is undefined. */
  function TakeNext<T, U>(items: seq<Option<T>>, p: Pool<U>): (q: Pool<U>)
    requires p.next < |items|
    ensures q.next == p.next + 1
  {
    if items[p.next].None? then p.(next := p.next + 1)
    else
      p.(next := p.next + 1, running := p.running + 1, started := p.started + [p.next], pending := p.pending + {p.next})
  }

  /** The loop of `tick`: start tasks while there is room. */
  function Fill<T, U>(items: seq<Option<T>>, concurrency: int, p: Pool<U>): Pool<U>
    decreases |items| - p.next
  {
    if p.running < concurrency && p.next < |items| then Fill(items, concurrency, TakeNext(items, p)) else p
  }

  function Tick<T, U>(items: seq<Option<T>>, concurrency: int, p: Pool<U>): Pool<U> {
    var q := Fill(items, concurrency, p);
    if q.running == 0 && q.done == |items| then q.(resolutions := q.resolutions + [q.results]) else q
  }

  function Fresh<U>(n: nat): Pool<U> {
    Pool(0, 0, 0, seq(n, i => None), [], {}, {}, {}, [])
  }

  function Step<T, U>(items: seq<Option<T>>, concurrency: int, p: Pool<U>, e: Event<U>): Pool<U>
    requires e.index < |p.results|
  {
    match e
    case Fulfil(i, value) =>
      Tick(items, concurrency,
           p.(results := p.results[i := Some(value)], pending := p.pending - {i}, settled := p.settled + {i},
              running := p.running - 1, done := p.done + 1))
    case Reject(i) => p.(pending := p.pending - {i}, failed := p.failed + {i})
  }

  // ----- The same as shared variables that callbacks change -----

  class PoolState<T, U> {
    const items: seq<Option<T>>
    const concurrency: int
    const results: array<Option<U>>
    var next: nat
    var running: int
    var done: nat
    ghost var started: seq<nat>
    ghost var pending: set<nat>
    ghost var failed: set<nat>
    ghost var settled: set<nat>
    ghost var resolutions: seq<seq<Option<U>>>

    ghost function Abstract(): Pool<U>
      reads this, results
    {
      Pool(next, running, done, results[..], started, pending, failed, settled, resolutions)
    }

    constructor (items: seq<Option<T>>, concurrency: int)
      ensures this.items == items && this.concurrency == concurrency && fresh(results) && results.Length == |items|
      ensures Abstract() == Tick(items, concurrency, Fresh(|items|))
    {
      this.items, this.concurrency := items, concurrency;
      results := new Option<U>[|items|](_ => None);
      next, running, done := 0, 0, 0;
      started, pending, failed, settled, resolutions := [], {}, {}, {}, [];
      new;
      assert Abstract() == Fresh(|items|);
      TickNow();
    }

    method TickNow()
      requires results.Length == |items|
      modifies this
      ensures Abstract() == Tick(items, concurrency, old(Abstract()))
    {
      while running < concurrency && next < |items|
        invariant Fill(items, concurrency, Abstract()) == Fill(items, concurrency, old(Abstract()))
        decreases |items| - next
      {
        var index := next;
        next := next + 1;
        if items[index].None? {
          continue;
        }
        running := running + 1;
        started, pending := started + [index], pending + {index};
      }
      if running == 0 && done == |items| {
        resolutions := resolutions + [results[..]];
      }
    }

    /** The mapper's promise for `index` is fulfilled. */
    method Fulfilled(index: nat, value: U)
      requires results.Length == |items| && index < |items|
      modifies this, results
      ensures Abstract() == Step(items, concurrency, old(Abstract()), Fulfil(index, value))
    {
      results[index] := Some(value);
      pending, settled := pending - {index}, settled + {index};
      running, done := running - 1, done + 1;
      TickNow();
    }

    /** The mapper's promise for `index` is rejected: nothing but `reject` happens. */
    method Rejected(index: nat)
      requires results.Length == |items| && index < |items|
      modifies this
      ensures Abstract() == Step(items, concurrency, old(Abstract()), Reject(index))
    {
      pending, failed := pending - {index}, failed + {index};
    }
  }

  // ----- Every interleaving -----

  /** The pool after the events, in that order. */
  function After<T, U>(items: seq<Option<T>>, concurrency: int, events: seq<Event<U>>): Pool<U>
    decreases |events|
  {
    if events == [] then Tick(items, concurrency, Fresh(|items|))
    else
      var p := After(items, concurrency, events[..|events| - 1]);
      var e := events[|events| - 1];
      if e.index < |p.results| then Step(items, concurrency, p, e) else p
  }

  /** Only unsettled promises settle: the schedules that can happen. */
  predicate Possible<T, U>(items: seq<Option<T>>, concurrency: int, events: seq<Event<U>>)
    decreases |events|
  {
    events != [] ==>
      && Possible(items, concurrency, events[..|events| - 1])
      && events[|events| - 1].index in After(items, concurrency, events[..|events| - 1]).pending
  }

  /** The indices below `n` that hold an item, in order. */
  function Defined<T>(items: seq<Option<T>>, n: nat): seq<nat>
    requires n <= |items|
  {
    if n == 0 then []
    else
      var d := Defined(items, n - 1);
      if items[n - 1].Some? then d + [n - 1] else d
  }

  lemma {:induction false} DefinedAscends<T>(items: seq<Option<T>>, n: nat)
    requires n <= |items|
    ensures var d := Defined(items, n);
      && (forall j | 0 <= j < |d| :: d[j] < n && items[d[j]].Some?)
      && (forall i | 0 <= i < n && items[i].Some? :: i in d)
      && (forall j, k | 0 <= j < k < |d| :: d[j] < d[k])
  {
    if n > 0 {
      DefinedAscends(items, n - 1);
    }
  }

  /** Each item below `next` is unsettled, rejected or fulfilled, and only one of these. */
  ghost predicate Cover<T>(items: seq<Option<T>>, next: nat, pending: set<nat>, failed: set<nat>, settled: set<nat>)
    requires next <= |items|
  {
    && (forall i: nat :: i < next && items[i].Some? <==> i in pending || i in failed || i in settled)
    && (forall i | i in pending :: i !in failed && i !in settled)
    && (forall i | i in failed :: i !in settled)
  }

  /** The results are those of the fulfilled tasks. */
  ghost predicate Filled<U>(results: seq<Option<U>>, settled: set<nat>) {
    forall i: nat | i < |results| :: results[i].Some? <==> i in settled
  }

  predicate Counted(concurrency: int, running: int, done: nat, pending: set<nat>, failed: set<nat>, settled: set<nat>) {
    && running == |pending| + |failed| && done == |settled|
    && running <= if concurrency < 0 then 0 else concurrency
  }

  /** What holds of the bookkeeping, also in the middle of a tick. */
  ghost predicate Books<T, U>(items: seq<Option<T>>, concurrency: int, p: Pool<U>) {
    && p.next <= |items| && |p.results| == |items| && p.started == Defined(items, p.next)
    && Cover(items, p.next, p.pending, p.failed, p.settled)
    && Filled(p.results, p.settled)
    && Counted(concurrency, p.running, p.done, p.pending, p.failed, p.settled)
  }

  /** What holds between events. */
  ghost predicate Inv<T, U>(items: seq<Option<T>>, concurrency: int, p: Pool<U>) {
    && Books(items, concurrency, p)
    && (p.next == |items| || p.running >= concurrency)
    && p.resolutions == if p.running == 0 && p.done == |items| then [p.results] else []
  }

  lemma OneMore(s: set<nat>, i: nat)
    ensures i in s ==> |s - {i}| == |s| - 1
    ensures i !in s ==> |s + {i}| == |s| + 1
  {
  }

  lemma StartOne<T, U>(items: seq<Option<T>>, concurrency: int, p: Pool<U>)
    requires Books(items, concurrency, p) && p.next < |items| && p.running < concurrency
    ensures Books(items, concurrency, TakeNext(items, p))
  {
    hide Filled, Cover, Defined, Counted, TakeNext;
    var q := TakeNext(items, p);
    CoverNext(items, p.next, p.pending, p.failed, p.settled);
    DefinedNext(items, p.next);
    CountedNext(concurrency, p.running, p.done, p.pending, p.failed, p.settled, p.pending + {p.next});
    Taken(items, p);
    assert Cover(items, q.next, q.pending, q.failed, q.settled);
    assert Counted(concurrency, q.running, q.done, q.pending, q.failed, q.settled);
  }

  lemma Taken<T, U>(items: seq<Option<T>>, p: Pool<U>)
    requires p.next < |items|
    ensures var q := TakeNext(items, p);
      && q.next == p.next + 1 && q.results == p.results && q.failed == p.failed && q.settled == p.settled && q.done == p.done
      && q.running == p.running + (if items[p.next].Some? then 1 else 0)
      && q.started == (if items[p.next].Some? then p.started + [p.next] else p.started)
      && q.pending == (if items[p.next].Some? then p.pending + {p.next} else p.pending)
  {
  }

  lemma CountedNext(concurrency: int, running: int, done: nat, pending: set<nat>, failed: set<nat>, settled: set<nat>,
                    more: set<nat>)
    requires Counted(concurrency, running, done, pending, failed, settled) && running < concurrency
    ensures |more| == |pending| + 1 ==> Counted(concurrency, running + 1, done, more, failed, settled)
  {
  }

  lemma CoverNext<T>(items: seq<Option<T>>, next: nat, pending: set<nat>, failed: set<nat>, settled: set<nat>)
    requires next < |items| && Cover(items, next, pending, failed, settled)
    ensures items[next].None? ==> Cover(items, next + 1, pending, failed, settled)
    ensures items[next].Some? ==>
      Cover(items, next + 1, pending + {next}, failed, settled) && |pending + {next}| == |pending| + 1
  {
    assert next !in pending && next !in failed && next !in settled;
    OneMore(pending, next);
  }

  lemma DefinedNext<T>(items: seq<Option<T>>, n: nat)
    requires n < |items|
    ensures Defined(items, n + 1) == if items[n].Some? then Defined(items, n) + [n] else Defined(items, n)
  {
  }

  lemma {:induction false} FillKeeps<T, U>(items: seq<Option<T>>, concurrency: int, p: Pool<U>)
    requires Books(items, concurrency, p)
    ensures var q := Fill(items, concurrency, p);
      && Books(items, concurrency, q) && (q.next == |items| || q.running >= concurrency)
      && q.done == p.done && q.results == p.results && q.resolutions == p.resolutions && q.failed == p.failed && q.settled == p.settled
    decreases |items| - p.next
  {
    hide Books;
    if p.running < concurrency && p.next < |items| {
      StartOne(items, concurrency, p);
      FillKeeps(items, concurrency, TakeNext(items, p));
    } else {
      assert p.next <= |items| by { BooksBound(items, concurrency, p); }
    }
  }

  lemma BooksBound<T, U>(items: seq<Option<T>>, concurrency: int, p: Pool<U>)
    requires Books(items, concurrency, p)
    ensures p.next <= |items|
  {
  }

  lemma TickKeeps<T, U>(items: seq<Option<T>>, concurrency: int, p: Pool<U>)
    requires Books(items, concurrency, p) && p.resolutions == []
    ensures Inv(items, concurrency, Tick(items, concurrency, p))
    ensures var q := Tick(items, concurrency, p);
      q.failed == p.failed && q.settled == p.settled && q.results == p.results
  {
    hide Defined, Cover, Filled, Counted;
    FillKeeps(items, concurrency, p);
  }

  lemma FreshBooks<T, U>(items: seq<Option<T>>, concurrency: int)
    ensures Books(items, concurrency, Fresh<U>(|items|))
  {
  }

  lemma MoveOut<T>(items: seq<Option<T>>, next: nat, pending: set<nat>, failed: set<nat>, settled: set<nat>, i: nat)
    requires next <= |items| && Cover(items, next, pending, failed, settled) && i in pending
    ensures Cover(items, next, pending - {i}, failed, settled + {i})
    ensures Cover(items, next, pending - {i}, failed + {i}, settled)
    ensures |pending - {i}| == |pending| - 1 && |failed + {i}| == |failed| + 1 && |settled + {i}| == |settled| + 1
  {
    OneMore(pending, i);
    OneMore(failed, i);
    OneMore(settled, i);
  }

  lemma FillIn<U>(results: seq<Option<U>>, settled: set<nat>, i: nat, value: U)
    requires Filled(results, settled) && i < |results|
    ensures Filled(results[i := Some(value)], settled + {i})
  {
  }

  lemma SettleOne<T, U>(items: seq<Option<T>>, concurrency: int, p: Pool<U>, i: nat, value: U)
    requires Inv(items, concurrency, p) && i in p.pending && i < |p.results|
    ensures var q := p.(results := p.results[i := Some(value)], pending := p.pending - {i}, settled := p.settled + {i},
                        running := p.running - 1, done := p.done + 1);
      Books(items, concurrency, q) && q.resolutions == []
  {
    hide Cover, Filled;
    MoveOut(items, p.next, p.pending, p.failed, p.settled, i);
    FillIn(p.results, p.settled, i, value);
  }

  lemma FailOne<T, U>(items: seq<Option<T>>, concurrency: int, p: Pool<U>, i: nat)
    requires Inv(items, concurrency, p) && i in p.pending && i < |p.results|
    ensures Inv(items, concurrency, p.(pending := p.pending - {i}, failed := p.failed + {i}))
  {
    hide Cover, Filled;
    MoveOut(items, p.next, p.pending, p.failed, p.settled, i);
  }

  lemma PendingInRange<T, U>(items: seq<Option<T>>, concurrency: int, p: Pool<U>, i: nat)
    requires Inv(items, concurrency, p) && i in p.pending
    ensures i < |p.results| && |p.results| == |items|
  {
  }

  /** The invariant holds after every schedule. */
  lemma {:induction false} InvariantHolds<T, U>(items: seq<Option<T>>, concurrency: int, events: seq<Event<U>>)
    requires Possible(items, concurrency, events)
    ensures Inv(items, concurrency, After(items, concurrency, events))
    decreases |events|
  {
    hide Books, Tick;
    if events == [] {
      FreshBooks<T, U>(items, concurrency);
      TickKeeps(items, concurrency, Fresh<U>(|items|));
    } else {
      var front, e := events[..|events| - 1], events[|events| - 1];
      var q := After(items, concurrency, front);
      InvariantHolds(items, concurrency, front);
      PendingInRange(items, concurrency, q, e.index);
      match e {
        case Fulfil(i, value) =>
          SettleOne(items, concurrency, q, i, value);
          TickKeeps(items, concurrency,
                    q.(results := q.results[i := Some(value)], pending := q.pending - {i}, settled := q.settled + {i},
                       running := q.running - 1, done := q.done + 1));
        case Reject(i) => FailOne(items, concurrency, q, i);
      }
    }
  }

  // ----- Main results -----

  /** However the promises settle, no more than `concurrency` tasks are ever under way. */
  lemma BoundHolds<T, U>(items: seq<Option<T>>, concurrency: int, events: seq<Event<U>>)
    requires Possible(items, concurrency, events)
    ensures var p := After(items, concurrency, events);
      |p.pending| <= p.running <= if concurrency < 0 then 0 else concurrency
  {
    hide After, Possible;
    InvariantHolds(items, concurrency, events);
  }

  /** Tasks start in input order, each at most once, and exactly the defined items that were reached. */
  lemma StartedOnce<T, U>(items: seq<Option<T>>, concurrency: int, events: seq<Event<U>>)
    requires Possible(items, concurrency, events)
    ensures var p := After(items, concurrency, events);
      && (forall j, k | 0 <= j < k < |p.started| :: p.started[j] < p.started[k])
      && (forall i: nat | i < |items| :: i in p.started <==> i < p.next && items[i].Some?)
      && (p.pending == {} && p.failed == {} && concurrency >= 1 ==> p.next == |items|)
  {
    hide After, Possible, Defined;
    InvariantHolds(items, concurrency, events);
    DefinedAscends(items, After(items, concurrency, events).next);
  }

  lemma {:induction false} AllBelow(s: set<nat>, n: nat)
    requires forall i | i in s :: i < n
    ensures |s| <= n && (|s| == n <==> forall i: nat | i < n :: i in s)
    decreases n
  {
    if n > 0 {
      OneMore(s, n - 1);
      AllBelow(s - {n - 1}, n - 1);
      assert n - 1 !in s ==> s - {n - 1} == s;
      assert forall i: nat | i < n - 1 :: i in s <==> i in s - {n - 1};
    } else {
      assert s == {};
    }
  }

  /**
   The pool resolves at most once. With room for a task it resolves exactly when every
   started task was fulfilled, none rejected, and no item was undefined; without room,
   only when there is nothing to do.
   */
  lemma ResolvesIff<T, U>(items: seq<Option<T>>, concurrency: int, events: seq<Event<U>>)
    requires Possible(items, concurrency, events)
    ensures var p := After(items, concurrency, events);
      && |p.resolutions| <= 1
      && (p.resolutions != [] <==>
            if concurrency >= 1 then p.pending == {} && p.failed == {} && forall i | 0 <= i < |items| :: items[i].Some?
            else items == [])
  {
    hide After, Possible, Filled, Defined;
    InvariantHolds(items, concurrency, events);
    var p := After(items, concurrency, events);
    AllBelow(p.settled, |items|);
    if concurrency < 1 && items != [] {
      NothingStarts(items, concurrency, events);
    }
  }

  lemma {:induction false} NothingStarts<T, U>(items: seq<Option<T>>, concurrency: int, events: seq<Event<U>>)
    requires Possible(items, concurrency, events) && concurrency < 1
    ensures After(items, concurrency, events).settled == {}
    decreases |events|
  {
    if events != [] {
      var front := events[..|events| - 1];
      NothingStarts(items, concurrency, front);
      InvariantHolds(items, concurrency, front);
    } else {
      FreshBooks<T, U>(items, concurrency);
      TickKeeps(items, concurrency, Fresh<U>(|items|));
    }
  }

  lemma StartFacts<T, U>(items: seq<Option<T>>, concurrency: int)
    ensures var p := After<T, U>(items, concurrency, []);
      p.results == seq(|items|, i => None) && p.settled == {} && p.failed == {} && p.done == 0
  {
    hide Fill, Defined, Cover, Filled;
    FreshBooks<T, U>(items, concurrency);
    FillKeeps(items, concurrency, Fresh<U>(|items|));
  }

  /** What one event changes. */
  lemma StepFacts<T, U>(items: seq<Option<T>>, concurrency: int, events: seq<Event<U>>)
    requires Possible(items, concurrency, events) && events != []
    ensures var front, e := events[..|events| - 1], events[|events| - 1];
      var q, p := After(items, concurrency, front), After(items, concurrency, events);
      && Possible(items, concurrency, front) && Inv(items, concurrency, q) && Inv(items, concurrency, p)
      && e.index in q.pending && e.index < |items| && |q.results| == |p.results| == |items|
      && p.results == (if e.Fulfil? then q.results[e.index := Some(e.value)] else q.results)
      && p.settled == (if e.Fulfil? then q.settled + {e.index} else q.settled)
      && p.failed == (if e.Fulfil? then q.failed else q.failed + {e.index})
  {
    hide Books, Tick;
    var front, e := events[..|events| - 1], events[|events| - 1];
    var q := After(items, concurrency, front);
    InvariantHolds(items, concurrency, events);
    InvariantHolds(items, concurrency, front);
    PendingInRange(items, concurrency, q, e.index);
    if e.Fulfil? {
      SettleOne(items, concurrency, q, e.index, e.value);
      TickKeeps(items, concurrency,
                q.(results := q.results[e.index := Some(e.value)], pending := q.pending - {e.index},
                   settled := q.settled + {e.index}, running := q.running - 1, done := q.done + 1));
    }
  }

  /** A result is the value its task was fulfilled with. */
  lemma {:induction false} ResultsAreFulfilled<T, U>(items: seq<Option<T>>, concurrency: int, events: seq<Event<U>>, i: nat)
    requires Possible(items, concurrency, events) && i < |items|
    ensures var p := After(items, concurrency, events);
      && |p.results| == |items|
      && (p.results[i].Some? ==> Fulfil(i, p.results[i].value) in events)
      && (i in p.settled <==> exists v :: Fulfil(i, v) in events) && (i in p.failed <==> Reject(i) in events)
    decreases |events|
  {
    hide After, Possible, Inv;
    if events == [] {
      StartFacts<T, U>(items, concurrency);
    } else {
      StepFacts(items, concurrency, events);
      ResultsAreFulfilled(items, concurrency, events[..|events| - 1], i);
      EventsSplit(events, events[|events| - 1]);
    }
  }

  lemma EventsSplit<U>(events: seq<Event<U>>, e: Event<U>)
    requires events != [] && e == events[|events| - 1]
    ensures forall x :: x in events <==> x in events[..|events| - 1] || x == e
  {
    assert events == events[..|events| - 1] + [e];
  }

  /** What the pool resolves with: for each item, in input order, the value its task was fulfilled with. */
  lemma ResolvesInOrder<T, U>(items: seq<Option<T>>, concurrency: int, events: seq<Event<U>>)
    requires Possible(items, concurrency, events) && After(items, concurrency, events).resolutions != []
    ensures var r := After(items, concurrency, events).resolutions[0];
      |r| == |items| && forall i: nat | i < |items| :: r[i].Some? && Fulfil(i, r[i].value) in events
  {
    hide After, Possible, Defined, Counted;
    InvariantHolds(items, concurrency, events);
    ResolvesIff(items, concurrency, events);
    var p := After(items, concurrency, events);
    forall i: nat | i < |items| ensures p.results[i].Some? && Fulfil(i, p.results[i].value) in events {
      AllSettled(items, concurrency, p, i);
      ResultsAreFulfilled(items, concurrency, events, i);
    }
  }

  lemma AllSettled<T, U>(items: seq<Option<T>>, concurrency: int, p: Pool<U>, i: nat)
    requires Inv(items, concurrency, p) && p.resolutions != [] && i < |items|
    ensures p.results[i].Some?
  {
    AllBelow(p.settled, |items|);
  }

  /** Once a task was rejected the pool never resolves. */
  lemma RejectionIsFinal<T, U>(items: seq<Option<T>>, concurrency: int, events: seq<Event<U>>, i: nat)
    requires Possible(items, concurrency, events) && Reject(i) in events && i < |items|
    ensures After(items, concurrency, events).resolutions == []
  {
    hide After, Possible, Books;
    ResultsAreFulfilled(items, concurrency, events, i);
    InvariantHolds(items, concurrency, events);
    assert |After(items, concurrency, events).failed| > 0;
    RunningCounts(items, concurrency, After(items, concurrency, events));
  }

  lemma RunningCounts<T, U>(items: seq<Option<T>>, concurrency: int, p: Pool<U>)
    requires Books(items, concurrency, p)
    ensures p.running == |p.pending| + |p.failed|
  {
  }

  /** Every event settles one more task, so a run has at most as many events as there are items. */
  lemma {:induction false} RunsAreShort<T, U>(items: seq<Option<T>>, concurrency: int, events: seq<Event<U>>)
    requires Possible(items, concurrency, events)
    ensures var p := After(items, concurrency, events);
      |events| == |p.settled| + |p.failed| <= |items|
    decreases |events|
  {
    hide After, Possible, Inv;
    if events == [] {
      StartFacts<T, U>(items, concurrency);
    } else {
      var front, e := events[..|events| - 1], events[|events| - 1];
      StepFacts(items, concurrency, events);
      RunsAreShort(items, concurrency, front);
      NewlySettled(items, concurrency, After(items, concurrency, front), e.index);
      SettledBound(items, concurrency, After(items, concurrency, events));
    }
  }

  lemma NewlySettled<T, U>(items: seq<Option<T>>, concurrency: int, p: Pool<U>, i: nat)
    requires Inv(items, concurrency, p) && i in p.pending
    ensures |p.settled + {i}| == |p.settled| + 1 && |p.failed + {i}| == |p.failed| + 1
  {
    MoveOut(items, p.next, p.pending, p.failed, p.settled, i);
  }

  lemma SettledBound<T, U>(items: seq<Option<T>>, concurrency: int, p: Pool<U>)
    requires Inv(items, concurrency, p)
    ensures |p.settled| + |p.failed| <= |items|
  {
    hide Defined, Filled;
    assert p.settled * p.failed == {};
    assert |p.settled + p.failed| == |p.settled| + |p.failed|;
    AllBelow(p.settled + p.failed, |items|);
  }

  /** No stall: with room for a task, no rejection and no undefined item, an unresolved pool waits for some task. */
  lemma NeverStalls<T, U>(items: seq<Option<T>>, concurrency: int, events: seq<Event<U>>)
    requires Possible(items, concurrency, events) && concurrency >= 1
    requires forall i | 0 <= i < |items| :: items[i].Some?
    requires forall e | e in events :: e.Fulfil?
    ensures var p := After(items, concurrency, events);
      p.resolutions == [] ==> p.pending != {}
  {
    hide After, Possible;
    ResolvesIff(items, concurrency, events);
    InvariantHolds(items, concurrency, events);
    var p := After(items, concurrency, events);
    if p.failed != {} {
      var i :| i in p.failed;
      FailedInRange(items, concurrency, p, i);
      ResultsAreFulfilled(items, concurrency, events, i);
    }
  }

  lemma FailedInRange<T, U>(items: seq<Option<T>>, concurrency: int, p: Pool<U>, i: nat)
    requires Inv(items, concurrency, p) && i in p.failed
    ensures i < |items|
  {
  }
}
