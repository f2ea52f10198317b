// Stage attribution of instrumented work: counters are kept in total and per active stage while
// instrumented calls nest and raise.

module Accounting {
  datatype Stage = OtherWork | ContextTotal | FullContext | PreCommit | WriterReduce | WriterIngress

  // What is counted, in total and per stage.
  datatype Item =
    | Fetched
    | RowClass(category: string)
    | Calls(name: string)
    | Returned(name: string)
    | Decoded(kind: string)

  // One thing the measured code does. Anything may raise. Catch goes on with its handler when its
  // body has raised, and may then raise again.
  datatype Action =
    | Fetch(category: string, raises: bool)
    | Decode(kind: string, raises: bool)
    | Query(name: string, body: seq<Action>, length: nat, raises: bool)
    | Enter(stage: Stage, body: seq<Action>, raises: bool)
    | Catch(body: seq<Action>, handler: seq<Action>, raises: bool)

  type Counts = map<Item, nat>

  function Get(m: Counts, item: Item): nat {
    if item in m then m[item] else 0
  }

  function Bucket(m: map<Stage, Counts>, stage: Stage): Counts {
    if stage in m then m[stage] else map[]
  }

  // ------------------------------------------------------------------ what is attributed where

  datatype Event = Event(item: Item, stage: Stage, amount: nat)
  datatype Trace = Trace(events: seq<Event>, raised: bool)

  // The counted events of an action begun in some stage, in order, up to an exception that nothing
  // catches.
  function TraceOf(a: Action, stage: Stage): Trace
    decreases a, 0
  {
    match a
    case Fetch(category, raises) =>
      Trace([Event(Fetched, stage, 1)] + if raises then [] else [Event(RowClass(category), stage, 1)], raises)
    case Decode(kind, raises) => Trace([Event(Decoded(kind), stage, 1)], raises)
    case Query(name, body, length, raises) =>
      var inner := TraceAll(body, stage, |body|);
      if inner.raised || raises then Trace(inner.events, true)
      else Trace(inner.events + [Event(Calls(name), stage, 1), Event(Returned(name), stage, length)], false)
    case Enter(entered, body, raises) =>
      var inner := TraceAll(body, entered, |body|);
      Trace(inner.events, inner.raised || raises)
    case Catch(body, handler, raises) =>
      var inner := TraceAll(body, stage, |body|);
      if !inner.raised then inner
      else
        var caught := TraceAll(handler, stage, |handler|);
        Trace(inner.events + caught.events, caught.raised || raises)
  }

  // The first n actions, one after another.
  function TraceAll(actions: seq<Action>, stage: Stage, n: nat): Trace
    requires n <= |actions|
    decreases actions, n
  {
    if n == 0 then Trace([], false)
    else
      var before := TraceAll(actions, stage, n - 1);
      if before.raised then before
      else
        var last := TraceOf(actions[n - 1], stage);
        Trace(before.events + last.events, last.raised)
  }

  function Plus(m: Counts, item: Item, amount: nat): Counts {
    m[item := Get(m, item) + amount]
  }

  function PlusIn(b: map<Stage, Counts>, e: Event): map<Stage, Counts> {
    b[e.stage := Plus(Bucket(b, e.stage), e.item, e.amount)]
  }

  function Totals(m: Counts, events: seq<Event>): Counts {
    if events == [] then m
    else
      var e := events[|events| - 1];
      Plus(Totals(m, events[..|events| - 1]), e.item, e.amount)
  }

  function Staged(m: map<Stage, Counts>, events: seq<Event>): map<Stage, Counts> {
    if events == [] then m
    else
      var e := events[|events| - 1];
      PlusIn(Staged(m, events[..|events| - 1]), e)
  }

  // ------------------------------------------------------------------ the wrappers

  class Instrument {
    var active: Stage
    var total: Counts
    var staged: map<Stage, Counts>

    ghost predicate Balanced()
      reads this
    {
      AddUp(total, staged)
    }

    constructor ()
      ensures active == OtherWork && total == map[] && staged == map[] && Balanced()
    {
      active, total, staged := OtherWork, map[], map[];
    }

    method Count(item: Item, amount: nat)
      modifies this
      ensures active == old(active)
      ensures total == Totals(old(total), [Event(item, active, amount)])
      ensures staged == Staged(old(staged), [Event(item, active, amount)])
    {
      total := total[item := Get(total, item) + amount];
      var bucket := Bucket(staged, active);
      staged := staged[active := bucket[item := Get(bucket, item) + amount]];
      assert [Event(item, active, amount)][..0] == [];
    }

    // counting_row_factory, and the wrappers of _row_to_*, of the store's queries, and of the
    // staged functions with their try and finally
    method Perform(a: Action) returns (raised: bool)
      modifies this
      ensures active == old(active) && (old(Balanced()) ==> Balanced())
      ensures var t := TraceOf(a, active);
              && raised == t.raised
              && total == Totals(old(total), t.events) && staged == Staged(old(staged), t.events)
      decreases a, 0
    {
      ghost var start, buckets := total, staged;
      StillAddUp(total, staged, TraceOf(a, active).events);
      hide AddUp, Totals, Staged;
      match a
      case Fetch(category, raises) =>
        Count(Fetched, 1);
        if raises {
          assert [Event(Fetched, active, 1)] + [] == [Event(Fetched, active, 1)];
          return true;
        }
        Count(RowClass(category), 1);
        Tallied(start, buckets, [Event(Fetched, active, 1)], [Event(RowClass(category), active, 1)]);
        return false;
      case Decode(kind, raises) =>
        Count(Decoded(kind), 1);
        return raises;
      case Query(name, body, length, raises) =>
        raised := PerformAll(body);
        if raised || raises {
          return true;
        }
        Count(Calls(name), 1);
        Count(Returned(name), length);
        ghost var inner := TraceAll(body, active, |body|).events;
        var calls, returned := Event(Calls(name), active, 1), Event(Returned(name), active, length);
        Tallied(start, buckets, inner, [calls]);
        Tallied(start, buckets, inner + [calls], [returned]);
        assert inner + [calls] + [returned] == inner + [calls, returned];
        return false;
      case Enter(stage, body, raises) =>
        var previous := active;
        active := stage;
        raised := PerformAll(body);
        active := previous;
        return raised || raises;
      case Catch(body, handler, raises) =>
        raised := PerformAll(body);
        if !raised {
          return false;
        }
        raised := PerformAll(handler);
        Tallied(start, buckets, TraceAll(body, active, |body|).events, TraceAll(handler, active, |handler|).events);
        return raised || raises;
    }

    method PerformAll(actions: seq<Action>) returns (raised: bool)
      modifies this
      ensures active == old(active) && (old(Balanced()) ==> Balanced())
      ensures var t := TraceAll(actions, active, |actions|);
              && raised == t.raised
              && total == Totals(old(total), t.events) && staged == Staged(old(staged), t.events)
      decreases actions
    {
      ghost var start, buckets := total, staged;
      StillAddUp(total, staged, TraceAll(actions, active, |actions|).events);
      NothingYet(actions, active, total, staged);
      hide AddUp, Totals, Staged, TraceOf, TraceAll;
      raised := false;
      var i := 0;
      while i < |actions| && !raised
        invariant i <= |actions| && active == old(active)
        invariant var t := TraceAll(actions, active, i);
                  raised == t.raised && total == Totals(start, t.events) && staged == Staged(buckets, t.events)
      {
        ghost var before := TraceAll(actions, active, i);
        raised := Perform(actions[i]);
        OneFurther(actions, active, i);
        Tallied(start, buckets, before.events, TraceOf(actions[i], active).events);
        i := i + 1;
      }
      Stopped(actions, active, i);
    }
  }

  lemma NothingYet(actions: seq<Action>, stage: Stage, m: Counts, b: map<Stage, Counts>)
    ensures TraceAll(actions, stage, 0) == Trace([], false) && Totals(m, []) == m && Staged(b, []) == b
  {
  }

  lemma OneFurther(actions: seq<Action>, stage: Stage, i: nat)
    requires i < |actions| && !TraceAll(actions, stage, i).raised
    ensures var before, last := TraceAll(actions, stage, i), TraceOf(actions[i], stage);
            TraceAll(actions, stage, i + 1) == Trace(before.events + last.events, last.raised)
  {
    hide TraceOf;
  }

  lemma {:induction false} Stopped(actions: seq<Action>, stage: Stage, n: nat)
    requires n <= |actions| && (n < |actions| ==> TraceAll(actions, stage, n).raised)
    ensures TraceAll(actions, stage, |actions|) == TraceAll(actions, stage, n)
    decreases |actions| - n
  {
    if n < |actions| {
      Stopped(actions, stage, n + 1);
    }
  }

  lemma Tallied(m: Counts, b: map<Stage, Counts>, first: seq<Event>, second: seq<Event>)
    ensures Totals(m, first + second) == Totals(Totals(m, first), second)
    ensures Staged(b, first + second) == Staged(Staged(b, first), second)
  {
    TotalsAppend(m, first, second);
    StagedAppend(b, first, second);
  }

  lemma {:induction false} TotalsAppend(m: Counts, first: seq<Event>, second: seq<Event>)
    ensures Totals(m, first + second) == Totals(Totals(m, first), second)
  {
    hide Plus;
    if second == [] {
      assert first + second == first;
    } else {
      assert (first + second)[..|first + second| - 1] == first + second[..|second| - 1];
      TotalsAppend(m, first, second[..|second| - 1]);
    }
  }

  lemma {:induction false} StagedAppend(b: map<Stage, Counts>, first: seq<Event>, second: seq<Event>)
    ensures Staged(b, first + second) == Staged(Staged(b, first), second)
  {
    hide PlusIn;
    if second == [] {
      assert first + second == first;
    } else {
      assert (first + second)[..|first + second| - 1] == first + second[..|second| - 1];
      StagedAppend(b, first, second[..|second| - 1]);
    }
  }

  // ------------------------------------------------------------------ what adds up

  function At(b: map<Stage, Counts>, stage: Stage, item: Item): nat {
    Get(Bucket(b, stage), item)
  }

  function SumOver(b: map<Stage, Counts>, item: Item): nat {
    At(b, OtherWork, item) + At(b, ContextTotal, item) + At(b, FullContext, item)
    + At(b, PreCommit, item) + At(b, WriterReduce, item) + At(b, WriterIngress, item)
  }

  // Every item's stages add up to its total.
  ghost predicate AddUp(m: Counts, b: map<Stage, Counts>) {
    forall item: Item :: SumOver(b, item) == Get(m, item)
  }

  lemma StillAddUp(m: Counts, b: map<Stage, Counts>, events: seq<Event>)
    ensures AddUp(m, b) ==> AddUp(Totals(m, events), Staged(b, events))
  {
    hide SumOver;
    if AddUp(m, b) {
      forall item: Item ensures SumOver(Staged(b, events), item) == Get(Totals(m, events), item) {
        BucketsAddUp(m, b, events, item);
      }
    }
  }

  // Where the stages add up to the totals, they still do after any nesting of calls, whether they
  // return or raise.
  lemma {:induction false} BucketsAddUp(m: Counts, b: map<Stage, Counts>, events: seq<Event>, item: Item)
    requires SumOver(b, item) == Get(m, item)
    ensures SumOver(Staged(b, events), item) == Get(Totals(m, events), item)
  {
    if events != [] {
      var front, e := events[..|events| - 1], events[|events| - 1];
      hide PlusIn, Plus, SumOver, Get;
      BucketsAddUp(m, b, front, item);
      OneMore(Staged(b, front), e, item);
      GetPlus(Totals(m, front), e.item, e.amount, item);
    }
  }

  lemma GetPlus(m: Counts, item: Item, amount: nat, other: Item)
    ensures Get(Plus(m, item, amount), other) == Get(m, other) + if other == item then amount else 0
  {
  }

  lemma AtPlus(b: map<Stage, Counts>, e: Event, stage: Stage, item: Item)
    ensures At(PlusIn(b, e), stage, item) == At(b, stage, item) + if stage == e.stage && item == e.item then e.amount else 0
  {
    GetPlus(Bucket(b, e.stage), e.item, e.amount, item);
  }

  lemma OneMore(b: map<Stage, Counts>, e: Event, item: Item)
    ensures SumOver(PlusIn(b, e), item) == SumOver(b, item) + if item == e.item then e.amount else 0
  {
    hide PlusIn, At;
    AtPlus(b, e, OtherWork, item);
    AtPlus(b, e, ContextTotal, item);
    AtPlus(b, e, FullContext, item);
    AtPlus(b, e, PreCommit, item);
    AtPlus(b, e, WriterReduce, item);
    AtPlus(b, e, WriterIngress, item);
  }

  // ------------------------------------------------------------------ how much

  // How much the events count of an item in a stage
  function Sum(events: seq<Event>, stage: Stage, item: Item): nat {
    if events == [] then 0
    else
      var e := events[|events| - 1];
      Sum(events[..|events| - 1], stage, item) + if e.stage == stage && e.item == item then e.amount else 0
  }

  lemma {:induction false} SumAppend(a: seq<Event>, b: seq<Event>, stage: Stage, item: Item)
    ensures Sum(a + b, stage, item) == Sum(a, stage, item) + Sum(b, stage, item)
  {
    if b == [] {
      assert a + b == a;
    } else {
      assert (a + b)[..|a + b| - 1] == a + b[..|b| - 1];
      SumAppend(a, b[..|b| - 1], stage, item);
    }
  }

  lemma {:induction false} SumStaged(b: map<Stage, Counts>, events: seq<Event>, stage: Stage, item: Item)
    ensures At(Staged(b, events), stage, item) == At(b, stage, item) + Sum(events, stage, item)
  {
    if events != [] {
      var front, e := events[..|events| - 1], events[|events| - 1];
      hide PlusIn, At;
      SumStaged(b, front, stage, item);
      AtPlus(Staged(b, front), e, stage, item);
    }
  }

  lemma SumOne(e: Event, stage: Stage, item: Item)
    ensures Sum([e], stage, item) == if e.stage == stage && e.item == item then e.amount else 0
  {
    assert [e][..0] == [];
    assert Sum([], stage, item) == 0;
  }

  lemma SumTwo(d: Event, e: Event, stage: Stage, item: Item)
    ensures Sum([d, e], stage, item)
         == (if d.stage == stage && d.item == item then d.amount else 0)
            + if e.stage == stage && e.item == item then e.amount else 0
  {
    assert [d, e] == [d] + [e];
    SumAppend([d], [e], stage, item);
    SumOne(d, stage, item);
    SumOne(e, stage, item);
  }

  // A fetch counts one row in the active stage, and one of its class when it can be told; decoding
  // counts one of its kind before it can raise.
  lemma FetchCounts(category: string, kind: string, raises: bool, active: Stage, stage: Stage, item: Item)
    ensures Sum(TraceOf(Fetch(category, raises), active).events, stage, item)
         == if stage == active && (item == Fetched || (item == RowClass(category) && !raises)) then 1 else 0
    ensures Sum(TraceOf(Decode(kind, raises), active).events, stage, item)
         == if stage == active && item == Decoded(kind) then 1 else 0
  {
    SumOne(Event(Fetched, active, 1), stage, item);
    SumTwo(Event(Fetched, active, 1), Event(RowClass(category), active, 1), stage, item);
    SumOne(Event(Decoded(kind), active, 1), stage, item);
    assert [Event(Fetched, active, 1)] + [] == [Event(Fetched, active, 1)];
    assert [Event(Fetched, active, 1)] + [Event(RowClass(category), active, 1)]
        == [Event(Fetched, active, 1), Event(RowClass(category), active, 1)];
  }

  // A query that returns adds, to what happens inside it, one call and as many returned rows as its
  // result is long, both in the stage active around it; one that raises adds nothing.
  lemma QueryCounts(name: string, body: seq<Action>, length: nat, raises: bool, active: Stage, stage: Stage, item: Item)
    ensures var inner, t := TraceAll(body, active, |body|), TraceOf(Query(name, body, length, raises), active);
            && t.raised == (inner.raised || raises)
            && Sum(t.events, stage, item)
               == Sum(inner.events, stage, item)
                  + if t.raised || stage != active then 0
                    else if item == Calls(name) then 1
                    else if item == Returned(name) then length
                    else 0
  {
    var inner := TraceAll(body, active, |body|);
    SumAppend(inner.events, [Event(Calls(name), active, 1), Event(Returned(name), active, length)], stage, item);
    SumTwo(Event(Calls(name), active, 1), Event(Returned(name), active, length), stage, item);
    hide TraceAll, Sum;
  }

  // Entering a stage counts everything inside as there, and what is caught is counted with what is
  // done about it.
  lemma NestedCounts(entered: Stage, body: seq<Action>, handler: seq<Action>, raises: bool, active: Stage, stage: Stage,
                     item: Item)
    ensures TraceOf(Enter(entered, body, raises), active).events == TraceAll(body, entered, |body|).events
    ensures var tried, caught := TraceAll(body, active, |body|), TraceAll(handler, active, |handler|);
            Sum(TraceOf(Catch(body, handler, raises), active).events, stage, item)
            == Sum(tried.events, stage, item) + if tried.raised then Sum(caught.events, stage, item) else 0
  {
    SumAppend(TraceAll(body, active, |body|).events, TraceAll(handler, active, |handler|).events, stage, item);
    hide TraceAll, Sum;
  }

  // Actions one after another: each counts what it counts, up to the first that raises.
  lemma SequenceCounts(actions: seq<Action>, active: Stage, stage: Stage, item: Item, n: nat)
    requires n < |actions|
    ensures var before, now := TraceAll(actions, active, n), TraceAll(actions, active, n + 1);
            Sum(now.events, stage, item)
            == Sum(before.events, stage, item)
               + if before.raised then 0 else Sum(TraceOf(actions[n], active).events, stage, item)
  {
    if !TraceAll(actions, active, n).raised {
      OneFurther(actions, active, n);
      SumAppend(TraceAll(actions, active, n).events, TraceOf(actions[n], active).events, stage, item);
    }
    hide TraceOf, Sum;
  }

  // The stage in which something is counted.
  predicate CountedIn(t: Trace, stage: Stage) {
    exists e :: e in t.events && e.stage == stage
  }

  predicate Enters(a: Action, stage: Stage) {
    match a
    case Enter(entered, body, _) => entered == stage || exists i | 0 <= i < |body| :: Enters(body[i], stage)
    case Query(_, body, _, _) => exists i | 0 <= i < |body| :: Enters(body[i], stage)
    case Catch(body, handler, _) =>
      (exists i | 0 <= i < |body| :: Enters(body[i], stage)) || exists i | 0 <= i < |handler| :: Enters(handler[i], stage)
    case _ => false
  }

  // Only a stage that is active at the start or entered on the way is ever charged.
  lemma {:induction false} Charged(a: Action, stage: Stage, other: Stage)
    requires stage != other && !Enters(a, other)
    ensures !CountedIn(TraceOf(a, stage), other)
    decreases a, 0
  {
    match a
    case Fetch(_, _) =>
    case Decode(_, _) =>
    case Query(_, body, _, _) => ChargedAll(body, stage, other, |body|);
    case Enter(entered, body, _) => ChargedAll(body, entered, other, |body|);
    case Catch(body, handler, _) =>
      ChargedAll(body, stage, other, |body|);
      ChargedAll(handler, stage, other, |handler|);
  }

  lemma {:induction false} ChargedAll(actions: seq<Action>, stage: Stage, other: Stage, n: nat)
    requires stage != other && n <= |actions| && forall i | 0 <= i < |actions| :: !Enters(actions[i], other)
    ensures !CountedIn(TraceAll(actions, stage, n), other)
    decreases actions, n
  {
    if n > 0 {
      ChargedAll(actions, stage, other, n - 1);
      Charged(actions[n - 1], stage, other);
    }
  }

  // Totals know nothing of stages: the same work begun in another stage counts the same.
  function Amounts(events: seq<Event>): seq<(Item, nat)> {
    seq(|events|, i requires 0 <= i < |events| => (events[i].item, events[i].amount))
  }

  lemma {:induction false} StageBlind(a: Action, s: Stage, t: Stage)
    ensures Amounts(TraceOf(a, s).events) == Amounts(TraceOf(a, t).events) && TraceOf(a, s).raised == TraceOf(a, t).raised
    decreases a, 0
  {
    match a
    case Fetch(_, _) =>
    case Decode(_, _) =>
    case Query(name, body, length, _) =>
      StageBlindAll(body, s, t, |body|);
      AmountsAppend(TraceAll(body, s, |body|).events, [Event(Calls(name), s, 1), Event(Returned(name), s, length)]);
      AmountsAppend(TraceAll(body, t, |body|).events, [Event(Calls(name), t, 1), Event(Returned(name), t, length)]);
      assert Amounts([Event(Calls(name), s, 1), Event(Returned(name), s, length)])
          == Amounts([Event(Calls(name), t, 1), Event(Returned(name), t, length)]);
    case Enter(_, _, _) =>
    case Catch(body, handler, _) =>
      StageBlindAll(body, s, t, |body|);
      StageBlindAll(handler, s, t, |handler|);
      AmountsAppend(TraceAll(body, s, |body|).events, TraceAll(handler, s, |handler|).events);
      AmountsAppend(TraceAll(body, t, |body|).events, TraceAll(handler, t, |handler|).events);
  }

  lemma {:induction false} StageBlindAll(actions: seq<Action>, s: Stage, t: Stage, n: nat)
    requires n <= |actions|
    ensures Amounts(TraceAll(actions, s, n).events) == Amounts(TraceAll(actions, t, n).events)
    ensures TraceAll(actions, s, n).raised == TraceAll(actions, t, n).raised
    decreases actions, n
  {
    if n > 0 {
      StageBlindAll(actions, s, t, n - 1);
      StageBlind(actions[n - 1], s, t);
      AmountsAppend(TraceAll(actions, s, n - 1).events, TraceOf(actions[n - 1], s).events);
      AmountsAppend(TraceAll(actions, t, n - 1).events, TraceOf(actions[n - 1], t).events);
    }
  }

  lemma AmountsAppend(a: seq<Event>, b: seq<Event>)
    ensures Amounts(a + b) == Amounts(a) + Amounts(b)
  {
  }
}
