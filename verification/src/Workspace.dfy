// A workspace: the record store and the Redis projection of it. One publication synchronizes
// before it signs anything and again after it has committed.

module Workspace {
  import opened Wrappers
  import opened Ledger
  import opened LedgerProofs
  import opened Feed
  import opened FeedProofs

  datatype World = World(store: State, feed: Projection)

  // How the two synchronizations of one publication find the link.
  datatype Links = Links(before: Link, after: Link)

  datatype Report =
    | Accepted(fact: Id)
    | Pending(fact: Id)
    | Rejected(conflict: Conflict, relayPending: bool)
    | Refused(refusal: Refusal)
    | NotAttempted
    | Internal

  datatype Attempted = Attempted(world: World, report: Report)

  function Relay(w: World, link: Link): Synced {
    Sync(w.feed, Entries(w.store.log), link)
  }

  // publish_task_assignment. The preflight comes before the first synchronization.
  function Attempt(w: World, candidate: Candidate, mode: Mode, links: Links): Attempted {
    match Preflight(w.store, candidate.intent, mode)
    case Some(refusal) => Attempted(w, Report.Refused(refusal))
    case None =>
      var first := Relay(w, links.before);
      if !first.ok then Attempted(World(w.store, first.projection), NotAttempted)
      else
        var o := Publish(w.store, candidate, mode);
        var second := Relay(World(o.state, first.projection), links.after);
        var next := World(o.state, second.projection);
        match o.verdict
        case Done(fact) => Attempted(next, if second.ok then Report.Accepted(fact) else Pending(fact))
        case Reject(conflict) => Attempted(next, Report.Rejected(conflict, !second.ok))
        case _ => Attempted(next, Internal)
  }

  // ------------------------------------------------------------------ in place

  // SQLiteStore, as far as assignments are concerned
  class Store {
    var log: seq<Id>
    var registrations: map<string, Id>
    var claimed: set<string>
    var satisfied: set<string>

    constructor ()
      ensures Contents() == EMPTY
    {
      log, registrations, claimed, satisfied := [], map[], {}, {};
    }

    function Contents(): State
      reads this
    {
      State(log, registrations, claimed, satisfied)
    }

    // _insert_runtime_record
    method Insert(r: Id)
      modifies this`log
      ensures log == Add(old(log), r)
    {
      if r !in log {
        log := log + [r];
      }
    }

    // assignment_history: the contract's facts, or None when they are not a chain.
    method AssignmentHistory(contract: string) returns (r: Option<seq<Id>>)
      requires Distinct(log)
      ensures r == if Chain(History(log, contract)) then Some(History(log, contract)) else None
    {
      var facts, heads, previous := [], {}, NONE;
      var valid := true;
      for i := 0 to |log|
        invariant facts == History(log[..i], contract)
        invariant valid <==> Chain(facts)
        invariant previous == if facts == [] then NONE else facts[|facts| - 1]
        invariant forall f | f in heads :: f in log[..i]
      {
        assert log[..i + 1][..i] == log[..i];
        if IsFactOf(log[i], contract) {
          ghost var before := facts;
          if log[i] in heads || log[i].body.previous != previous {
            valid := false;
          }
          heads, previous, facts := heads + {log[i]}, log[i], facts + [log[i]];
          ChainLast(before, log[i]);
        }
      }
      assert log[..|log|] == log;
      r := if valid then Some(facts) else None;
    }

    // CandidateCommitter.commit
    method Commit(candidate: Candidate) returns (decision: Decision)
      modifies this`log
      ensures decision == Decide(old(Contents()), candidate)
      ensures Contents() == Ledger.Commit(old(Contents()), candidate)
    {
      decision := Decide(Contents(), candidate);
      var records := Written(candidate, decision);
      for i := 0 to |records|
        invariant log == AddAll(old(log), records[..i])
      {
        Insert(records[i]);
        AddAllLast(old(log), records[..i], records[i]);
        assert records[..i + 1] == records[..i] + [records[i]];
      }
      assert records[..|records|] == records;
    }
  }

  lemma ChainLast(h: seq<Id>, f: Id)
    requires f.Record? && f.body.Assigned?
    ensures Chain(h + [f]) <==> Chain(h) && f.body.previous == if h == [] then NONE else h[|h| - 1]
  {
    var next := h + [f];
    if Chain(next) {
      assert Linked(next, |h|);
      forall k | 0 <= k < |h| ensures Linked(h, k) {
        assert Linked(next, k);
      }
    }
    if Chain(h) && f.body.previous == (if h == [] then NONE else h[|h| - 1]) {
      ChainGrow(h, f);
    }
  }

  lemma {:induction false} AddAllLast(log: seq<Id>, rs: seq<Id>, r: Id)
    ensures AddAll(log, rs + [r]) == Add(AddAll(log, rs), r)
    decreases |rs|
  {
    if rs == [] {
      assert [] + [r] == [r];
      assert AddAll(Add(log, r), []) == Add(log, r);
    } else {
      assert (rs + [r])[1..] == rs[1..] + [r];
      AddAllLast(Add(log, rs[0]), rs[1..], r);
    }
  }

  // What one append may hold, in events and in bytes of commands.
  const MAX_APPEND_EVENTS: nat := 256
  const MAX_APPEND_BYTES: nat := 1048576

  // The bytes of the commands that write one event, and the metadata for one revision.
  datatype Sizes = Sizes(event: Event -> nat, meta: nat -> nat)

  function Weight(events: seq<Event>, sizes: Sizes): nat {
    if events == [] then 0 else Weight(events[..|events| - 1], sizes) + sizes.event(events[|events| - 1])
  }

  // Small enough to be written in one transaction; a single event always is.
  predicate FitsPage(page: seq<Event>, sizes: Sizes) {
    0 < |page| <= MAX_APPEND_EVENTS && (|page| > 1 ==> Weight(page, sizes) <= MAX_APPEND_BYTES)
  }

  // A page has at most 256 events and, unless it is a single event, at most a mebibyte of commands.
  lemma PageBounds(page: seq<Event>, sizes: Sizes)
    ensures FitsPage(page, sizes) <==> 1 <= |page| <= 256 && (|page| == 1 || Weight(page, sizes) <= 1024 * 1024)
  {
    hide Weight;
  }

  // The weight of events is the sum of their own.
  lemma {:induction false} WeightSums(a: seq<Event>, b: seq<Event>, e: Event, sizes: Sizes)
    ensures Weight(a + b, sizes) == Weight(a, sizes) + Weight(b, sizes) && Weight([e], sizes) == sizes.event(e)
  {
    assert [e][..0] == [] && Weight([], sizes) == 0;
    if b == [] {
      assert a + b == a;
    } else {
      assert (a + b)[..|a + b| - 1] == a + b[..|b| - 1];
      WeightSums(a, b[..|b| - 1], e, sizes);
    }
  }

  // The pages written and the page in hand hold the events so far.
  predicate Staged(pages: seq<seq<Event>>, page: seq<Event>, bytes: nat, events: seq<Event>, sizes: Sizes) {
    && Join(pages) + page == events && bytes == Weight(page, sizes)
    && (page != [] ==> FitsPage(page, sizes)) && forall p | p in pages :: FitsPage(p, sizes)
  }

  lemma StagedNone(sizes: Sizes)
    ensures Staged([], [], 0, [], sizes) && Join<Event>([]) == []
  {
  }

  lemma StagedPage(pages: seq<seq<Event>>, page: seq<Event>, bytes: nat, events: seq<Event>, sizes: Sizes)
    requires Staged(pages, page, bytes, events, sizes) && page != []
    ensures Staged(pages + [page], [], 0, events, sizes) && Join(pages + [page]) == Join(pages) + page
  {
    hide FitsPage, Join;
    JoinLast(pages, page);
    assert Join(pages + [page]) + [] == Join(pages + [page]);
  }

  lemma StagedEvent(pages: seq<seq<Event>>, page: seq<Event>, bytes: nat, events: seq<Event>, e: Event, sizes: Sizes)
    requires Staged(pages, page, bytes, events, sizes)
    requires page == [] || (|page| < MAX_APPEND_EVENTS && bytes + sizes.event(e) <= MAX_APPEND_BYTES)
    ensures Staged(pages, page + [e], bytes + sizes.event(e), events + [e], sizes)
  {
    hide Join;
    Glue(Join(pages), page, [e]);
    assert (page + [e])[..|page|] == page;
  }

  lemma StagedWhole(pages: seq<seq<Event>>, bytes: nat, events: seq<Event>, sizes: Sizes)
    requires Staged(pages, [], bytes, events, sizes)
    ensures Join(pages) == events && forall p | p in pages :: FitsPage(p, sizes)
  {
    hide FitsPage, Join;
    assert Join(pages) + [] == Join(pages);
  }

  // RedisCollaborationService over its two keys
  class Redis {
    var stream: StreamKey
    var meta: MetaKey
    const sizes: Sizes

    constructor (sizes: Sizes)
      ensures Contents() == BLANK && this.sizes == sizes
    {
      stream, meta := NoStream, NoMeta;
      this.sizes := sizes;
    }

    function Contents(): Projection
      reads this
    {
      Projection(stream, meta)
    }

    // _append: MULTI and EXEC around one XADD per event, then HSET
    method Append(suffix: seq<Event>, revision: nat)
      requires !stream.OtherStream?
      modifies this`stream, this`meta
      ensures stream == Stream((if old(stream).Stream? then old(stream).events else []) + suffix)
      ensures meta == Meta(Number(revision), SCHEMA)
    {
      var before := if stream.Stream? then stream.events else [];
      stream := Stream(before);
      for i := 0 to |suffix|
        invariant stream == Stream(before + suffix[..i])
      {
        stream := Stream(stream.events + [suffix[i]]);
        assert before + suffix[..i] + [suffix[i]] == before + suffix[..i + 1];
      }
      assert suffix[..|suffix|] == suffix;
      meta := Meta(Number(revision), SCHEMA);
    }

    // _stage_and_swap: the whole log, written in bounded pages to a staged stream, replaces the
    // live one at once.
    method StageAndSwap(entries: seq<Event>) returns (pages: seq<seq<Event>>)
      modifies this`stream, this`meta
      ensures stream == Stream(entries) && meta == Meta(Number(Last(entries)), SCHEMA)
      ensures Join(pages) == entries && forall p | p in pages :: FitsPage(p, sizes)
    {
      var staged, page, bytes: nat := [], [], 0;
      pages := [];
      StagedNone(sizes);
      hide Staged, Weight, Join;
      for i := 0 to |entries|
        invariant staged == Join(pages) && Staged(pages, page, bytes, entries[..i], sizes)
      {
        var size := sizes.event(entries[i]);
        if page != [] && (|page| >= MAX_APPEND_EVENTS || bytes + size > MAX_APPEND_BYTES) {
          StagedPage(pages, page, bytes, entries[..i], sizes);
          staged, pages := staged + page, pages + [page];
          page, bytes := [], 0;
        }
        StagedEvent(pages, page, bytes, entries[..i], entries[i], sizes);
        assert entries[..i + 1] == entries[..i] + [entries[i]];
        page, bytes := page + [entries[i]], bytes + size;
      }
      assert entries[..|entries|] == entries;
      if page != [] {
        StagedPage(pages, page, bytes, entries, sizes);
        staged, pages := staged + page, pages + [page];
        page, bytes := [], 0;
      }
      StagedWhole(pages, bytes, entries, sizes);
      stream, meta := Stream(staged), Meta(Number(Last(entries)), SCHEMA);
    }

    // sync. A long suffix is staged instead of appended, to the same end.
    method Sync(entries: seq<Event>, link: Link) returns (ok: bool)
      requires Rising(entries) && Orderly(Contents())
      modifies this
      ensures Synced(Contents(), ok) == FeedProofs.Sync(old(Contents()), entries, link)
    {
      if link.Down? {
        return false;
      }
      var proof := ProvePrefix(entries, Contents());
      match proof {
        case Broken(_) => return false;
        case Proved(watermark, relation) =>
          if relation.Ahead? {
            return false;
          }
          if relation.Equal? {
            return true;
          }
          if !Applies(link) {
            return false;
          }
          var suffix := Range(entries, watermark, Last(entries));
          if |suffix| <= MAX_APPEND_EVENTS
             && Weight(suffix, sizes) + sizes.meta(Last(entries)) <= MAX_APPEND_BYTES {
            Append(suffix, Last(entries));
          } else {
            AppendIsFull(Contents(), entries);
            SomethingBehind(Contents(), entries);
            var _ := StageAndSwap(entries);
          }
          return link.Up?;
      }
    }
  }

  lemma SomethingBehind(p: Projection, entries: seq<Event>)
    requires Behind(p, entries)
    ensures entries != []
  {
  }

  function Now(store: Store, redis: Redis): World
    reads store, redis
  {
    World(store.Contents(), redis.Contents())
  }

  method PublishAssignment(store: Store, redis: Redis, candidate: Candidate, mode: Mode, links: Links)
    returns (report: Report)
    requires Orderly(redis.Contents())
    modifies store, redis
    ensures Orderly(redis.Contents())
    ensures Attempted(Now(store, redis), report) == Attempt(old(Now(store, redis)), candidate, mode, links)
  {
    ghost var start := Now(store, redis);
    hide Sync, Preflight, Decide, Ledger.Commit, FactOf, Orderly, Rising;
    match Preflight(store.Contents(), candidate.intent, mode) {
      case Some(refusal) => return Report.Refused(refusal);
      case None =>
    }
    EntriesRising(store.log);
    var ok := redis.Sync(Entries(store.log), links.before);
    SyncOrderly(start.feed, Entries(start.store.log), links.before);
    if !ok {
      return NotAttempted;
    }
    var decision := store.Commit(candidate);
    EntriesRising(store.log);
    ghost var feed := redis.Contents();
    ok := redis.Sync(Entries(store.log), links.after);
    SyncOrderly(feed, Entries(store.log), links.after);
    match decision {
      case Refused(conflict) => return Report.Rejected(conflict, !ok);
      case _ =>
        match FactOf(store.log, candidate) {
          case Some(fact) => return if ok then Report.Accepted(fact) else Pending(fact);
          case None => return Internal;
        }
    }
  }

  lemma SyncOrderly(p: Projection, entries: seq<Event>, link: Link)
    requires Rising(entries) && Orderly(p)
    ensures Orderly(Sync(p, entries, link).projection)
  {
    SyncExact(p, entries, link);
  }
}
