// Runs of a whole workspace: publications under failing links, catching up, and everything else
// that happens in the store. The feed never leaves the log.

module WorkspaceProofs {
  import opened Wrappers
  import opened Ledger
  import opened LedgerProofs
  import opened LedgerGraph
  import opened LedgerOutcomes
  import opened Feed
  import opened FeedProofs
  import opened Workspace

  ghost predicate Healthy(w: World) {
    Sound(w.store) && Mirrors(w.feed, Entries(w.store.log))
  }

  datatype Happening =
    | Local(step: Step)
    | Publication(candidate: Candidate, mode: Mode, links: Links)
    | CatchUp(link: Link)

  function Happen(w: World, e: Happening): World {
    match e
    case Local(step) => World(Next(w.store, step), w.feed)
    case Publication(candidate, mode, links) => Attempt(w, candidate, mode, links).world
    case CatchUp(link) => World(w.store, Relay(w, link).projection)
  }

  function After(w: World, es: seq<Happening>): World {
    if es == [] then w else Happen(After(w, es[..|es| - 1]), es[|es| - 1])
  }

  const START := World(EMPTY, BLANK)

  function Mark(w: World): int {
    Watermark(w.feed.meta)
  }

  // The relayed events.
  function Events(p: Projection): seq<Feed.Event> {
    if p.stream.Stream? then p.stream.events else []
  }

  // ------------------------------------------------------------------ steps

  // The store moves on; the feed, which lags, is still a prefix.
  lemma StoreGrows(w: World, store: State)
    requires Healthy(w) && Sound(store) && w.store.log <= store.log
    ensures Healthy(World(store, w.feed))
  {
    EntriesGrow(w.store.log, store.log);
    MirrorsGrow(w.feed, Entries(w.store.log), Entries(store.log)[|w.store.log|..]);
  }

  // The feed after a publication whose last synchronization was not confirmed.
  function FeedLeft(w: World, now: State, links: Links): Projection {
    Full(Entries(if links.after.Unconfirmed? then now.log else w.store.log))
  }

  lemma RelayKeeps(w: World, link: Link)
    requires Healthy(w)
    ensures Healthy(World(w.store, Relay(w, link).projection))
    ensures Mark(w) <= Watermark(Relay(w, link).projection.meta)
    ensures Relay(w, link).projection == if Applies(link) then Full(Entries(w.store.log)) else w.feed
    ensures Relay(w, link).ok <==> link.Up? || (!link.Down? && w.feed == Full(Entries(w.store.log)))
  {
    hide Sync, Sound;
    EntriesRising(w.store.log);
    MirrorsSync(w.feed, Entries(w.store.log), link);
  }

  // One publication: the store does what the ledger says unless nothing was attempted. What the
  // feed then holds depends on the report and on whether an unconfirmed append was applied.
  lemma AttemptKeeps(w: World, candidate: Candidate, mode: Mode, links: Links)
    requires Healthy(w)
    ensures var a, o := Attempt(w, candidate, mode, links), Publish(w.store, candidate, mode);
            && Healthy(a.world) && Mark(w) <= Mark(a.world) && w.store.log <= a.world.store.log
            && a.world.store == (if a.report.NotAttempted? then w.store else o.state)
            && !a.report.Internal?
            && (a.report.Refused? <==> o.verdict.Refuse?)
            && (a.report.Refused? ==> o.verdict == Refuse(a.report.refusal))
            && (a.report.Refused? ==> a.world == w)
            && (a.report.NotAttempted? ==>
                  a.world.feed == if links.before.Unconfirmed? then Full(Entries(w.store.log)) else w.feed)
            && (a.report.Accepted? ==> o.verdict == Done(a.report.fact) && a.world.feed == Full(Entries(o.state.log)))
            && (a.report.Pending? ==> o.verdict == Done(a.report.fact) && a.world.feed == FeedLeft(w, o.state, links))
            && (a.report.Rejected? ==>
                  o.verdict == Reject(a.report.conflict)
                  && a.world.feed
                     == if a.report.relayPending then FeedLeft(w, o.state, links) else Full(Entries(o.state.log)))
            && (o.verdict.Done? && !a.report.NotAttempted? ==> a.report.Accepted? || a.report.Pending?)
            && (o.verdict.Reject? && !a.report.NotAttempted? ==> a.report.Rejected?)
  {
    hide Preflight, Sync, Mirrors, Full, Relay, Sound;
    PublishKeeps(w.store, candidate, mode);
    if Preflight(w.store, candidate.intent, mode) == None {
      PreflightPublish(w.store, candidate, mode);
      RelayKeeps(w, links.before);
      var first := Relay(w, links.before);
      if first.ok {
        hide Publish;
        var o := Publish(w.store, candidate, mode);
        StoreGrows(World(w.store, first.projection), o.state);
        RelayKeeps(World(o.state, first.projection), links.after);
      }
    }
  }

  lemma PreflightPublish(s: State, candidate: Candidate, mode: Mode)
    ensures Publish(s, candidate, mode).verdict.Refuse? <==> Preflight(s, candidate.intent, mode).Some?
  {
  }

  lemma HappenKeeps(w: World, e: Happening)
    requires Healthy(w)
    ensures Healthy(Happen(w, e)) && Mark(w) <= Mark(Happen(w, e)) && w.store.log <= Happen(w, e).store.log
  {
    hide Sound, Mirrors, Attempt, Relay, Next;
    match e
    case Local(step) =>
      SoundNext(w.store, step);
      StoreGrows(w, Next(w.store, step));
    case Publication(candidate, mode, links) => AttemptKeeps(w, candidate, mode, links);
    case CatchUp(link) => RelayKeeps(w, link);
  }

  // ------------------------------------------------------------------ runs

  lemma StartHealthy()
    ensures Healthy(START)
  {
    EmptySound();
    assert Full(Entries(EMPTY.log)[..0]) == BLANK;
  }

  // In every reachable workspace the ledger is sound and the feed a prefix of its log; the log
  // only grows, and the watermark never decreases.
  lemma {:induction false} RunHealthy(w: World, es: seq<Happening>)
    requires Healthy(w)
    ensures Healthy(After(w, es)) && Mark(w) <= Mark(After(w, es)) && w.store.log <= After(w, es).store.log
  {
    hide Happen, Healthy;
    if es != [] {
      RunHealthy(w, es[..|es| - 1]);
      HappenKeeps(After(w, es[..|es| - 1]), es[|es| - 1]);
    }
  }

  predicate NoRecordTwice(events: seq<Feed.Event>) {
    forall i, j | 0 <= i < j < |events| :: events[i].record != events[j].record
  }

  // The feed is exactly the log up to the watermark, each record once and at its own revision.
  lemma FeedExact(w: World)
    requires Healthy(w)
    ensures 0 <= Mark(w) <= |w.store.log| && Events(w.feed) == Entries(w.store.log)[..Mark(w)]
    ensures NoRecordTwice(Events(w.feed))
    ensures forall i | 0 <= i < |w.store.log| ::
              (exists j | 0 <= j < |Events(w.feed)| :: Events(w.feed)[j] == Feed.Event(i + 1, w.store.log[i])) <==> i < Mark(w)
  {
    var entries := Entries(w.store.log);
    var k :| 0 <= k <= |entries| && w.feed == Full(entries[..k]);
    FeedTells(w.store.log, w.feed, k);
  }

  lemma FeedTells(log: seq<Id>, feed: Projection, k: nat)
    requires Grounded(log) && k <= |log| && feed == Full(Entries(log)[..k])
    ensures Watermark(feed.meta) == k && Events(feed) == Entries(log)[..k]
    ensures NoRecordTwice(Events(feed))
    ensures forall i | 0 <= i < |log| ::
              (exists j | 0 <= j < |Events(feed)| :: Events(feed)[j] == Feed.Event(i + 1, log[i])) <==> i < k
  {
    GroundedDistinct(log);
    hide Grounded, Entries, Distinct, NoRecordTwice;
    FullFront(log, feed, k);
    FrontOnce(log, k);
    forall i | 0 <= i < |log|
      ensures (exists j | 0 <= j < |Events(feed)| :: Events(feed)[j] == Feed.Event(i + 1, log[i])) <==> i < k
    {
      FrontHolds(log, k, i);
    }
  }

  lemma FullFront(log: seq<Id>, feed: Projection, k: nat)
    requires k <= |log| && feed == Full(Entries(log)[..k])
    ensures Watermark(feed.meta) == k && Events(feed) == Entries(log)[..k]
  {
  }

  lemma FrontOnce(log: seq<Id>, k: nat)
    requires Distinct(log) && k <= |log|
    ensures NoRecordTwice(Entries(log)[..k])
  {
  }

  lemma FrontHolds(log: seq<Id>, k: nat, i: nat)
    requires k <= |log| && i < |log|
    ensures (exists j | 0 <= j < k :: Entries(log)[..k][j] == Feed.Event(i + 1, log[i])) <==> i < k
  {
    var front := Entries(log)[..k];
    assert forall j | 0 <= j < k :: front[j] == Feed.Event(j + 1, log[j]);
    if i < k {
      assert front[i] == Feed.Event(i + 1, log[i]);
    }
  }

  // A fact reported pending is not in the feed and lies above the watermark, unless it had been
  // committed before, so that only this command's answer is pending, or the append was applied
  // and not confirmed. This is for one client; beside others, see Sharing.
  lemma PendingAbove(w: World, candidate: Candidate, mode: Mode, links: Links)
    requires Healthy(w) && Attempt(w, candidate, mode, links).report.Pending?
    ensures var a := Attempt(w, candidate, mode, links);
            var fact := a.report.fact;
            && fact in a.world.store.log
            && Mark(a.world) == |if links.after.Unconfirmed? then a.world.store.log else w.store.log|
            && (IsCommitted(w.store.log, candidate) <==> fact in w.store.log)
            && ((exists e :: e in Events(a.world.feed) && e.record == fact)
                <==> IsCommitted(w.store.log, candidate) || links.after.Unconfirmed?)
  {
    hide Attempt, Sound, Mirrors, Publish, Full;
    AttemptKeeps(w, candidate, mode, links);
    PendingFact(w.store, candidate, mode);
    var a := Attempt(w, candidate, mode, links);
    WholeLog(if links.after.Unconfirmed? then a.world.store else w.store, a.world.feed, a.report.fact);
  }

  // Both exceptions are real. A fresh fact is reported pending although the feed has it, when the
  // append was applied and only not confirmed.
  lemma UnconfirmedPending(w: World, candidate: Candidate, mode: Mode)
    requires Healthy(w) && !Recorded(w.store.log, candidate.intent) && Admissible(w.store, candidate.intent, mode)
    ensures var a := Attempt(w, candidate, mode, Links(Up, Unconfirmed));
            && a.report.Pending? && a.report.fact !in w.store.log
            && a.world.feed == Full(Entries(a.world.store.log))
            && exists e :: e in Events(a.world.feed) && e.record == a.report.fact
  {
    hide Sound, Mirrors, Publish, Full, Preflight, Sync, Admissible, Recorded, FactOf, IsCommitted, History, Caused;
    AcceptedExactly(w.store, candidate, mode);
    Fresh(w.store, candidate, mode);
    PublishKeeps(w.store, candidate, mode);
    PreflightPublish(w.store, candidate, mode);
    RelayKeeps(w, Up);
    var o, first := Publish(w.store, candidate, mode), Relay(w, Up);
    StoreGrows(World(w.store, first.projection), o.state);
    RelayKeeps(World(o.state, first.projection), Unconfirmed);
    LongerFull(w.store.log, o.state.log);
    PendingAbove(w, candidate, mode, Links(Up, Unconfirmed));
  }

  lemma LongerFull(log: seq<Id>, later: seq<Id>)
    requires log <= later && log != later
    ensures Full(Entries(log)) != Full(Entries(later))
  {
    assert |Entries(log)| < |Entries(later)|;
  }

  // And replaying a committed Candidate over a link that goes down before the
  // second synchronization reports its long-relayed fact as pending.
  lemma ReplayPending(w: World, candidate: Candidate, mode: Mode)
    requires Healthy(w) && IsCommitted(w.store.log, candidate)
    ensures FactOf(w.store.log, candidate).Some?
    ensures var a := Attempt(w, candidate, mode, Links(Up, Down));
            var fact := FactOf(w.store.log, candidate).value;
            && a.report == Pending(fact) && a.world.store == w.store
            && exists e :: e in Events(a.world.feed) && e.record == fact
  {
    hide Sound, Mirrors, Publish, Full, Preflight, Sync, FactOf, IsCommitted;
    Replay(w.store, candidate, mode);
    PreflightPublish(w.store, candidate, mode);
    RelayKeeps(w, Up);
    RelayKeeps(World(w.store, Relay(w, Up).projection), Down);
    AttemptKeeps(w, candidate, mode, Links(Up, Down));
    PendingAbove(w, candidate, mode, Links(Up, Down));
  }

  lemma WholeLog(s: State, feed: Projection, r: Id)
    requires Sound(s) && feed == Full(Entries(s.log))
    ensures Watermark(feed.meta) == |s.log|
    ensures r in s.log <==> exists e :: e in Events(feed) && e.record == r
  {
    hide Owned, Unambiguous, Chained, Enrolled, Grounded, Full;
    assert Entries(s.log)[..|s.log|] == Entries(s.log);
    FeedTells(s.log, feed, |s.log|);
    InEntries(s.log, r);
  }

  lemma InEntries(log: seq<Id>, r: Id)
    ensures r in log <==> exists e :: e in Entries(log) && e.record == r
  {
    var entries := Entries(log);
    if r in log {
      var i :| 0 <= i < |log| && log[i] == r;
      assert entries[i] in entries && entries[i].record == r;
    }
    if e :| e in entries && e.record == r {
      var j :| 0 <= j < |entries| && entries[j] == e;
      assert log[j] == r;
    }
  }

  lemma PendingFact(s: State, candidate: Candidate, mode: Mode)
    requires Sound(s) && Publish(s, candidate, mode).verdict.Done?
    ensures var o := Publish(s, candidate, mode);
            && o.verdict.fact in o.state.log
            && (IsCommitted(s.log, candidate) <==> o.verdict.fact in s.log)
  {
    PublishKeeps(s, candidate, mode);
    var o := Publish(s, candidate, mode);
    CommittedFact(o.state, candidate);
    if IsCommitted(s.log, candidate) {
      Replay(s, candidate, mode);
      CommittedFact(s, candidate);
    } else {
      Uncommitted(s.log, candidate);
    }
  }

  // Once an append gets through, the feed is the whole log: every accepted fact is there, once.
  lemma CaughtUp(w: World, link: Link)
    requires Healthy(w) && Relay(w, link).ok
    ensures var next := World(w.store, Relay(w, link).projection);
            Mark(next) == |w.store.log| && Events(next.feed) == Entries(w.store.log)
  {
    RelayKeeps(w, link);
    var entries := Entries(w.store.log);
    assert entries[..|entries|] == entries;
    FeedTells(w.store.log, Relay(w, link).projection, |w.store.log|);
  }

  // ------------------------------------------------------------------ the feed proof

  function Matches(events: seq<Feed.Event>, record: Id, after: nat): seq<Feed.Event> {
    if events == [] then []
    else
      var n := |events| - 1;
      Matches(events[..n], record, after)
      + if events[n].revision > after && events[n].record == record then [events[n]] else []
  }

  // The feed proof script: the watermark, and the events of one record above a revision.
  method FeedProof(p: Projection, record: Id, after: nat) returns (watermark: int, matches: seq<Feed.Event>)
    ensures watermark == Watermark(p.meta) && matches == Matches(Events(p), record, after)
  {
    watermark := Watermark(p.meta);
    var rows := Events(p);
    matches := [];
    for i := 0 to |rows|
      invariant matches == Matches(rows[..i], record, after)
    {
      assert rows[..i + 1][..i] == rows[..i];
      if rows[i].revision > after && rows[i].record == record {
        matches := matches + [rows[i]];
      }
    }
    assert rows[..|rows|] == rows;
  }

  // For the record at place i of the log the script finds one event, at the record's own
  // revision, as soon as the watermark has reached it, and none before.
  lemma FeedProofExact(w: World, i: nat, after: nat)
    requires Healthy(w) && i < |w.store.log|
    ensures Matches(Events(w.feed), w.store.log[i], after)
         == if after <= i < Mark(w) then [Feed.Event(i + 1, w.store.log[i])] else []
  {
    FeedExact(w);
    GroundedDistinct(w.store.log);
    MatchesFront(w.store.log, Mark(w), i, after);
  }

  lemma {:induction false} MatchesFront(log: seq<Id>, k: nat, i: nat, after: nat)
    requires Distinct(log) && k <= |log| && i < |log|
    ensures Matches(Entries(log)[..k], log[i], after) == if after <= i < k then [Feed.Event(i + 1, log[i])] else []
  {
    hide Matches, Entries, Distinct;
    if k == 0 {
      MatchesNone(log[i], after);
    } else {
      MatchesFront(log, k - 1, i, after);
      EntriesStep(log, k);
      MatchesStep(Entries(log)[..k - 1], Feed.Event(k, log[k - 1]), log[i], after);
      DistinctAt(log, k - 1, i);
    }
  }

  lemma MatchesNone(record: Id, after: nat)
    ensures Matches([], record, after) == []
  {
  }

  lemma EntriesStep(log: seq<Id>, k: nat)
    requires 0 < k <= |log|
    ensures Entries(log)[..k] == Entries(log)[..k - 1] + [Feed.Event(k, log[k - 1])]
  {
  }

  lemma MatchesStep(events: seq<Feed.Event>, e: Feed.Event, record: Id, after: nat)
    ensures Matches(events + [e], record, after)
         == Matches(events, record, after) + if e.revision > after && e.record == record then [e] else []
  {
    assert (events + [e])[..|events|] == events;
  }

  lemma DistinctAt(log: seq<Id>, i: nat, j: nat)
    requires Distinct(log) && i < |log| && j < |log|
    ensures log[i] == log[j] <==> i == j
  {
  }
}
