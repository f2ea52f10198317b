// A publication in a workspace that other clients share: they may commit and synchronize between
// any two of its requests.

module Sharing {
  import opened Wrappers
  import opened Ledger
  import opened LedgerProofs
  import opened LedgerGraph
  import opened LedgerOutcomes
  import opened Feed
  import opened FeedProofs
  import opened Workspace
  import opened WorkspaceProofs
  import opened Contention

  // What happens around one publication: what others do between its preflight and its first
  // synchronization, between that and the commitment, and between that and the second
  // synchronization; and how the attempts of the two synchronizations go.
  datatype Schedule = Schedule(
    start: seq<Deed>, first: seq<Turn>, ready: seq<Deed>, committed: seq<Deed>, second: seq<Turn>)

  datatype Shared = Shared(world: World, deeds: seq<Deed>, report: Report)

  // publish_task_assignment beside other clients, with everything anybody does meanwhile. The
  // commitment decides on the store as it finds it, whatever the preflight saw.
  function Share(w: World, candidate: Candidate, mode: Mode, s: Schedule): Shared {
    match Preflight(w.store, candidate.intent, mode)
    case Some(refusal) => Shared(w, [], Report.Refused(refusal))
    case None =>
      var start := DoAll(w, s.start);
      var first := SyncFrom(start, |start.store.log|, s.first);
      var before := s.start + first.deeds;
      if !first.ok then Shared(first.world, before, NotAttempted)
      else
        var ready := DoAll(first.world, s.ready);
        var commit := Stored(Submit(candidate));
        var committed := Do(ready, commit);
        var later := DoAll(committed, s.committed);
        var second := SyncFrom(later, |later.store.log|, s.second);
        var deeds := (before + s.ready) + ([commit] + (s.committed + second.deeds));
        Shared(second.world, deeds, Answer(Decide(ready.store, candidate), committed.store.log, candidate, second.ok))
  }

  // What is reported of a decision, given the log it left and how the second synchronization went.
  function Answer(decision: Decision, log: seq<Id>, candidate: Candidate, ok: bool): Report {
    match decision
    case Refused(conflict) => Report.Rejected(conflict, !ok)
    case _ =>
      match FactOf(log, candidate)
      case None => Internal
      case Some(fact) => if ok then Report.Accepted(fact) else Pending(fact)
  }

  // ------------------------------------------------------------------ the stages

  lemma StartStage(w: World, s: Schedule)
    requires Healthy(w)
    ensures var start := DoAll(w, s.start);
            var first := SyncFrom(start, |start.store.log|, s.first);
            && first.world == DoAll(w, s.start + first.deeds) && Healthy(first.world)
            && w.store.log <= first.world.store.log && Mark(w) <= Mark(first.world)
  {
    hide DoAll, SyncFrom, Healthy, Mark;
    var start := DoAll(w, s.start);
    DoAllKeeps(w, s.start);
    SyncKeeps(start, |start.store.log|, s.first);
    DoAllSplit(w, s.start, SyncFrom(start, |start.store.log|, s.first).deeds);
    MarksCompare(w, start, SyncFrom(start, |start.store.log|, s.first).world);
  }

  lemma EndStage(w: World, s: Schedule)
    requires Healthy(w)
    ensures var later := DoAll(w, s.committed);
            var second := SyncFrom(later, |later.store.log|, s.second);
            && second.world == DoAll(w, s.committed + second.deeds) && Healthy(second.world)
            && w.store.log <= second.world.store.log && Mark(w) <= Mark(second.world)
            && (second.ok ==> |w.store.log| <= Mark(second.world))
  {
    hide DoAll, SyncFrom, Healthy, Mark;
    var later := DoAll(w, s.committed);
    DoAllKeeps(w, s.committed);
    SyncKeeps(later, |later.store.log|, s.second);
    DoAllSplit(w, s.committed, SyncFrom(later, |later.store.log|, s.second).deeds);
    MarksCompare(w, later, SyncFrom(later, |later.store.log|, s.second).world);
  }

  lemma CommitStage(w: World, ready: World, others: seq<Deed>, commit: Deed, end: World, after: seq<Deed>)
    requires Healthy(w) && ready == DoAll(w, others) && end == DoAll(Do(ready, commit), after)
    ensures Healthy(ready) && Healthy(Do(ready, commit)) && end == DoAll(w, others + ([commit] + after))
    ensures w.store.log <= ready.store.log && Mark(w) <= Mark(Do(ready, commit))
  {
    hide Do, Healthy, Mark;
    DoAllKeeps(w, others);
    DoKeeps(ready, commit);
    MarksCompare(w, ready, Do(ready, commit));
    DoAllSplit(w, others, [commit] + after);
    DoAllSplit(ready, [commit], after);
    assert [commit][..0] == [];
    assert DoAll(ready, []) == ready;
  }

  // What the commitment leaves for the report.
  lemma CommitTells(w: World, candidate: Candidate)
    requires Healthy(w)
    ensures var committed, decision := Do(w, Stored(Submit(candidate))), Decide(w.store, candidate);
            && (decision.Refused? ==>
                  Record(Body.Rejected(candidate, decision.conflict), [Receipt(candidate)]) in committed.store.log)
            && (!decision.Refused? ==>
                  && IsCommitted(committed.store.log, candidate)
                  && FactOf(committed.store.log, candidate).Some?
                  && FactOf(committed.store.log, candidate).value in committed.store.log)
  {
    hide Sound, Mirrors, FactOf, IsCommitted, Decide, Ledger.Commit;
    CommitTrue(w.store, candidate);
  }

  lemma CommitTrue(s: State, candidate: Candidate)
    requires Sound(s)
    ensures var log, decision := Ledger.Commit(s, candidate).log, Decide(s, candidate);
            && (decision.Refused? ==> Record(Body.Rejected(candidate, decision.conflict), [Receipt(candidate)]) in log)
            && (!decision.Refused? ==>
                  && IsCommitted(log, candidate) && FactOf(log, candidate).Some? && FactOf(log, candidate).value in log)
  {
    hide Sound, Caused, FactOf, IsCommitted, History, Head, Fact, Objection, Declaration;
    match Decide(s, candidate)
    case Replayed => ReplayedTrue(s, candidate);
    case Accepted(fact) =>
      AcceptedStays(s, candidate, fact);
      CommittedFact(Ledger.Commit(s, candidate), candidate);
    case Refused(conflict) =>
      RefusedStays(s, candidate, conflict);
      assert Record(Body.Rejected(candidate, conflict), [Receipt(candidate)])
          in Written(candidate, Decision.Refused(conflict));
  }

  lemma ReplayedTrue(s: State, candidate: Candidate)
    requires Sound(s) && Decide(s, candidate).Replayed?
    ensures Ledger.Commit(s, candidate) == s && IsCommitted(s.log, candidate)
    ensures FactOf(s.log, candidate).Some? && FactOf(s.log, candidate).value in s.log
  {
    hide Sound, FactOf;
    assert IsCommitted(s.log, candidate);
    CommittedFact(s, candidate);
  }

  // ------------------------------------------------------------------ whole publications

  // Whatever others do, a publication amounts to the deeds of all: the ledger stays sound, the feed
  // a prefix of its log, and the answer is true. Accepted means committed and in the feed; pending
  // means committed; rejected means that the rejection is logged.
  lemma ShareKeeps(w: World, candidate: Candidate, mode: Mode, s: Schedule)
    requires Healthy(w)
    ensures var a := Share(w, candidate, mode, s);
            && a.world == DoAll(w, a.deeds) && Healthy(a.world)
            && w.store.log <= a.world.store.log && Mark(w) <= Mark(a.world)
            && !a.report.Internal?
            && (a.report.Accepted? || a.report.Pending? ==>
                  && IsCommitted(a.world.store.log, candidate)
                  && FactOf(a.world.store.log, candidate) == Some(a.report.fact)
                  && a.report.fact in a.world.store.log)
            && (a.report.Accepted? ==> InFeed(a.world.feed, a.report.fact))
            && (a.report.Rejected? ==>
                  Record(Body.Rejected(candidate, a.report.conflict), [Receipt(candidate)]) in a.world.store.log)
            && (a.report.Refused? ==> a.world == w && Preflight(w.store, candidate.intent, mode) == Some(a.report.refusal))
  {
    hide DoAll, SyncFrom, Healthy, Mark, Preflight, InFeed, FactOf, IsCommitted, Decide, Do;
    if Preflight(w.store, candidate.intent, mode) == None {
      StartStage(w, s);
      var start := DoAll(w, s.start);
      var first := SyncFrom(start, |start.store.log|, s.first);
      var before, commit := s.start + first.deeds, Stored(Submit(candidate));
      if first.ok {
        var ready := DoAll(first.world, s.ready);
        var committed := Do(ready, commit);
        var later := DoAll(committed, s.committed);
        var second := SyncFrom(later, |later.store.log|, s.second);
        DoAllSplit(w, before, s.ready);
        DoAllKeeps(w, before + s.ready);
        DoKeeps(ready, commit);
        EndStage(committed, s);
        CommitStage(w, ready, before + s.ready, commit, second.world, s.committed + second.deeds);
        MarksCompare(w, committed, second.world);
        CommitTells(ready, candidate);
        if !Decide(ready.store, candidate).Refused? {
          ReportTrue(committed, second.world, candidate, second.ok);
        }
      }
    } else {
      NothingDone(w);
    }
  }

  lemma ReportTrue(committed: World, end: World, candidate: Candidate, ok: bool)
    requires Healthy(committed) && Healthy(end) && committed.store.log <= end.store.log
    requires IsCommitted(committed.store.log, candidate) && FactOf(committed.store.log, candidate).Some?
    requires FactOf(committed.store.log, candidate).value in committed.store.log
    requires ok ==> |committed.store.log| <= Mark(end)
    ensures var fact := FactOf(committed.store.log, candidate).value;
            && IsCommitted(end.store.log, candidate) && FactOf(end.store.log, candidate) == Some(fact)
            && fact in end.store.log && (ok ==> InFeed(end.feed, fact))
  {
    hide Healthy, InFeed, FactOf, IsCommitted, Mark;
    var fact := FactOf(committed.store.log, candidate).value;
    CommittedLater(committed.store.log, end.store.log, candidate);
    FactOfLater(committed.store.log, end.store.log, candidate);
    var i :| 0 <= i < |committed.store.log| && committed.store.log[i] == fact;
    assert end.store.log[i] == fact;
    HealthyDistinct(end);
    PlaceInFeed(end, end.store.log, i);
  }

  // When a fact reported pending is in the feed: exactly when it was there before, or an applied
  // transaction of this or another client, made on a capture that held it, has put it there.
  lemma PendingExactly(w: World, candidate: Candidate, mode: Mode, s: Schedule)
    requires Healthy(w) && Share(w, candidate, mode, s).report.Pending?
    ensures var a := Share(w, candidate, mode, s);
            && a.report.fact in a.world.store.log
            && (InFeed(a.world.feed, a.report.fact)
                <==> InFeed(w.feed, a.report.fact) || exists j :: Appends(w, a.deeds, j, a.report.fact))
  {
    hide Share, DoAll, Healthy, InFeed, Appends;
    var a := Share(w, candidate, mode, s);
    ShareKeeps(w, candidate, mode, s);
    FeedAfter(w, a.deeds, a.report.fact);
  }

  // A publication that gets to its commitment: what it reports and leaves from there on.
  lemma ShareCommits(w: World, candidate: Candidate, mode: Mode, s: Schedule)
    requires Preflight(w.store, candidate.intent, mode) == None
    requires var start := DoAll(w, s.start); SyncFrom(start, |start.store.log|, s.first).ok
    ensures var start := DoAll(w, s.start);
            var ready := DoAll(SyncFrom(start, |start.store.log|, s.first).world, s.ready);
            var committed := Do(ready, Stored(Submit(candidate)));
            var later := DoAll(committed, s.committed);
            var second := SyncFrom(later, |later.store.log|, s.second);
            && Share(w, candidate, mode, s).world == second.world
            && Share(w, candidate, mode, s).report
               == Answer(Decide(ready.store, candidate), committed.store.log, candidate, second.ok)
  {
    hide Preflight, DoAll, Do, SyncFrom, Decide, Answer;
  }

  // ------------------------------------------------------------------ alone

  // Nobody else, and one link for each synchronization.
  function Alone(links: Links): Schedule {
    Schedule([], Same(links.before), [], [], Same(links.after))
  }

  function Same(link: Link): seq<Turn> {
    [Turn([], link, [], false), Turn([], link, [], false), Turn([], link, [], false)]
  }

  // Then a publication is the one without other clients.
  lemma ShareAlone(w: World, candidate: Candidate, mode: Mode, links: Links)
    requires Healthy(w)
    ensures var a, b := Share(w, candidate, mode, Alone(links)), Attempt(w, candidate, mode, links);
            a.world == b.world && a.report == b.report
  {
    hide Healthy, SyncFrom, Relay, Decide, FactOf, Ledger.Commit;
    NothingDone(w);
    SameIsRelay(w, links.before);
    if Preflight(w.store, candidate.intent, mode) == None {
      hide Preflight;
      var first := SyncFrom(w, |w.store.log|, Same(links.before));
      if first.ok {
        NothingDone(first.world);
        var committed := Do(first.world, Stored(Submit(candidate)));
        NothingDone(committed);
        SyncKeeps(w, |w.store.log|, Same(links.before));
        DoKeeps(first.world, Stored(Submit(candidate)));
        SameIsRelay(committed, links.after);
      }
    }
  }

  lemma SameIsRelay(w: World, link: Link)
    requires Healthy(w)
    ensures var r := SyncFrom(w, |w.store.log|, Same(link));
            r.ok == Relay(w, link).ok && r.world == World(w.store, Relay(w, link).projection)
  {
    hide Healthy;
    NothingDone(w);
    OneTurn(w, link);
    var t := Try(w, |w.store.log|, Turn([], link, [], false));
    assert Same(link)[0] == Turn([], link, [], false);
  }

  lemma OneTurn(w: World, link: Link)
    requires Healthy(w)
    ensures var t := Try(w, |w.store.log|, Turn([], link, [], false));
            && !t.out.Again?
            && (t.out.Settled? <==> Relay(w, link).ok)
            && t.world == World(w.store, Relay(w, link).projection)
  {
    hide Healthy, ProofOf, Append, Entries;
    NothingDone(w);
    WatchedTells(w, w, |w.store.log|);
    MarkInside(w);
    assert Front(w.store.log, |w.store.log|) == Entries(w.store.log);
  }
}
