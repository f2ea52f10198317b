// What a batch amounts to: an interrupted one, taken up again in any order, ends as if it had
// never been interrupted; and once the relay fails, nothing more is written.

module BatchProofs {
  import opened Wrappers
  import opened Ledger
  import opened LedgerProofs
  import opened LedgerOutcomes
  import opened LedgerConfluence
  import opened FeedProofs
  import opened Workspace
  import opened WorkspaceProofs
  import opened Batch

  // The candidates that were attempted, in order.
  function Tried(batch: seq<Candidate>, reports: seq<Report>): (r: seq<Candidate>)
    requires |reports| == |batch|
    ensures forall c | c in r :: c in batch
  {
    if batch == [] then []
    else
      var n := |batch| - 1;
      Tried(batch[..n], reports[..n]) + if reports[n].NotAttempted? then [] else [batch[n]]
  }

  // A report tells the ledger's verdict, unless the target was not attempted; and what is refused
  // is refused even when nothing could be attempted.
  predicate Tells(report: Report, verdict: Verdict) {
    match report
    case Accepted(fact) => verdict == Done(fact)
    case Pending(fact) => verdict == Done(fact)
    case Rejected(conflict, _) => verdict == Reject(conflict)
    case Refused(refusal) => verdict == Refuse(refusal)
    case NotAttempted => !verdict.Refuse?
    case Internal => false
  }

  lemma PublishAllMore(s: State, a: seq<Candidate>, c: Candidate, mode: Mode)
    ensures PublishAll(s, a + [c], mode) == Publish(PublishAll(s, a, mode), c, mode).state
  {
    assert (a + [c])[..|a|] == a;
  }

  lemma {:induction false} PublishAllAppend(s: State, a: seq<Candidate>, b: seq<Candidate>, mode: Mode)
    ensures PublishAll(PublishAll(s, a, mode), b, mode) == PublishAll(s, a + b, mode)
  {
    hide Publish;
    if b == [] {
      assert a + b == a;
    } else {
      var front, c := b[..|b| - 1], b[|b| - 1];
      PublishAllAppend(s, a, front, mode);
      assert a + b == (a + front) + [c];
      PublishAllMore(s, a + front, c, mode);
    }
  }

  // The progress amounts to publishing what was attempted, and each report is the verdict the
  // target would have had on its own at the start.
  ghost predicate Amounts(w: World, batch: seq<Candidate>, mode: Mode, p: Progress) {
    && |p.reports| == |batch| && Healthy(p.world) && !Broke(p.reports)
    && p.world.store == PublishAll(w.store, Tried(batch, p.reports), mode)
    && forall i | 0 <= i < |batch| :: Tells(p.reports[i], Publish(w.store, batch[i], mode).verdict)
  }

  lemma {:induction false} BatchPublishes(w: World, batch: seq<Candidate>, mode: Mode, links: seq<Links>)
    requires Healthy(w) && |links| == |batch| && OnePerContract(batch)
    ensures Amounts(w, batch, mode, Through(w, batch, mode, links))
  {
    hide Amounts, Healthy, Further;
    if batch == [] {
      AmountsNone(w, mode);
    } else {
      var n := |batch| - 1;
      BatchPublishes(w, batch[..n], mode, links[..n]);
      assert batch == batch[..n] + [batch[n]];
      AmountsNext(w, batch[..n], batch[n], mode, Through(w, batch[..n], mode, links[..n]), links[n]);
    }
  }

  lemma AmountsNone(w: World, mode: Mode)
    requires Healthy(w)
    ensures Amounts(w, [], mode, Progress(w, []))
  {
  }

  lemma AmountsNext(w: World, front: seq<Candidate>, c: Candidate, mode: Mode, p: Progress, links: Links)
    requires Healthy(w) && Amounts(w, front, mode, p) && OnePerContract(front + [c])
    ensures Amounts(w, front + [c], mode, Further(p, c, mode, links))
  {
    hide Attempt, Publish, Healthy, Tells, OnePerContract, PublishAll;
    var tried, q := Tried(front, p.reports), Further(p, c, mode, links);
    FewerPerContract(front, tried, c);
    NextTells(w, tried, c, mode, p.world, links);
    TriedNext(front, p.reports, c, q.reports[|front|]);
    PublishAllMore(w.store, tried, c, mode);
    var batch := front + [c];
    forall i | 0 <= i < |batch| ensures Tells(q.reports[i], Publish(w.store, batch[i], mode).verdict) {
      if i < |front| {
        assert q.reports[i] == p.reports[i] && batch[i] == front[i];
      }
    }
    assert tried + [] == tried;
  }

  lemma TriedNext(front: seq<Candidate>, reports: seq<Report>, c: Candidate, report: Report)
    requires |reports| == |front|
    ensures Tried(front + [c], reports + [report]) == Tried(front, reports) + if report.NotAttempted? then [] else [c]
  {
    assert (front + [c])[..|front|] == front && (reports + [report])[..|front|] == reports;
  }

  lemma FewerPerContract(batch: seq<Candidate>, some: seq<Candidate>, c: Candidate)
    requires OnePerContract(batch + [c]) && forall x | x in some :: x in batch
    ensures OnePerContract(some + [c])
  {
    forall x | x in some + [c] ensures x in batch + [c] {
    }
  }

  lemma NextTells(w: World, tried: seq<Candidate>, c: Candidate, mode: Mode, now: World, links: Links)
    requires Healthy(w) && Healthy(now) && OnePerContract(tried + [c]) && now.store == PublishAll(w.store, tried, mode)
    ensures var a := Attempt(now, c, mode, links);
            && Healthy(a.world) && !a.report.Internal?
            && Tells(a.report, Publish(w.store, c, mode).verdict)
            && a.world.store == if a.report.NotAttempted? then now.store else Publish(now.store, c, mode).state
  {
    hide Attempt, Publish, PublishAll;
    assert OnePerContract(tried) by {
      forall a, b | a in tried && b in tried && a.intent.contract == b.intent.contract ensures a == b {
        assert a in tried + [c] && b in tried + [c];
      }
    }
    BatchSettles(w.store, tried, mode);
    SettledNext(w.store, tried, c, mode, now.store);
    AttemptKeeps(now, c, mode, links);
  }

  // ------------------------------------------------------------------ interruption and recovery

  lemma {:induction false} TriedMembers(batch: seq<Candidate>, reports: seq<Report>)
    requires |reports| == |batch|
    ensures forall i | 0 <= i < |batch| && !reports[i].NotAttempted? :: batch[i] in Tried(batch, reports)
  {
    if batch != [] {
      var n := |batch| - 1;
      TriedMembers(batch[..n], reports[..n]);
    }
  }

  // Whatever interrupted a batch, publishing the targets it did not attempt, in any order and
  // with any of the others again, leaves the histories and the records of one uninterrupted run;
  // and every target's verdict is the one it would have had there.
  lemma Recovery(w: World, batch: seq<Candidate>, mode: Mode, links: seq<Links>, retry: seq<Candidate>)
    requires Healthy(w) && |links| == |batch| && OnePerContract(batch)
    requires forall c | c in retry :: c in batch
    requires forall i | 0 <= i < |batch| && Through(w, batch, mode, links).reports[i].NotAttempted? :: batch[i] in retry
    ensures var t := PublishAll(Through(w, batch, mode, links).world.store, retry, mode);
            var u := PublishAll(w.store, batch, mode);
            && (forall d :: History(t.log, d) == History(u.log, d)) && multiset(t.log) == multiset(u.log)
            && forall k | 0 <= k < |retry| ::
                 Verdicts(Through(w, batch, mode, links).world.store, retry, mode)[k]
                 == Publish(w.store, retry[k], mode).verdict
  {
    var p := Through(w, batch, mode, links);
    var tried := Tried(batch, p.reports);
    BatchPublishes(w, batch, mode, links);
    TriedMembers(batch, p.reports);
    assert forall c :: c in tried + retry <==> c in batch;
    hide Through, Tells, Publish, Tried, PublishAll, Verdicts, Healthy, OnePerContract;
    RecoverySame(w.store, tried, retry, batch, mode);
  }

  lemma RecoverySame(s: State, tried: seq<Candidate>, retry: seq<Candidate>, batch: seq<Candidate>, mode: Mode)
    requires Sound(s) && OnePerContract(batch) && forall c :: c in tried + retry <==> c in batch
    ensures var t, u := PublishAll(PublishAll(s, tried, mode), retry, mode), PublishAll(s, batch, mode);
            && (forall d :: History(t.log, d) == History(u.log, d)) && multiset(t.log) == multiset(u.log)
            && forall k | 0 <= k < |retry| ::
                 Verdicts(PublishAll(s, tried, mode), retry, mode)[k] == Publish(s, retry[k], mode).verdict
  {
    hide Publish, PublishAll, Verdicts, Sound;
    PublishAllAppend(s, tried, retry, mode);
    VerdictsAppend(s, tried, retry, mode);
    assert OnePerContract(tried + retry);
    Confluence(s, tried + retry, batch, mode);
    BatchSettles(s, tried + retry, mode);
    forall k | 0 <= k < |retry|
      ensures Verdicts(PublishAll(s, tried, mode), retry, mode)[k] == Publish(s, retry[k], mode).verdict
    {
      assert (tried + retry)[|tried| + k] == retry[k];
    }
  }

  lemma {:induction false} VerdictsAppend(s: State, a: seq<Candidate>, b: seq<Candidate>, mode: Mode)
    ensures Verdicts(s, a + b, mode) == Verdicts(s, a, mode) + Verdicts(PublishAll(s, a, mode), b, mode)
  {
    hide Publish;
    if b == [] {
      assert a + b == a;
    } else {
      var front, c := b[..|b| - 1], b[|b| - 1];
      VerdictsAppend(s, a, front, mode);
      PublishAllAppend(s, a, front, mode);
      assert (a + b)[..|a + b| - 1] == a + front;
    }
  }

  // ------------------------------------------------------------------ outages

  // The link gets no better from one synchronization to a later one. After an unconfirmed append
  // nobody answers any more.
  predicate Worsens(a: Link, b: Link) {
    match a
    case Up => true
    case NoAppends => b.NoAppends? || b.Down?
    case Unconfirmed => b.Down?
    case Down => b.Down?
  }

  // An outage
  predicate Failing(links: seq<Links>) {
    && (forall i | 0 <= i < |links| :: Worsens(links[i].before, links[i].after))
    && (forall i, j | 0 <= i < j < |links| :: Worsens(links[i].after, links[j].before))
  }

  predicate Unfinished(report: Report) {
    report.Pending? || report.NotAttempted? || (report.Rejected? && report.relayPending)
  }

  // No synchronization after one over this link can succeed in an outage.
  predicate Stuck(w: World, last: Link) {
    last.Down? || last.Unconfirmed? || (last.NoAppends? && w.feed != Full(Entries(w.store.log)))
  }

  lemma UnfinishedSticks(w: World, c: Candidate, mode: Mode, links: Links)
    requires Healthy(w) && Worsens(links.before, links.after)
    requires Unfinished(Attempt(w, c, mode, links).report)
    ensures Stuck(Attempt(w, c, mode, links).world, links.after)
  {
    hide Sync, Full, Sound, Mirrors, Publish, Preflight;
    RelayKeeps(w, links.before);
    AttemptKeeps(w, c, mode, links);
    var first := Relay(w, links.before);
    if first.ok {
      var o := Publish(w.store, c, mode);
      PublishKeeps(w.store, c, mode);
      StoreGrows(World(w.store, first.projection), o.state);
      RelayKeeps(World(o.state, first.projection), links.after);
    }
  }

  // What a target reports when nothing can be synchronized.
  function Silent(w: World, c: Candidate, mode: Mode): Report {
    match Preflight(w.store, c.intent, mode)
    case Some(refusal) => Report.Refused(refusal)
    case None => NotAttempted
  }

  lemma StuckAttempt(w: World, c: Candidate, mode: Mode, links: Links, last: Link)
    requires Healthy(w) && Stuck(w, last) && Worsens(last, links.before)
    ensures Attempt(w, c, mode, links) == Attempted(w, Silent(w, c, mode))
  {
    hide Sync, Full, Sound, Mirrors, Publish, Preflight;
    RelayKeeps(w, links.before);
  }

  // Since target i nothing was written, and every later target was answered in silence.
  ghost predicate Silenced(p: Progress, at: World, batch: seq<Candidate>, i: nat, mode: Mode, last: Link) {
    && |p.reports| == |batch| && p.world == at && Healthy(at) && Stuck(at, last)
    && forall j | i < j < |batch| :: p.reports[j] == Silent(at, batch[j], mode)
  }

  lemma SilencedFirst(p: Progress, front: seq<Candidate>, c: Candidate, mode: Mode, links: Links)
    requires Healthy(p.world) && |p.reports| == |front| && Worsens(links.before, links.after)
    requires Unfinished(Attempt(p.world, c, mode, links).report)
    ensures var a := Attempt(p.world, c, mode, links);
            Silenced(Progress(a.world, p.reports + [a.report]), a.world, front + [c], |front|, mode, links.after)
  {
    hide Attempt, Healthy, Stuck;
    UnfinishedSticks(p.world, c, mode, links);
    AttemptKeeps(p.world, c, mode, links);
  }

  lemma SilencedNext(
    p: Progress, at: World, front: seq<Candidate>, c: Candidate, i: nat, mode: Mode, last: Link, links: Links)
    requires Silenced(p, at, front, i, mode, last) && Worsens(last, links.before) && Worsens(links.before, links.after)
    ensures var a := Attempt(p.world, c, mode, links);
            Silenced(Progress(a.world, p.reports + [a.report]), at, front + [c], i, mode, links.after)
  {
    hide Attempt, Healthy, Stuck, Silent;
    StuckAttempt(p.world, c, mode, links, last);
    StuckMore(at, last, links.before, links.after);
  }

  // A target is not attempted exactly when its preflight is clean and its first synchronization
  // cannot succeed. The store is untouched.
  lemma NotAttemptedExactly(w: World, c: Candidate, mode: Mode, links: Links)
    requires Healthy(w)
    ensures var a := Attempt(w, c, mode, links);
            && (a.report.NotAttempted?
                <==> Preflight(w.store, c.intent, mode) == None
                     && (links.before.Down? || (!links.before.Up? && w.feed != Full(Entries(w.store.log)))))
            && (a.report.NotAttempted? ==> a.world.store == w.store)
  {
    hide Sync, Full, Sound, Mirrors, Preflight;
    RelayKeeps(w, links.before);
  }

  // In an outage nothing is written after the first unfinished target: each later one is refused
  // by its preflight, or not attempted.
  lemma {:induction false} OutageShape(w: World, batch: seq<Candidate>, mode: Mode, links: seq<Links>, i: nat)
    requires Healthy(w) && |links| == |batch| && OnePerContract(batch) && Failing(links)
    requires i < |batch| && Unfinished(Through(w, batch, mode, links).reports[i])
    ensures var at := Through(w, batch[..i + 1], mode, links[..i + 1]).world;
            Silenced(Through(w, batch, mode, links), at, batch, i, mode, links[|batch| - 1].after)
    decreases |batch|
  {
    hide Attempt, Silenced, Healthy, Failing, OnePerContract, Through, Unfinished;
    var n := |batch| - 1;
    if i == n {
      OutageStarts(w, batch, mode, links);
    } else {
      var front := batch[..n];
      FailingFront(links);
      FrontPerContract(batch);
      BatchHealthy(w, front, mode, links[..n]);
      LastReport(w, batch, mode, links);
      OutageShape(w, front, mode, links[..n], i);
      assert front[..i + 1] == batch[..i + 1] && links[..n][..i + 1] == links[..i + 1];
      FailingAt(links, n - 1, n);
      var before := Through(w, front, mode, links[..n]);
      var at := Through(w, batch[..i + 1], mode, links[..i + 1]).world;
      SilencedAt(before, front, i, mode, links[n - 1].after, at);
      SilencedNext(before, before.world, front, batch[n], i, mode, links[n - 1].after, links[n]);
      assert batch == front + [batch[n]];
    }
  }

  lemma SilencedAt(p: Progress, batch: seq<Candidate>, i: nat, mode: Mode, last: Link, at: World)
    requires Silenced(p, at, batch, i, mode, last)
    ensures p.world == at
  {
  }

  lemma FrontPerContract(batch: seq<Candidate>)
    requires OnePerContract(batch) && batch != []
    ensures OnePerContract(batch[..|batch| - 1])
  {
  }

  lemma OutageStarts(w: World, batch: seq<Candidate>, mode: Mode, links: seq<Links>)
    requires Healthy(w) && batch != [] && |links| == |batch| && OnePerContract(batch) && Failing(links)
    requires Unfinished(Through(w, batch, mode, links).reports[|batch| - 1])
    ensures var n := |batch| - 1;
            && batch[..n + 1] == batch && links[..n + 1] == links
            && var p := Through(w, batch, mode, links);
               Silenced(p, p.world, batch, n, mode, links[n].after)
  {
    hide Attempt, Silenced, Healthy, Failing, OnePerContract, Through, Unfinished;
    var n := |batch| - 1;
    FrontPerContract(batch);
    BatchHealthy(w, batch[..n], mode, links[..n]);
    LastReport(w, batch, mode, links);
    FailingAt(links, n, n);
    SilencedFirst(Through(w, batch[..n], mode, links[..n]), batch[..n], batch[n], mode, links[n]);
    assert batch == batch[..n] + [batch[n]];
  }

  lemma BatchHealthy(w: World, batch: seq<Candidate>, mode: Mode, links: seq<Links>)
    requires Healthy(w) && |links| == |batch| && OnePerContract(batch)
    ensures Healthy(Through(w, batch, mode, links).world) && !Broke(Through(w, batch, mode, links).reports)
  {
    BatchPublishes(w, batch, mode, links);
  }

  lemma LastReport(w: World, batch: seq<Candidate>, mode: Mode, links: seq<Links>)
    requires batch != [] && |links| == |batch|
    requires var n := |batch| - 1; !Broke(Through(w, batch[..n], mode, links[..n]).reports)
    ensures var n := |batch| - 1;
            var before := Through(w, batch[..n], mode, links[..n]);
            var a := Attempt(before.world, batch[n], mode, links[n]);
            Through(w, batch, mode, links) == Progress(a.world, before.reports + [a.report])
  {
  }

  lemma FailingAt(links: seq<Links>, i: nat, j: nat)
    requires Failing(links) && i <= j < |links|
    ensures Worsens(links[j].before, links[j].after)
    ensures i < j ==> Worsens(links[i].after, links[j].before)
  {
  }

  lemma FailingFront(links: seq<Links>)
    requires Failing(links) && links != []
    ensures Failing(links[..|links| - 1])
  {
  }

  lemma StuckMore(w: World, last: Link, next: Link, later: Link)
    requires Stuck(w, last) && Worsens(last, next) && Worsens(next, later)
    ensures Stuck(w, later)
  {
  }

  // But that an outage begins is not enough. Where every append is applied and only not
  // confirmed, the next synchronization finds nothing to append: a batch of admissible transitions is
  // written whole while each of its rows is reported pending.
  lemma {:induction false} UnacknowledgedBatch(w: World, batch: seq<Candidate>, mode: Mode, links: seq<Links>)
    requires Healthy(w) && |links| == |batch| && w.feed == Full(Entries(w.store.log))
    requires AllFresh(w.store, batch, mode) && Unacknowledged(links)
    ensures var p := Through(w, batch, mode, links);
            && (forall i | 0 <= i < |batch| :: p.reports[i].Pending?)
            && p.world.store == PublishAll(w.store, batch, mode) && p.world.feed == Full(Entries(p.world.store.log))
  {
    hide Attempt, Healthy, AllFresh, Unacknowledged, Publish, Full, Entries, OnePerContract, Further;
    if batch != [] {
      var n := |batch| - 1;
      var front, c := batch[..n], batch[n];
      FreshParts(w.store, batch, mode, links);
      UnacknowledgedBatch(w, front, mode, links[..n]);
      BatchHealthy(w, front, mode, links[..n]);
      LastReport(w, batch, mode, links);
      AcceptedNext(w, front, c, mode, Through(w, front, mode, links[..n]).world, links[n]);
    }
  }

  // Admissible new transitions, one for each contract.
  ghost predicate AllFresh(s: State, batch: seq<Candidate>, mode: Mode) {
    && OnePerContract(batch) && Distinct(batch)
    && forall c | c in batch :: Admissible(s, c.intent, mode) && !Recorded(s.log, c.intent)
  }

  predicate Unacknowledged(links: seq<Links>) {
    forall l | l in links :: !l.before.Down? && l.after.Unconfirmed?
  }

  lemma FreshParts(s: State, batch: seq<Candidate>, mode: Mode, links: seq<Links>)
    requires batch != [] && |links| == |batch| && AllFresh(s, batch, mode) && Unacknowledged(links)
    ensures var n := |batch| - 1;
            && AllFresh(s, batch[..n], mode) && Unacknowledged(links[..n]) && OnePerContract(batch[..n])
            && OnePerContract(batch[..n] + [batch[n]]) && batch[n] !in batch[..n]
            && Admissible(s, batch[n].intent, mode) && !Recorded(s.log, batch[n].intent)
            && !links[n].before.Down? && links[n].after.Unconfirmed?
  {
    var n := |batch| - 1;
    hide Admissible, Recorded;
    assert batch == batch[..n] + [batch[n]];
    assert batch[n] in batch && links[n] in links;
  }

  lemma AcceptedNext(w: World, front: seq<Candidate>, c: Candidate, mode: Mode, now: World, links: Links)
    requires Healthy(w) && Healthy(now) && OnePerContract(front + [c]) && now.store == PublishAll(w.store, front, mode)
    requires Admissible(w.store, c.intent, mode) && !Recorded(w.store.log, c.intent) && !links.before.Down?
    requires c !in front && now.feed == Full(Entries(now.store.log)) && links.after.Unconfirmed?
    ensures var a := Attempt(now, c, mode, links);
            && a.report.Pending? && a.world.store == Publish(now.store, c, mode).state
            && a.world.feed == Full(Entries(a.world.store.log))
  {
    hide Sync, Mirrors, Full, Sound, Publish, Preflight, PublishAll, Admissible, Recorded;
    hide FactOf, Settled, IsCommitted, OnePerContract;
    var s, t := w.store, now.store;
    StillFresh(s, front, c, mode);
    PublishKeeps(t, c, mode);
    PreflightPublish(t, c, mode);
    RelayKeeps(now, links.before);
    var o, first := Publish(t, c, mode), Relay(now, links.before);
    StoreGrows(World(t, first.projection), o.state);
    RelayKeeps(World(o.state, first.projection), links.after);
    LongerFull(t.log, o.state.log);
  }

  lemma StillFresh(s: State, front: seq<Candidate>, c: Candidate, mode: Mode)
    requires Sound(s) && OnePerContract(front + [c]) && c !in front
    requires Admissible(s, c.intent, mode) && !Recorded(s.log, c.intent)
    ensures var t := PublishAll(s, front, mode);
            Publish(t, c, mode).verdict.Done? && !IsCommitted(t.log, c)
  {
    hide Publish, Preflight, PublishAll, Admissible, Recorded, FactOf, Alike, Writes;
    var t := PublishAll(s, front, mode);
    assert OnePerContract(front) by {
      forall a, b | a in front && b in front && a.intent.contract == b.intent.contract ensures a == b {
        assert a in front + [c] && b in front + [c];
      }
    }
    BatchSettles(s, front, mode);
    SettledNext(s, front, c, mode, t);
    AcceptedExactly(s, c, mode);
    Untargeted(front, c);
    AlikeDecide(t, s, c, mode);
    if IsCommitted(s.log, c) {
      CommittedRecorded(s, c);
    }
  }

  // With the link restored every target is finished.
  lemma {:induction false} RestoredFinishes(w: World, batch: seq<Candidate>, mode: Mode, links: seq<Links>)
    requires Healthy(w) && |links| == |batch| && OnePerContract(batch)
    requires forall l | l in links :: l == Links(Up, Up)
    ensures var p := Through(w, batch, mode, links);
            (forall i | 0 <= i < |batch| :: !Unfinished(p.reports[i])) && Tried(batch, p.reports) == batch
  {
    hide Attempt, Healthy, OnePerContract, Further;
    if batch != [] {
      var n := |batch| - 1;
      var front, c := batch[..n], batch[n];
      assert batch == front + [c] && links[n] in links;
      assert forall l | l in links[..n] :: l in links;
      FrontPerContract(batch);
      hide Through, Tried;
      RestoredFinishes(w, front, mode, links[..n]);
      BatchHealthy(w, front, mode, links[..n]);
      LastReport(w, batch, mode, links);
      var before := Through(w, front, mode, links[..n]);
      UpFinishes(before.world, c, mode);
      TriedNext(front, before.reports, c, Attempt(before.world, c, mode, links[n]).report);
    }
  }

  lemma UpFinishes(w: World, c: Candidate, mode: Mode)
    requires Healthy(w)
    ensures !Unfinished(Attempt(w, c, mode, Links(Up, Up)).report)
  {
    hide Sync, Full, Sound, Mirrors, Publish, Preflight;
    RelayKeeps(w, Up);
    var first := Relay(w, Up);
    PublishKeeps(w.store, c, mode);
    StoreGrows(World(w.store, first.projection), Publish(w.store, c, mode).state);
    RelayKeeps(World(Publish(w.store, c, mode).state, first.projection), Up);
  }

  // So a second run of rows over a restored link, naming at least the targets left over, makes the
  // ledger that of one uninterrupted batch, and finishes every target it names.
  ghost predicate Recovered(w: World, batch: seq<Candidate>, mode: Mode, retry: seq<Candidate>, q: Progress)
    requires |q.reports| == |retry|
  {
    var u := PublishAll(w.store, batch, mode);
    && (forall d :: History(q.world.store.log, d) == History(u.log, d))
    && multiset(q.world.store.log) == multiset(u.log)
    && forall k | 0 <= k < |retry| ::
         !Unfinished(q.reports[k]) && Tells(q.reports[k], Publish(w.store, retry[k], mode).verdict)
  }

  lemma RecoveryByBatch(
    w: World, batch: seq<Candidate>, mode: Mode, links: seq<Links>, retry: seq<Candidate>, restored: seq<Links>)
    requires Healthy(w) && |links| == |batch| && OnePerContract(batch) && |restored| == |retry|
    requires forall l | l in restored :: l == Links(Up, Up)
    requires forall c | c in retry :: c in batch
    requires forall i | 0 <= i < |batch| && Through(w, batch, mode, links).reports[i].NotAttempted? :: batch[i] in retry
    ensures var p := Through(w, batch, mode, links);
            Recovered(w, batch, mode, retry, Through(p.world, retry, mode, restored))
  {
    hide Healthy, Publish, PublishAll, Tells, Tried, OnePerContract, Recovered, Further;
    BatchPublishes(w, batch, mode, links);
    RecoveryFrom(w, batch, mode, links, Through(w, batch, mode, links).world, retry, restored);
  }

  // The same from any workspace with the store the first batch left.
  lemma RecoveryFrom(
    w: World, batch: seq<Candidate>, mode: Mode, links: seq<Links>, now: World, retry: seq<Candidate>,
    restored: seq<Links>)
    requires Healthy(w) && |links| == |batch| && OnePerContract(batch) && |restored| == |retry|
    requires Healthy(now) && now.store == Through(w, batch, mode, links).world.store
    requires forall l | l in restored :: l == Links(Up, Up)
    requires forall c | c in retry :: c in batch
    requires forall i | 0 <= i < |batch| && Through(w, batch, mode, links).reports[i].NotAttempted? :: batch[i] in retry
    ensures Recovered(w, batch, mode, retry, Through(now, retry, mode, restored))
  {
    hide Through, Publish, PublishAll, Verdicts, Tells, Unfinished, Tried, OnePerContract, Healthy;
    SomeApart(batch, retry);
    Recovery(w, batch, mode, links, retry);
    Rerun(now, retry, mode, restored);
  }

  lemma SomeApart(batch: seq<Candidate>, some: seq<Candidate>)
    requires OnePerContract(batch) && forall c | c in some :: c in batch
    ensures OnePerContract(some)
  {
  }

  // Rows over a restored link publish their targets in the ledger, each with its verdict there.
  lemma Rerun(now: World, retry: seq<Candidate>, mode: Mode, restored: seq<Links>)
    requires Healthy(now) && |restored| == |retry| && OnePerContract(retry)
    requires forall l | l in restored :: l == Links(Up, Up)
    ensures var q := Through(now, retry, mode, restored);
            && q.world.store == PublishAll(now.store, retry, mode)
            && forall k | 0 <= k < |retry| ::
                 !Unfinished(q.reports[k]) && Tells(q.reports[k], Verdicts(now.store, retry, mode)[k])
  {
    hide Through, Publish, PublishAll, Verdicts, Tells, Unfinished, Tried, OnePerContract, Mirrors;
    BatchPublishes(now, retry, mode, restored);
    RestoredFinishes(now, retry, mode, restored);
    BatchSettles(now.store, retry, mode);
  }

  // ------------------------------------------------------------------ whole commands

  // Before its first row a command synchronizes on its own. Without rows it has written nothing;
  // with rows it is the batch, begun with the whole log in the feed.
  lemma CommandKeeps(w: World, batch: seq<Candidate>, mode: Mode, ahead: Link, links: seq<Links>)
    requires Healthy(w) && |links| == |batch|
    ensures var c, start := Command(w, batch, mode, ahead, links), World(w.store, Full(Entries(w.store.log)));
            && (c.reports.None? <==> ahead.Down? || (!ahead.Up? && w.feed != Full(Entries(w.store.log))))
            && (c.reports.None? ==> c.world.store == w.store && Healthy(c.world))
            && (c.reports.Some? ==>
                  && Healthy(start)
                  && c.world == Through(start, batch, mode, links).world
                  && c.reports.value == Through(start, batch, mode, links).reports)
  {
    hide Through, Sound, Mirrors, Full, Sync;
    RelayKeeps(w, ahead);
  }

  // An interrupted command, or one that got no rows at all, followed by a command over a restored
  // link that names at least the targets left over: the ledger is that of one uninterrupted batch,
  // and every target named is finished.
  lemma RecoveryByCommand(
    w: World, batch: seq<Candidate>, mode: Mode, ahead: Link, links: seq<Links>, retry: seq<Candidate>,
    restored: seq<Links>)
    requires Healthy(w) && |links| == |batch| && OnePerContract(batch) && |restored| == |retry|
    requires forall l | l in restored :: l == Links(Up, Up)
    requires forall c | c in retry :: c in batch
    requires match Command(w, batch, mode, ahead, links).reports
             case None => forall c | c in batch :: c in retry
             case Some(reports) => forall i | 0 <= i < |batch| && reports[i].NotAttempted? :: batch[i] in retry
    ensures var q := Command(Command(w, batch, mode, ahead, links).world, retry, mode, Up, restored);
            q.reports.Some? && Recovered(w, batch, mode, retry, Progress(q.world, q.reports.value))
  {
    hide Through, Command, Full, Healthy, Recovered, OnePerContract;
    CommandKeeps(w, batch, mode, ahead, links);
    var c := Command(w, batch, mode, ahead, links);
    var start := World(w.store, Full(Entries(w.store.log)));
    if c.reports.Some? {
      BatchHealthy(start, batch, mode, links);
    }
    CommandKeeps(c.world, retry, mode, Up, restored);
    var again := World(c.world.store, Full(Entries(c.world.store.log)));
    var q := Through(again, retry, mode, restored);
    assert q == Progress(q.world, q.reports);
    if c.reports.Some? {
      RecoveryFrom(start, batch, mode, links, again, retry, restored);
      SameStore(w, start, batch, mode, retry, q);
    } else {
      UntouchedRecovers(w, batch, mode, again, retry, restored);
    }
  }

  lemma SameStore(w: World, v: World, batch: seq<Candidate>, mode: Mode, retry: seq<Candidate>, q: Progress)
    requires w.store == v.store && |q.reports| == |retry| && Recovered(v, batch, mode, retry, q)
    ensures Recovered(w, batch, mode, retry, q)
  {
  }

  lemma UntouchedRecovers(
    w: World, batch: seq<Candidate>, mode: Mode, now: World, retry: seq<Candidate>, restored: seq<Links>)
    requires Healthy(w) && OnePerContract(batch) && |restored| == |retry|
    requires Healthy(now) && now.store == w.store
    requires forall l | l in restored :: l == Links(Up, Up)
    requires forall c :: c in retry <==> c in batch
    ensures Recovered(w, batch, mode, retry, Through(now, retry, mode, restored))
  {
    SomeApart(batch, retry);
    hide Through, Publish, PublishAll, Verdicts, Tells, Unfinished, OnePerContract, Mirrors;
    Rerun(now, retry, mode, restored);
    Confluence(w.store, retry, batch, mode);
    BatchSettles(w.store, retry, mode);
  }

  // ------------------------------------------------------------------ one member again

  // A verdict of acceptance carries the fact of exactly the requested transition.
  lemma DoneFact(s: State, c: Candidate, mode: Mode)
    requires Sound(s) && Publish(s, c, mode).verdict.Done?
    ensures var f := Publish(s, c, mode).verdict.fact;
            IsMember(c, f)
  {
    PublishKeeps(s, c, mode);
    CommittedRecorded(Publish(s, c, mode).state, c);
  }

  // What the single command publishes when it is given what a row returned, its key as text.
  function Member(row: Row): Candidate
    requires row.data.Some? && row.data.value.Operation?
  {
    var d := row.data.value;
    Candidate(Intent(row.contract, d.worker, row.requested, d.reason), row.key)
  }

  // However the batch ended and whatever has happened since, giving an accepted or pending row's
  // key and data to the single command of either mode returns the row's own data and writes
  // nothing.
  lemma ReplayByRow(
    w: World, batch: seq<Candidate>, mode: Mode, links: seq<Links>, i: nat, es: seq<Happening>, single: Mode)
    requires Healthy(w) && |links| == |batch| && OnePerContract(batch) && i < |batch|
    requires Through(w, batch, mode, links).reports[i].Accepted? || Through(w, batch, mode, links).reports[i].Pending?
    ensures var p := Through(w, batch, mode, links);
            var row, later := RowOf(batch[i], p.reports[i]), After(p.world, es);
            && row.data.Some? && row.data.value.Operation?
            && var a := Attempt(later, Member(row), single, Links(Up, Up));
               && a.report == Report.Accepted(row.data.value.record) && a.world.store == later.store
               && RowOf(Member(row), a.report).data == row.data
  {
    var c, p := batch[i], Through(w, batch, mode, links);
    hide Through, Publish, After, Attempt, Healthy, Broke, Tried, PublishAll, FactOf, IsCommitted, OnePerContract;
    ReportedCommitted(w, batch, mode, links, i);
    RunHealthy(p.world, es);
    var later := After(p.world, es);
    ReplayedThere(p.world, later, c, single);
    RowIsMember(c, p.reports[i]);
    RowIsMember(c, Report.Accepted(p.reports[i].fact));
  }

  lemma ReportedCommitted(w: World, batch: seq<Candidate>, mode: Mode, links: seq<Links>, i: nat)
    requires Healthy(w) && |links| == |batch| && OnePerContract(batch) && i < |batch|
    requires Through(w, batch, mode, links).reports[i].Accepted? || Through(w, batch, mode, links).reports[i].Pending?
    ensures var p, c := Through(w, batch, mode, links), batch[i];
            && Healthy(p.world) && IsCommitted(p.world.store.log, c)
            && FactOf(p.world.store.log, c) == Some(p.reports[i].fact) && IsMember(c, p.reports[i].fact)
  {
    var c, p := batch[i], Through(w, batch, mode, links);
    hide Through, Publish, Tried, PublishAll, FactOf, IsCommitted;
    BatchPublishes(w, batch, mode, links);
    TriedMembers(batch, p.reports);
    var tried := Tried(batch, p.reports);
    Reattempt(w.store, tried, mode, c);
    PublishKeeps(p.world.store, c, mode);
    DoneFact(w.store, c, mode);
  }

  // The fact records the Candidate's own transition.
  predicate IsMember(c: Candidate, f: Id) {
    f.Record? && f.body == Assigned(c, c.intent.contract, c.intent.previous, c.intent.reason, c.intent.worker)
  }

  lemma RowIsMember(c: Candidate, report: Report)
    requires (report.Accepted? || report.Pending?) && IsMember(c, report.fact)
    ensures var row := RowOf(c, report);
            && row.data == Some(OperationOf(report.fact, c)) && row.data.value.Operation?
            && row.data.value.record == report.fact && Member(row) == c
  {
  }

  lemma ReplayedThere(w: World, later: World, c: Candidate, single: Mode)
    requires Healthy(later) && w.store.log <= later.store.log && IsCommitted(w.store.log, c)
    requires FactOf(w.store.log, c).Some?
    ensures var a := Attempt(later, c, single, Links(Up, Up));
            a.report == Report.Accepted(FactOf(w.store.log, c).value) && a.world.store == later.store
  {
    hide Publish, Attempt, FactOf, IsCommitted, Mirrors;
    CommittedLater(w.store.log, later.store.log, c);
    FactOfLater(w.store.log, later.store.log, c);
    Replay(later.store, c, single);
    AttemptKeeps(later, c, single, Links(Up, Up));
    UpFinishes(later, c, single);
  }
}
