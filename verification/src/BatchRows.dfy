// What a batch's envelope says: each row by the report behind it, the counts, and the shape of an
// outage as a reader of the rows sees it.

module BatchRows {
  import opened Wrappers
  import opened Ledger
  import opened LedgerProofs
  import opened LedgerOutcomes
  import opened LedgerConfluence
  import opened FeedProofs
  import opened Workspace
  import opened WorkspaceProofs
  import opened Batch
  import opened BatchProofs

  // ------------------------------------------------------------------ one row

  // What every row repeats of its target, and what it says for each report. Members that are absent
  // are None.
  lemma {:induction false} RowTable(base: string, batch: seq<Candidate>, reports: seq<Report>, i: nat)
    requires |reports| == |batch| && i < |batch|
    ensures var e, c := Summary(base, Rows(batch, reports)), batch[i];
            && e.base == base && |e.results| == |batch|
            && var row := e.results[i];
               && row.contract == c.intent.contract && row.key == c.key && row.requested == c.intent.previous
               && match reports[i]
                  case Accepted(fact) =>
                    row.result == OkAccepted && row.ok && row.facts == Some([fact]) && row.candidate == Some(c)
                    && row.accepted == None && row.retained == None && row.attempted == None
                  case Pending(fact) =>
                    row.result == SyncPending && !row.ok && row.facts == Some([fact]) && row.candidate == Some(c)
                    && row.accepted == Some(true) && row.retained == Some(true) && row.attempted == None
                  case Rejected(conflict, relayPending) =>
                    row.result == OkRejected && !row.ok && row.candidate == None
                    && (relayPending ==>
                          row.accepted == Some(false) && row.retained == Some(true) && row.attempted == Some(true)
                          && row.facts == Some([Record(Body.Rejected(c, conflict), [Receipt(c)])]))
                    && (!relayPending ==>
                          row.accepted == None && row.retained == None && row.attempted == None
                          && row.facts == None && row.data == None)
                  case Refused(refusal) =>
                    row.result == (if refusal == Refusal.NotFound then MissingTask else OkRejected) && !row.ok
                    && row.candidate == None && row.facts == None && row.data == None
                    && row.accepted == None && row.retained == None && row.attempted == None
                  case NotAttempted =>
                    row.result == Skipped && !row.ok && row.attempted == Some(false)
                    && row.candidate == None && row.facts == None && row.data == None
                    && row.accepted == None && row.retained == None
                  case Internal =>
                    row.result == Unknown && !row.ok && row.attempted == Some(true)
                    && row.candidate == None && row.facts == None && row.data == None
                    && row.accepted == None && row.retained == None
  {
    hide Tally;
  }

  // The data of an accepted or pending row are the members of its fact.
  lemma {:induction false} RowData(base: string, batch: seq<Candidate>, reports: seq<Report>, i: nat)
    requires |reports| == |batch| && i < |batch| && (reports[i].Accepted? || reports[i].Pending?)
    requires reports[i].fact.Record? && reports[i].fact.body.Assigned?
    ensures var c, f := batch[i], reports[i].fact;
            Summary(base, Rows(batch, reports)).results[i].data
            == Some(Operation("claim.assignment.changed", f, f, f.body.candidate, f.body.contract, f.body.worker,
                              f.body.previous, f.body.reason, c.key, [f]))
  {
    hide Tally;
  }

  // ------------------------------------------------------------------ the counts

  // The places of the reports of some kind
  function Places(reports: seq<Report>, kind: Report -> bool): set<nat> {
    set i: nat | i < |reports| && kind(reports[i])
  }

  lemma PlacesMore(reports: seq<Report>, report: Report, kind: Report -> bool)
    ensures Places(reports + [report], kind) == Places(reports, kind) + if kind(report) then {|reports|} else {}
    ensures |Places(reports + [report], kind)| == |Places(reports, kind)| + if kind(report) then 1 else 0
  {
    assert |reports| !in Places(reports, kind);
    assert Places(reports + [report], kind) == Places(reports, kind) + if kind(report) then {|reports|} else {};
  }

  lemma {:induction false} TallyPlaces(batch: seq<Candidate>, reports: seq<Report>, result: RowResult, kind: Report -> bool)
    requires |reports| == |batch| && forall c, r :: RowOf(c, r).result == result <==> kind(r)
    ensures Tally(Rows(batch, reports), result) == |Places(reports, kind)|
  {
    hide RowOf;
    if batch == [] {
      assert Places(reports, kind) == {};
    } else {
      var n := |batch| - 1;
      TallyPlaces(batch[..n], reports[..n], result, kind);
      assert reports == reports[..n] + [reports[n]];
      RowsMore(batch, reports);
      hide Places, Rows;
      PlacesMore(reports[..n], reports[n], kind);
    }
  }

  lemma RowsMore(batch: seq<Candidate>, reports: seq<Report>)
    requires |reports| == |batch| >= 1
    ensures var n := |batch| - 1;
            && Rows(batch, reports)[..n] == Rows(batch[..n], reports[..n])
            && Rows(batch, reports)[n] == RowOf(batch[n], reports[n])
  {
    hide RowOf;
  }

  // The counts of an envelope are the numbers of reports of each kind; it is a success when every
  // target was accepted.
  lemma {:induction false} CountTable(base: string, batch: seq<Candidate>, reports: seq<Report>)
    requires |reports| == |batch|
    ensures var e := Summary(base, Rows(batch, reports));
            && e.success == |set i: nat | i < |reports| && reports[i].Accepted?|
            && e.failed == |reports| - e.success
            && e.pending == |set i: nat | i < |reports| && reports[i].Pending?|
            && e.unknown == |set i: nat | i < |reports| && reports[i].Internal?|
            && e.skipped == |set i: nat | i < |reports| && reports[i].NotAttempted?|
            && (e.ok <==> forall i | 0 <= i < |reports| :: reports[i].Accepted?)
  {
    AcceptedCount(batch, reports);
    PendingCount(batch, reports);
    UnknownCount(batch, reports);
    SkippedCount(batch, reports);
    hide Rows, Tally;
    WholeCount(reports);
  }

  lemma AcceptedCount(batch: seq<Candidate>, reports: seq<Report>)
    requires |reports| == |batch|
    ensures Tally(Rows(batch, reports), OkAccepted) == |set i: nat | i < |reports| && reports[i].Accepted?|
  {
    TallyPlaces(batch, reports, OkAccepted, (r: Report) => r.Accepted?);
    assert (set i: nat | i < |reports| && reports[i].Accepted?) == Places(reports, (r: Report) => r.Accepted?);
  }

  lemma PendingCount(batch: seq<Candidate>, reports: seq<Report>)
    requires |reports| == |batch|
    ensures Tally(Rows(batch, reports), SyncPending) == |set i: nat | i < |reports| && reports[i].Pending?|
  {
    TallyPlaces(batch, reports, SyncPending, (r: Report) => r.Pending?);
    assert (set i: nat | i < |reports| && reports[i].Pending?) == Places(reports, (r: Report) => r.Pending?);
  }

  lemma UnknownCount(batch: seq<Candidate>, reports: seq<Report>)
    requires |reports| == |batch|
    ensures Tally(Rows(batch, reports), Unknown) == |set i: nat | i < |reports| && reports[i].Internal?|
  {
    TallyPlaces(batch, reports, Unknown, (r: Report) => r.Internal?);
    assert (set i: nat | i < |reports| && reports[i].Internal?) == Places(reports, (r: Report) => r.Internal?);
  }

  lemma SkippedCount(batch: seq<Candidate>, reports: seq<Report>)
    requires |reports| == |batch|
    ensures Tally(Rows(batch, reports), Skipped) == |set i: nat | i < |reports| && reports[i].NotAttempted?|
  {
    TallyPlaces(batch, reports, Skipped, (r: Report) => r.NotAttempted?);
    assert (set i: nat | i < |reports| && reports[i].NotAttempted?) == Places(reports, (r: Report) => r.NotAttempted?);
  }

  lemma {:induction false} WholeCount(reports: seq<Report>)
    ensures var n := |set i: nat | i < |reports| && reports[i].Accepted?|;
            n <= |reports| && (n == |reports| <==> forall i | 0 <= i < |reports| :: reports[i].Accepted?)
  {
    var kind := (r: Report) => r.Accepted?;
    assert (set i: nat | i < |reports| && reports[i].Accepted?) == Places(reports, kind);
    if reports == [] {
      assert Places(reports, kind) == {};
    } else {
      var n := |reports| - 1;
      var front := reports[..n];
      WholeCount(front);
      assert (set i: nat | i < n && front[i].Accepted?) == Places(front, kind);
      PlacesMore(front, reports[n], kind);
      assert reports == front + [reports[n]];
    }
  }

  // ------------------------------------------------------------------ one target after another

  // Each target is published in the world the targets before it have left, unless one of them ended
  // in an internal error: then it is not attempted, and nothing changes any more.
  lemma {:induction false} EachInTurn(w: World, batch: seq<Candidate>, mode: Mode, links: seq<Links>, i: nat)
    requires |links| == |batch| && i < |batch|
    ensures var p, before := Through(w, batch, mode, links), Through(w, batch[..i], mode, links[..i]);
            var after := Through(w, batch[..i + 1], mode, links[..i + 1]);
            && p.reports[..i] == before.reports
            && if exists j :: 0 <= j < i && p.reports[j] == Internal then
                 p.reports[i] == NotAttempted && after.world == before.world
               else
                 Attempted(after.world, p.reports[i]) == Attempt(before.world, batch[i], mode, links[i])
  {
    var n := |batch| - 1;
    hide Attempt, Through;
    ThroughMore(w, batch, mode, links);
    if i == n {
      assert batch[..i + 1] == batch && links[..i + 1] == links;
    } else {
      EachInTurn(w, batch[..n], mode, links[..n], i);
      assert batch[..n][..i] == batch[..i] && links[..n][..i] == links[..i];
      assert batch[..n][..i + 1] == batch[..i + 1] && links[..n][..i + 1] == links[..i + 1];
      assert batch[..n][i] == batch[i] && links[..n][i] == links[i];
      hide *;
      FrontReports(Through(w, batch[..n], mode, links[..n]).reports, Through(w, batch, mode, links).reports, n, i);
    }
  }

  lemma FrontReports(front: seq<Report>, all: seq<Report>, n: nat, i: nat)
    requires n < |all| && all[..n] == front && i < n
    ensures all[..i] == front[..i] && all[i] == front[i]
    ensures (exists j :: 0 <= j < i && all[j] == Internal) <==> exists j :: 0 <= j < i && front[j] == Internal
  {
    assert forall j | 0 <= j < n :: all[j] == front[j];
  }

  lemma ThroughMore(w: World, batch: seq<Candidate>, mode: Mode, links: seq<Links>)
    requires |links| == |batch| >= 1
    ensures var n := |batch| - 1;
            var front, p := Through(w, batch[..n], mode, links[..n]), Through(w, batch, mode, links);
            && p.reports[..n] == front.reports
            && if exists j :: 0 <= j < n && p.reports[j] == Internal then
                 p.reports[n] == NotAttempted && p.world == front.world
               else
                 Attempted(p.world, p.reports[n]) == Attempt(front.world, batch[n], mode, links[n])
  {
    hide Attempt;
    var n := |batch| - 1;
    var front, p := Through(w, batch[..n], mode, links[..n]), Through(w, batch, mode, links);
    assert p == Further(front, batch[n], mode, links[n]);
    assert p.reports[..n] == front.reports;
    assert forall j | 0 <= j < n :: p.reports[j] == front.reports[j];
  }

  // ------------------------------------------------------------------ whole commands

  // Whatever the links do, the not-found rows are exactly those of undeclared tasks, and a row is
  // refused exactly when its target would have been refused on its own.
  lemma {:induction false} RefusedRows(w: World, base: string, batch: seq<Candidate>, mode: Mode, links: seq<Links>, i: nat)
    requires Healthy(w) && |links| == |batch| && OnePerContract(batch) && i < |batch|
    ensures var reports := Through(w, batch, mode, links).reports;
            var row := Summary(base, Rows(batch, reports)).results[i];
            && (row.result == MissingTask
                <==> forall d | d in w.store.log && d.Record? && d.body.Declared? :: d.body.contract != batch[i].intent.contract)
            && (reports[i].Refused? <==> Publish(w.store, batch[i], mode).verdict.Refuse?)
            && !reports[i].Internal?
  {
    var reports := Through(w, batch, mode, links).reports;
    BatchPublishes(w, batch, mode, links);
    RowTable(base, batch, reports, i);
    NotFoundExactly(w.store, batch[i], mode);
    hide Through, Publish, Healthy, OnePerContract, Rows, Summary, Tried, PublishAll;
    assert Tells(reports[i], Publish(w.store, batch[i], mode).verdict);
  }

  lemma {:induction false} NotFoundExactly(s: State, c: Candidate, mode: Mode)
    ensures Publish(s, c, mode).verdict == Refuse(Refusal.NotFound)
       <==> forall d | d in s.log && d.Record? && d.body.Declared? :: d.body.contract != c.intent.contract
  {
    var found := Declaration(s.log, c.intent.contract);
    hide History, Recorded, Objection, FactOf, Head, Commit, Decide, Declaration;
    if found.Some? {
      assert found.value in s.log && IsDeclaration(found.value, c.intent.contract);
    }
    forall d | d in s.log && d.Record? && d.body.Declared? && d.body.contract == c.intent.contract ensures found.Some? {
      assert IsDeclaration(d, c.intent.contract);
    }
  }

  // In an outage: after the first row that is pending, not attempted, or rejected with its relay
  // pending, nothing is written, every target that would have been refused is refused, and every
  // other row says that nothing was attempted.
  lemma {:induction false} OutageRows(w: World, base: string, batch: seq<Candidate>, mode: Mode, links: seq<Links>, i: nat)
    requires Healthy(w) && |links| == |batch| && OnePerContract(batch) && Failing(links) && i < |batch|
    requires var row := Summary(base, Rows(batch, Through(w, batch, mode, links).reports)).results[i];
             row.result == SyncPending || row.result == Skipped || (row.result == OkRejected && row.retained == Some(true))
    ensures var p, rest := Through(w, batch, mode, links), Through(w, batch[..i + 1], mode, links[..i + 1]);
            var rows := Summary(base, Rows(batch, p.reports)).results;
            && p.world.store == rest.world.store
            && forall j | i < j < |batch| ::
                 if Publish(w.store, batch[j], mode).verdict.Refuse? then
                   (rows[j].result == MissingTask || rows[j].result == OkRejected) && rows[j].data == None
                   && rows[j].attempted == None
                 else
                   rows[j].result == Skipped && rows[j].attempted == Some(false) && rows[j].data == None
  {
    var p := Through(w, batch, mode, links);
    RowTable(base, batch, p.reports, i);
    hide Through, Publish, Healthy, OnePerContract, Rows, Summary, Failing, Silenced;
    assert Unfinished(p.reports[i]);
    OutageShape(w, batch, mode, links, i);
    var at := Through(w, batch[..i + 1], mode, links[..i + 1]).world;
    SilencedAt(p, batch, i, mode, links[|batch| - 1].after, at);
    forall j | i < j < |batch|
      ensures var row := Summary(base, Rows(batch, p.reports)).results[j];
              if Publish(w.store, batch[j], mode).verdict.Refuse? then
                (row.result == MissingTask || row.result == OkRejected) && row.data == None && row.attempted == None
              else row.result == Skipped && row.attempted == Some(false) && row.data == None
    {
      SilentThere(p, batch, i, mode, links[|batch| - 1].after, at, j);
      RefusedRows(w, base, batch, mode, links, j);
      RowTable(base, batch, p.reports, j);
    }
  }

  lemma {:induction false} SilentThere(p: Progress, batch: seq<Candidate>, i: nat, mode: Mode, last: Link, at: World, j: nat)
    requires Silenced(p, at, batch, i, mode, last) && i < j < |batch|
    ensures p.reports[j].Refused? || p.reports[j].NotAttempted?
  {
  }

  // A batch of new admissible transitions over a relay that drops appends, or that goes down, after
  // the first commitment: the first row is pending, all others not attempted, and the counts say so.
  lemma {:induction false} OutageFromTheFirst(w: World, base: string, batch: seq<Candidate>, mode: Mode, links: seq<Links>)
    requires Healthy(w) && |links| == |batch| >= 1 && AllFresh(w.store, batch, mode) && Failing(links)
    requires links[0].before.Up? && (links[0].after.NoAppends? || links[0].after.Down?)
    ensures var p := Through(w, batch, mode, links);
            var e := Summary(base, Rows(batch, p.reports));
            && e.results[0].result == SyncPending
            && e.results[0].accepted == Some(true) && e.results[0].retained == Some(true)
            && (forall j | 0 < j < |batch| :: e.results[j].result == Skipped && e.results[j].attempted == Some(false))
            && e.success == 0 && e.failed == |batch| && e.pending == 1 && e.unknown == 0 && e.skipped == |batch| - 1
            && p.world.store == Publish(w.store, batch[0], mode).state
  {
    var p := Through(w, batch, mode, links);
    hide Healthy, Failing, Publish, Summary, Rows, Admissible, Recorded, Attempt, Further;
    FirstPending(w, batch, mode, links);
    RowTable(base, batch, p.reports, 0);
    OutageRows(w, base, batch, mode, links, 0);
    forall j | 0 <= j < |batch| ensures Publish(w.store, batch[j], mode).verdict.Done? {
      assert batch[j] in batch;
      SoundStore(w);
      AcceptedExactly(w.store, batch[j], mode);
    }
    FirstOnly(w, batch, mode, links);
    KindsThen(base, batch, p.reports);
  }

  lemma SoundStore(w: World)
    requires Healthy(w)
    ensures Sound(w.store)
  {
  }

  // One pending report and then none attempted
  lemma {:induction false} KindsThen(base: string, batch: seq<Candidate>, reports: seq<Report>)
    requires |reports| == |batch| >= 1
    requires var e := Summary(base, Rows(batch, reports));
             e.results[0].result == SyncPending && forall j | 0 < j < |batch| :: e.results[j].result == Skipped
    ensures var e := Summary(base, Rows(batch, reports));
            e.success == 0 && e.failed == |batch| && e.pending == 1 && e.unknown == 0 && e.skipped == |batch| - 1
  {
    var rows := Rows(batch, reports);
    TallyFirst(rows);
  }

  lemma {:induction false} TallyFirst(rows: seq<Row>)
    requires rows != [] && rows[0].result == SyncPending && forall j | 0 < j < |rows| :: rows[j].result == Skipped
    ensures Tally(rows, OkAccepted) == 0 && Tally(rows, SyncPending) == 1 && Tally(rows, Unknown) == 0
    ensures Tally(rows, Skipped) == |rows| - 1
  {
    var front := rows[..|rows| - 1];
    if |rows| == 1 {
      assert front == [];
    } else {
      TallyFirst(front);
    }
  }

  lemma {:induction false} FirstPending(w: World, batch: seq<Candidate>, mode: Mode, links: seq<Links>)
    requires Healthy(w) && |links| == |batch| >= 1 && AllFresh(w.store, batch, mode)
    requires links[0].before.Up? && (links[0].after.NoAppends? || links[0].after.Down?)
    ensures Through(w, batch, mode, links).reports[0].Pending?
  {
    hide Healthy, Attempt, Admissible, Recorded, Further, Publish;
    FirstReport(w, batch, mode, links);
    assert batch[0] in batch;
    SoundStore(w);
    AcceptedExactly(w.store, batch[0], mode);
    NotCommitted(w.store, batch[0]);
    PendingAlone(w, batch[0], mode, links[0]);
  }

  lemma NotCommitted(s: State, c: Candidate)
    requires Sound(s) && !Recorded(s.log, c.intent)
    ensures !IsCommitted(s.log, c)
  {
    if IsCommitted(s.log, c) {
      CommittedRecorded(s, c);
    }
  }

  lemma {:induction false} FirstReport(w: World, batch: seq<Candidate>, mode: Mode, links: seq<Links>)
    requires |links| == |batch| >= 1
    ensures Through(w, batch, mode, links).reports[0] == Attempt(w, batch[0], mode, links[0]).report
  {
    var n := |batch| - 1;
    if n > 0 {
      hide Attempt;
      FirstReport(w, batch[..n], mode, links[..n]);
    } else {
      assert Through(w, batch[..0], mode, links[..0]) == Progress(w, []);
    }
  }

  lemma {:induction false} PendingAlone(w: World, c: Candidate, mode: Mode, links: Links)
    requires Healthy(w) && Publish(w.store, c, mode).verdict.Done? && !IsCommitted(w.store.log, c)
    requires links.before.Up? && (links.after.NoAppends? || links.after.Down?)
    ensures Attempt(w, c, mode, links).report.Pending?
  {
    hide Sync, Mirrors, Full, Sound, Preflight, FactOf, IsCommitted, Publish;
    PublishKeeps(w.store, c, mode);
    PreflightPublish(w.store, c, mode);
    RelayKeeps(w, links.before);
    var o, first := Publish(w.store, c, mode), Relay(w, links.before);
    StoreGrows(World(w.store, first.projection), o.state);
    RelayKeeps(World(o.state, first.projection), links.after);
    LongerFull(w.store.log, o.state.log);
  }

  // The store after the first target
  lemma {:induction false} FirstOnly(w: World, batch: seq<Candidate>, mode: Mode, links: seq<Links>)
    requires Healthy(w) && |links| == |batch| >= 1
    requires Publish(w.store, batch[0], mode).verdict.Done?
    requires Through(w, batch, mode, links).reports[0].Pending?
    ensures Through(w, batch[..1], mode, links[..1]).world.store == Publish(w.store, batch[0], mode).state
  {
    hide Healthy, Attempt, Publish;
    FirstReport(w, batch, mode, links);
    AttemptKeeps(w, batch[0], mode, links[0]);
    assert batch[..1][..0] == [] && links[..1][..0] == [];
    assert Through(w, [], mode, []) == Progress(w, []);
  }
}
