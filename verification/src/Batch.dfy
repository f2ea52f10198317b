// A batch of assignments: one publication per target, one row per target, and the counts.

module Batch {
  import opened Wrappers
  import opened Ledger
  import opened FeedProofs
  import opened Workspace

  datatype RowResult = OkAccepted | SyncPending | OkRejected | MissingTask | Skipped | Unknown

  const ASSIGNMENT_CHANGED := "claim.assignment.changed"

  // The data member of a row: an accepted operation, or the fact of a durable rejection.
  datatype Data =
    | Operation(
        kind: string, record: Id, assignment: Id, candidate: Candidate, contract: string, worker: string, previous: Id,
        reason: string, key: string, facts: seq<Id>)
    | Rejection(record: Id, facts: seq<Id>)

  // One target's row. The optional members are the ones a row may lack.
  datatype Row = Row(
    contract: string,
    ok: bool,
    result: RowResult,
    key: string,
    requested: Id,
    data: Option<Data>,
    facts: Option<seq<Id>>,
    candidate: Option<Candidate>,
    accepted: Option<bool>,
    retained: Option<bool>,
    attempted: Option<bool>)

  function Plain(c: Candidate, result: RowResult): Row {
    Row(c.intent.contract, false, result, c.key, c.intent.previous, None, None, None, None, None, None)
  }

  // The operation data of an assignment fact.
  function OperationOf(f: Id, c: Candidate): Data {
    if f.Record? && f.body.Assigned? then
      Operation(ASSIGNMENT_CHANGED, f, f, f.body.candidate, f.body.contract, f.body.worker, f.body.previous,
                f.body.reason, c.key, [f])
    else Rejection(f, [])
  }

  function RowOf(c: Candidate, report: Report): Row {
    match report
    case Accepted(fact) =>
      Row(c.intent.contract, true, OkAccepted, c.key, c.intent.previous,
          Some(OperationOf(fact, c)), Some([fact]), Some(c), None, None, None)
    case Pending(fact) =>
      Row(c.intent.contract, false, SyncPending, c.key, c.intent.previous,
          Some(OperationOf(fact, c)), Some([fact]), Some(c), Some(true), Some(true), None)
    case Rejected(conflict, relayPending) =>
      if relayPending then
        var rejection := Record(Body.Rejected(c, conflict), [Receipt(c)]);
        Row(c.intent.contract, false, OkRejected, c.key, c.intent.previous,
            Some(Rejection(rejection, [rejection])), Some([rejection]), None, Some(false), Some(true), Some(true))
      else Plain(c, OkRejected)
    case Refused(refusal) => Plain(c, if refusal.NotFound? then MissingTask else OkRejected)
    case NotAttempted => Plain(c, Skipped).(attempted := Some(false))
    case Internal => Plain(c, Unknown).(attempted := Some(true))
  }

  // ------------------------------------------------------------------ the whole batch

  datatype Progress = Progress(world: World, reports: seq<Report>)

  // An internal error ends the attempts; the targets after it are not attempted.
  predicate Broke(reports: seq<Report>) {
    Internal in reports
  }

  function Through(w: World, batch: seq<Candidate>, mode: Mode, links: seq<Links>): (p: Progress)
    requires |links| == |batch|
    ensures |p.reports| == |batch|
  {
    if batch == [] then Progress(w, [])
    else
      var n := |batch| - 1;
      Further(Through(w, batch[..n], mode, links[..n]), batch[n], mode, links[n])
  }

  function Further(p: Progress, candidate: Candidate, mode: Mode, links: Links): Progress {
    if Broke(p.reports) then Progress(p.world, p.reports + [NotAttempted])
    else
      var a := Attempt(p.world, candidate, mode, links);
      Progress(a.world, p.reports + [a.report])
  }

  function Rows(batch: seq<Candidate>, reports: seq<Report>): (r: seq<Row>)
    requires |reports| == |batch|
    ensures |r| == |batch| && forall i | 0 <= i < |r| :: r[i] == RowOf(batch[i], reports[i])
  {
    seq(|batch|, i requires 0 <= i < |batch| => RowOf(batch[i], reports[i]))
  }

  function Tally(rows: seq<Row>, result: RowResult): (n: nat)
    ensures n <= |rows|
  {
    if rows == [] then 0
    else Tally(rows[..|rows| - 1], result) + if rows[|rows| - 1].result == result then 1 else 0
  }

  // The data member of the batch envelope, and its success flag.
  datatype Envelope = Envelope(
    ok: bool, base: string, results: seq<Row>, success: nat, failed: nat, pending: nat, unknown: nat, skipped: nat)

  function Summary(base: string, rows: seq<Row>): Envelope {
    var success := Tally(rows, OkAccepted);
    Envelope(success == |rows|, base, rows, success, |rows| - success,
             Tally(rows, SyncPending), Tally(rows, Unknown), Tally(rows, Skipped))
  }

  // collect_task_batch over publish_task_assignment
  method Collect(store: Store, redis: Redis, base: string, batch: seq<Candidate>, mode: Mode, links: seq<Links>)
    returns (e: Envelope)
    requires |links| == |batch| && Orderly(redis.Contents())
    modifies store, redis
    ensures Orderly(redis.Contents())
    ensures var p := Through(old(Now(store, redis)), batch, mode, links);
            Now(store, redis) == p.world && e == Summary(base, Rows(batch, p.reports))
  {
    ghost var start := Now(store, redis);
    hide Attempt, Orderly, Through, Further, Rows, RowOf, Broke;
    var rows, reports, index := [], [], 0;
    CollectNone(start, batch, mode, links);
    while index < |batch|
      invariant index <= |batch| && Orderly(redis.Contents())
      invariant Progress(Now(store, redis), reports) == Through(start, batch[..index], mode, links[..index])
      invariant |reports| == index && rows == Rows(batch[..index], reports) && !Broke(reports)
    {
      var report := PublishAssignment(store, redis, batch[index], mode, links[index]);
      CollectStep(start, batch, mode, links, index, reports, report);
      rows, reports := rows + [RowOf(batch[index], report)], reports + [report];
      index := index + 1;
      if report.Internal? {
        break;
      }
    }
    // Everything after an unexpected error
    while index < |batch|
      invariant index <= |batch| && Orderly(redis.Contents())
      invariant Progress(Now(store, redis), reports) == Through(start, batch[..index], mode, links[..index])
      invariant |reports| == index && rows == Rows(batch[..index], reports) && (index < |batch| ==> Broke(reports))
    {
      CollectStep(start, batch, mode, links, index, reports, NotAttempted);
      rows, reports := rows + [RowOf(batch[index], NotAttempted)], reports + [NotAttempted];
      index := index + 1;
    }
    assert batch[..|batch|] == batch && links[..|links|] == links;
    e := Summary(base, rows);
  }

  // A batch command synchronizes once before its first target. When that fails there are no rows.
  datatype Commanded = Commanded(world: World, reports: Option<seq<Report>>)

  function Command(w: World, batch: seq<Candidate>, mode: Mode, ahead: Link, links: seq<Links>): (c: Commanded)
    requires |links| == |batch|
    ensures c.reports.Some? ==> |c.reports.value| == |batch|
  {
    var first := Relay(w, ahead);
    if !first.ok then Commanded(World(w.store, first.projection), None)
    else
      var p := Through(World(w.store, first.projection), batch, mode, links);
      Commanded(p.world, Some(p.reports))
  }

  // The batch commands: the preflight of the snapshot, then the rows
  method RunCommand(
    store: Store, redis: Redis, base: string, batch: seq<Candidate>, mode: Mode, ahead: Link, links: seq<Links>)
    returns (e: Option<Envelope>)
    requires |links| == |batch| && Orderly(redis.Contents())
    modifies store, redis
    ensures Orderly(redis.Contents())
    ensures var c := Command(old(Now(store, redis)), batch, mode, ahead, links);
            && Now(store, redis) == c.world
            && e == match c.reports
                    case None => None
                    case Some(reports) => Some(Summary(base, Rows(batch, reports)))
  {
    ghost var start := Now(store, redis);
    hide Through, Summary, Rows, Sync, Orderly;
    EntriesRising(store.log);
    var ok := redis.Sync(Entries(store.log), ahead);
    SyncOrderly(start.feed, Entries(start.store.log), ahead);
    if !ok {
      return None;
    }
    var envelope := Collect(store, redis, base, batch, mode, links);
    return Some(envelope);
  }

  lemma CollectNone(w: World, batch: seq<Candidate>, mode: Mode, links: seq<Links>)
    requires |links| == |batch|
    ensures Through(w, batch[..0], mode, links[..0]) == Progress(w, [])
    ensures Rows(batch[..0], []) == [] && !Broke([])
  {
  }

  lemma CollectStep(
    w: World, batch: seq<Candidate>, mode: Mode, links: seq<Links>, i: nat, reports: seq<Report>, report: Report)
    requires |links| == |batch| && i < |batch| && |reports| == i
    requires Through(w, batch[..i], mode, links[..i]).reports == reports
    requires var before := Through(w, batch[..i], mode, links[..i]).world;
             if Broke(reports) then report == NotAttempted else report == Attempt(before, batch[i], mode, links[i]).report
    ensures var before := Through(w, batch[..i], mode, links[..i]).world;
            var after := if Broke(reports) then before else Attempt(before, batch[i], mode, links[i]).world;
            Through(w, batch[..i + 1], mode, links[..i + 1]) == Progress(after, reports + [report])
    ensures Rows(batch[..i + 1], reports + [report]) == Rows(batch[..i], reports) + [RowOf(batch[i], report)]
    ensures Broke(reports + [report]) <==> Broke(reports) || report.Internal?
  {
    hide Attempt, RowOf;
    assert batch[..i + 1][..i] == batch[..i] && links[..i + 1][..i] == links[..i];
  }
}
