// The checks that decide what a batch command may report, and what an accepted but unrelayed
// assignment may have changed.

module Oracles {
  import opened Wrappers
  import opened Ledger
  import opened LedgerProofs
  import opened LedgerConfluence
  import opened Workspace
  import opened WorkspaceProofs
  import opened Batch
  import opened BatchProofs

  // ------------------------------------------------------------------ batch results

  predicate NoIds(row: Row) {
    row.data.None? && row.candidate.None? && row.facts.None?
  }

  // What is asked of one row, given the requested head and the requested change.
  predicate RowFits(row: Row, previous: Id, worker: string, reason: string) {
    && row.requested == previous && row.key != ""
    && match row.result
       case OkAccepted => row.ok && DataFits(row, previous, worker, reason)
       case SyncPending =>
         !row.ok && DataFits(row, previous, worker, reason) && row.accepted == Some(true) && row.retained == Some(true)
       case OkRejected => !row.ok && NoIds(row)
       case MissingTask => !row.ok && NoIds(row)
       case Skipped => !row.ok && row.accepted.None? && row.attempted == Some(false) && NoIds(row)
       case Unknown => !row.ok && row.attempted == Some(true) && NoIds(row)
  }

  predicate DataFits(row: Row, previous: Id, worker: string, reason: string) {
    && row.data.Some? && row.data.value.Operation?
    && var d := row.data.value;
       && d.contract == row.contract && d.previous == previous && d.reason == reason && d.worker == worker
       && d.kind == ASSIGNMENT_CHANGED && d.record != NONE && d.assignment == d.record
       && d.facts == [d.record] && d.key == row.key
       && row.candidate == Some(d.candidate) && row.facts == Some([d.record])
  }

  // An accepted or pending row passes exactly when it is what some record and Candidate give for
  // the requested change, with the row's own contract and key, and a pending one is marked durable.
  lemma AcceptedRowForm(row: Row, previous: Id, worker: string, reason: string)
    requires row.result.OkAccepted? || row.result.SyncPending?
    ensures RowFits(row, previous, worker, reason)
       <==> && row.requested == previous && row.key != ""
            && (row.ok <==> row.result.OkAccepted?)
            && (row.result.SyncPending? ==> row.accepted == Some(true) && row.retained == Some(true))
            && exists f, c ::
                 && f != Text("")
                 && row.data == Some(Operation("claim.assignment.changed", f, f, c, row.contract, worker, previous, reason,
                                               row.key, [f]))
                 && row.facts == Some([f]) && row.candidate == Some(c)
  {
    if RowFits(row, previous, worker, reason) {
      var d := row.data.value;
      assert d == Operation("claim.assignment.changed", d.record, d.record, d.candidate, row.contract, worker, previous, reason,
                            row.key, [d.record]);
    }
  }

  // Any other row passes exactly when it names its target and carries no record; one not attempted
  // and one of unknown outcome also say whether the command was attempted.
  lemma OtherRowForm(row: Row, previous: Id, worker: string, reason: string)
    requires !row.result.OkAccepted? && !row.result.SyncPending?
    ensures RowFits(row, previous, worker, reason)
       <==> && row.requested == previous && row.key != "" && !row.ok
            && row.data == None && row.candidate == None && row.facts == None
            && (row.result.Skipped? ==> row.attempted == Some(false) && row.accepted == None)
            && (row.result.Unknown? ==> row.attempted == Some(true))
  {
  }

  predicate BatchFits(
    e: Envelope, contracts: seq<string>, previous: map<string, Id>, worker: string, reason: string, base: Option<string>,
    success: bool)
  {
    && (base.Some? ==> e.base == base.value) && e.base != ""
    && |e.results| == |contracts|
    && previous.Keys == (set c | c in contracts)
    && (forall i | 0 <= i < |contracts| :: e.results[i].contract == contracts[i])
    && (forall i | 0 <= i < |contracts| ::
          contracts[i] in previous && RowFits(e.results[i], previous[contracts[i]], worker, reason))
    && CountsFit(e, success)
  }

  predicate CountsFit(e: Envelope, success: bool) {
    e == Summary(e.base, e.results).(ok := success)
  }

  lemma CountsCompared(e: Envelope, outcomes: map<RowResult, nat>, success: bool)
    requires forall r: RowResult :: r in outcomes && outcomes[r] == Tally(e.results, r)
    ensures CountsFit(e, success)
       <==> e.success == outcomes[OkAccepted] && e.failed == |e.results| - outcomes[OkAccepted]
            && e.pending == outcomes[SyncPending] && e.unknown == outcomes[Unknown] && e.skipped == outcomes[Skipped]
            && e.ok == success
  {
    hide Tally;
  }

  // The loop over the rows: whether each fits, and how many there are of each result.
  method AssertRows(rows: seq<Row>, contracts: seq<string>, previous: map<string, Id>, worker: string, reason: string)
    returns (fits: bool, outcomes: map<RowResult, nat>)
    requires |rows| == |contracts| && forall c | c in contracts :: c in previous
    ensures fits <==> forall i | 0 <= i < |rows| :: RowFits(rows[i], previous[contracts[i]], worker, reason)
    ensures fits ==> forall r: RowResult :: r in outcomes && outcomes[r] == Tally(rows, r)
  {
    hide RowFits;
    outcomes := map[OkAccepted := 0, SyncPending := 0, OkRejected := 0, MissingTask := 0, Unknown := 0, Skipped := 0];
    assert rows[..0] == [];
    forall r: RowResult ensures r in outcomes && outcomes[r] == Tally([], r) {
      match r {
        case OkAccepted =>
        case SyncPending =>
        case OkRejected =>
        case MissingTask =>
        case Skipped =>
        case Unknown =>
      }
    }
    for i := 0 to |rows|
      invariant forall r: RowResult :: r in outcomes && outcomes[r] == Tally(rows[..i], r)
      invariant forall k | 0 <= k < i :: RowFits(rows[k], previous[contracts[k]], worker, reason)
    {
      if !RowFits(rows[i], previous[contracts[i]], worker, reason) {
        return false, outcomes;
      }
      TallyNext(rows, i);
      outcomes := outcomes[rows[i].result := outcomes[rows[i].result] + 1];
    }
    assert rows[..|rows|] == rows;
    fits := true;
  }

  // _assert_reassign_batch
  method AssertBatch(
    e: Envelope, contracts: seq<string>, previous: map<string, Id>, worker: string, reason: string, base: Option<string>,
    success: bool)
    returns (fits: bool)
    ensures fits <==> BatchFits(e, contracts, previous, worker, reason, base, success)
  {
    hide RowFits, Tally, CountsFit;
    var rows := e.results;
    if (base.Some? && e.base != base.value) || e.base == "" {
      return false;
    }
    if |rows| != |contracts| || previous.Keys != (set c | c in contracts) {
      return false;
    }
    assert forall c | c in contracts :: c in previous.Keys;
    if !forall i | 0 <= i < |rows| :: rows[i].contract == contracts[i] {
      return false;
    }
    var outcomes;
    fits, outcomes := AssertRows(rows, contracts, previous, worker, reason);
    if fits {
      CountsCompared(e, outcomes, success);
      fits := && e.success == outcomes[OkAccepted] && e.failed == |rows| - outcomes[OkAccepted]
              && e.pending == outcomes[SyncPending] && e.unknown == outcomes[Unknown] && e.skipped == outcomes[Skipped]
              && e.ok == success;
    }
  }

  lemma TallyNext(rows: seq<Row>, i: nat)
    requires i < |rows|
    ensures forall result ::
              Tally(rows[..i + 1], result) == Tally(rows[..i], result) + if rows[i].result == result then 1 else 0
  {
    assert rows[..i + 1][..i] == rows[..i];
  }

  // The requested heads of a batch.
  function Requested(batch: seq<Candidate>): (m: map<string, Id>)
    ensures forall c :: c in m <==> exists i :: 0 <= i < |batch| && batch[i].intent.contract == c
  {
    if batch == [] then map[]
    else Requested(batch[..|batch| - 1])[batch[|batch| - 1].intent.contract := batch[|batch| - 1].intent.previous]
  }

  lemma {:induction false} RequestedAt(batch: seq<Candidate>, i: nat)
    requires OnePerContract(batch) && i < |batch|
    ensures batch[i].intent.contract in Requested(batch)
    ensures Requested(batch)[batch[i].intent.contract] == batch[i].intent.previous
  {
    var n := |batch| - 1;
    assert batch[i] in batch && batch[n] in batch;
    if batch[i].intent.contract != batch[n].intent.contract {
      assert OnePerContract(batch[..n]);
      RequestedAt(batch[..n], i);
    }
  }

  function Contracts(batch: seq<Candidate>): (r: seq<string>)
    ensures |r| == |batch| && forall i | 0 <= i < |r| :: r[i] == batch[i].intent.contract
  {
    seq(|batch|, i requires 0 <= i < |batch| => batch[i].intent.contract)
  }

  lemma RowVerdict(s: State, c: Candidate, mode: Mode, report: Report)
    requires Sound(s) && Tells(report, Publish(s, c, mode).verdict)
    ensures RowFits(RowOf(c, report), c.intent.previous, c.intent.worker, c.intent.reason)
       <==> c.key != "" && !(report.Rejected? && report.relayPending)
    ensures RowOf(c, report).contract == c.intent.contract
    ensures RowOf(c, report).result.OkAccepted? <==> report.Accepted?
  {
    var verdict := Publish(s, c, mode).verdict;
    hide Publish, Sound;
    if verdict.Done? {
      DoneFact(s, c, mode);
      RowsOfFact(c, verdict.fact);
    }
  }

  lemma RowsOfFact(c: Candidate, f: Id)
    requires f.Record? && f.body == Assigned(c, c.intent.contract, c.intent.previous, c.intent.reason, c.intent.worker)
    ensures RowFits(RowOf(c, Report.Accepted(f)), c.intent.previous, c.intent.worker, c.intent.reason) <==> c.key != ""
    ensures RowFits(RowOf(c, Pending(f)), c.intent.previous, c.intent.worker, c.intent.reason) <==> c.key != ""
  {
  }

  lemma {:induction false} AllAccepted(rows: seq<Row>)
    ensures Tally(rows, OkAccepted) == |rows| <==> forall i | 0 <= i < |rows| :: rows[i].result.OkAccepted?
  {
    if rows != [] {
      AllAccepted(rows[..|rows| - 1]);
      forall i | 0 <= i < |rows| - 1 ensures rows[..|rows| - 1][i] == rows[i] {
      }
    }
  }

  // Whatever the links do, the check accepts the result of a batch exactly when no target was
  // durably rejected with the relay pending: such a row carries the rejection's fact, which the
  // check takes for fabricated. The base and the keys must not be empty, and the expected success
  // flag must be that every target was accepted.
  lemma BatchVerdict(
    w: World, base: string, batch: seq<Candidate>, mode: Mode, links: seq<Links>, worker: string, reason: string,
    success: bool)
    requires Healthy(w) && |links| == |batch| && OnePerContract(batch)
    requires forall c | c in batch :: c.intent.worker == worker && c.intent.reason == reason
    ensures var reports := Through(w, batch, mode, links).reports;
            BatchFits(Summary(base, Rows(batch, reports)), Contracts(batch), Requested(batch), worker, reason, Some(base),
                      success)
            <==> base != "" && (forall i | 0 <= i < |batch| :: batch[i].key != "")
                 && (forall i | 0 <= i < |batch| :: !(reports[i].Rejected? && reports[i].relayPending))
                 && (success <==> forall i | 0 <= i < |batch| :: reports[i].Accepted?)
  {
    BatchPublishes(w, batch, mode, links);
    var reports := Through(w, batch, mode, links).reports;
    var rows := Rows(batch, reports);
    hide Through, Publish, RowOf, RowFits, Tells, Requested, PublishAll, Tried;
    forall i | 0 <= i < |batch|
      ensures rows[i].contract == batch[i].intent.contract && (rows[i].result.OkAccepted? <==> reports[i].Accepted?)
      ensures batch[i].intent.contract in Requested(batch)
      ensures RowFits(rows[i], Requested(batch)[batch[i].intent.contract], worker, reason)
         <==> batch[i].key != "" && !(reports[i].Rejected? && reports[i].relayPending)
    {
      assert batch[i] in batch;
      RowVerdict(w.store, batch[i], mode, reports[i]);
      RequestedAt(batch, i);
    }
    AllAccepted(rows);
    BatchFitsRows(base, rows, batch, worker, reason, success);
  }

  lemma BatchFitsRows(
    base: string, rows: seq<Row>, batch: seq<Candidate>, worker: string, reason: string, success: bool)
    requires |rows| == |batch| && forall i | 0 <= i < |batch| :: rows[i].contract == batch[i].intent.contract
    requires forall i | 0 <= i < |batch| :: batch[i].intent.contract in Requested(batch)
    ensures BatchFits(Summary(base, rows), Contracts(batch), Requested(batch), worker, reason, Some(base), success)
       <==> base != ""
            && (forall i | 0 <= i < |batch| ::
                  RowFits(rows[i], Requested(batch)[batch[i].intent.contract], worker, reason))
            && (success <==> Tally(rows, OkAccepted) == |rows|)
  {
    RequestedKeys(batch);
    hide RowFits, Tally, Requested;
    assert Summary(base, rows).results == rows;
  }

  lemma RequestedKeys(batch: seq<Candidate>)
    ensures Requested(batch).Keys == (set c | c in Contracts(batch))
  {
    forall c ensures c in Requested(batch) <==> c in Contracts(batch) {
      if c in Requested(batch) {
        var i :| 0 <= i < |batch| && batch[i].intent.contract == c;
        assert Contracts(batch)[i] == c;
      }
    }
  }

  // ------------------------------------------------------------------ the pending projection

  datatype Item = Item(record: Id, candidate: Candidate, worker: string, previous: Id, reason: string)

  // What `task assignments` shows for one contract.
  datatype View = View(head: Option<Id>, worker: Option<string>, history: seq<Item>)

  function ItemOf(f: Id): Item
    requires f.Record? && f.body.Assigned?
  {
    Item(f, f.body.candidate, f.body.worker, f.body.previous, f.body.reason)
  }

  function Items(h: seq<Id>): (r: seq<Item>)
    requires forall f | f in h :: f.Record? && f.body.Assigned?
    ensures |r| == |h| && forall i | 0 <= i < |h| :: h[i] in h && r[i] == ItemOf(h[i])
  {
    seq(|h|, i requires 0 <= i < |h| => assert h[i] in h; ItemOf(h[i]))
  }

  function Effective(worker: string): Option<string> {
    if worker == "" then None else Some(worker)
  }

  // task_assignment_records
  function ViewOf(log: seq<Id>, contract: string): View {
    var h := History(log, contract);
    View(if h == [] then None else Some(Head(log, contract)), Effective(CurrentWorker(log, contract)), Items(h))
  }

  predicate Seeded(was: View) {
    && was.history != []
    && var last := was.history[|was.history| - 1];
       was.head == Some(last.record) && was.worker == Effective(last.worker)
  }

  predicate Appended(was: View, now: View, contract: string, first: string, accepted: Item) {
    && |now.history| == |was.history| + 1 && now.history[..|was.history|] == was.history
    && contract == first
    && was.head == Some(accepted.previous) && now.head == Some(accepted.record) && now.worker == Some(accepted.worker)
    && now.history[|was.history|] == accepted
  }

  predicate PendingFits(
    before: map<string, View>, after: map<string, View>, contracts: seq<string>, first: string, contract: string,
    accepted: Item)
  {
    && before.Keys == (set c | c in contracts) && after.Keys == (set c | c in contracts)
    && first in contracts
    && forall c | c in contracts :: c in before && c in after && OneFits(before[c], after[c], c, first, contract, accepted)
  }

  predicate OneFits(was: View, now: View, c: string, first: string, contract: string, accepted: Item) {
    Seeded(was) && if c != first then now == was else Appended(was, now, contract, first, accepted)
  }

  // Of any two views, the check takes the earlier for seeded exactly when its last item gives its head
  // and worker, and the later for the accepted change exactly when it is the earlier with that one
  // item more, as head and worker too, in place of the head the change replaces.
  lemma ViewForms(was: View, now: View, contract: string, first: string, accepted: Item)
    ensures Seeded(was)
       <==> was.history != []
            && var last := was.history[|was.history| - 1];
               was == View(Some(last.record), if last.worker == "" then None else Some(last.worker), was.history)
    ensures Appended(was, now, contract, first, accepted)
       <==> contract == first && was.head == Some(accepted.previous)
            && now == View(Some(accepted.record), Some(accepted.worker), was.history + [accepted])
  {
    if Appended(was, now, contract, first, accepted) {
      assert now.history == now.history[..|was.history|] + [now.history[|was.history|]];
    }
  }

  // _assert_pending_projection; contract is the one the accepted data names.
  method AssertPendingProjection(
    before: map<string, View>, after: map<string, View>, contracts: seq<string>, first: string, contract: string,
    accepted: Item)
    returns (fits: bool)
    ensures fits <==> PendingFits(before, after, contracts, first, contract, accepted)
  {
    if before.Keys != (set c | c in contracts) || after.Keys != (set c | c in contracts) {
      return false;
    }
    if first !in contracts {
      return false;
    }
    for i := 0 to |contracts|
      invariant forall k | 0 <= k < i ::
        contracts[k] in before && contracts[k] in after
        && OneFits(before[contracts[k]], after[contracts[k]], contracts[k], first, contract, accepted)
    {
      var c := contracts[i];
      assert c in before.Keys && c in after.Keys;
      var was, now := before[c], after[c];
      if !Seeded(was) {
        return false;
      }
      if c != first {
        if now != was {
          return false;
        }
        continue;
      }
      if !Appended(was, now, contract, first, accepted) {
        return false;
      }
    }
    return true;
  }

  // The views of some contracts.
  function Views(log: seq<Id>, contracts: seq<string>): map<string, View> {
    map c | c in contracts :: ViewOf(log, c)
  }

  // Between two ledgers whose selected histories are non-empty chains, the check accepts exactly
  // when the accepted fact sets a worker, was appended to the first contract's history, and no
  // other selected history changed. A clear never passes: it shows no worker where its data say
  // an empty one.
  lemma PendingVerdict(s: State, t: State, contracts: seq<string>, first: string, f: Id)
    requires Sound(s) && Sound(t) && first in contracts && f.Record? && f.body.Assigned?
    requires forall c | c in contracts :: History(s.log, c) != []
    ensures PendingFits(Views(s.log, contracts), Views(t.log, contracts), contracts, first, f.body.contract, ItemOf(f))
       <==> f.body.worker != "" && f.body.contract == first
            && History(t.log, first) == History(s.log, first) + [f]
            && forall c | c in contracts && c != first :: History(t.log, c) == History(s.log, c)
  {
    hide Sound, History, ViewOf, OneFits, ItemOf;
    forall c | c in contracts
      ensures OneFits(ViewOf(s.log, c), ViewOf(t.log, c), c, first, f.body.contract, ItemOf(f))
         <==> if c != first then History(t.log, c) == History(s.log, c)
              else f.body.worker != "" && f.body.contract == first && History(t.log, c) == History(s.log, c) + [f]
    {
      OneVerdict(s, t, c, first, f);
    }
  }

  lemma OneVerdict(s: State, t: State, c: string, first: string, f: Id)
    requires Sound(s) && Sound(t) && f.Record? && f.body.Assigned? && History(s.log, c) != []
    ensures OneFits(ViewOf(s.log, c), ViewOf(t.log, c), c, first, f.body.contract, ItemOf(f))
       <==> if c != first then History(t.log, c) == History(s.log, c)
            else f.body.worker != "" && f.body.contract == first && History(t.log, c) == History(s.log, c) + [f]
  {
    assert Chain(History(t.log, c));
    hide Sound, History, Chain, Seeded, Appended;
    SeededView(s.log, c);
    if c != first {
      ViewTells(s.log, t.log, c);
    } else {
      AppendedVerdict(s, t, c, f);
    }
  }

  lemma SeededView(log: seq<Id>, c: string)
    requires History(log, c) != []
    ensures Seeded(ViewOf(log, c))
  {
    hide History;
    var h := History(log, c);
    assert h[|h| - 1] in h;
  }

  lemma ViewTells(a: seq<Id>, b: seq<Id>, c: string)
    ensures ViewOf(b, c) == ViewOf(a, c) <==> History(b, c) == History(a, c)
  {
    if ViewOf(b, c) == ViewOf(a, c) {
      ItemsTell(History(a, c), History(b, c));
    }
  }

  lemma ItemsTell(a: seq<Id>, b: seq<Id>)
    requires forall f | f in a :: f.Record? && f.body.Assigned?
    requires forall f | f in b :: f.Record? && f.body.Assigned?
    requires Items(a) == Items(b)
    ensures a == b
  {
    forall i | 0 <= i < |a| ensures a[i] == b[i] {
      assert Items(a)[i] == Items(b)[i];
    }
  }

  lemma AppendedVerdict(s: State, t: State, c: string, f: Id)
    requires f.Record? && f.body.Assigned? && History(s.log, c) != [] && Chain(History(t.log, c))
    ensures Appended(ViewOf(s.log, c), ViewOf(t.log, c), f.body.contract, c, ItemOf(f))
       <==> f.body.worker != "" && f.body.contract == c && History(t.log, c) == History(s.log, c) + [f]
  {
    var was, now := History(s.log, c), History(t.log, c);
    hide History, Chain, Appended;
    LastOf(s.log, c);
    LastOf(t.log, c);
    if now == was + [f] {
      AppendedWhen(was, now, ViewOf(s.log, c), ViewOf(t.log, c), c, f);
    }
    if Appended(ViewOf(s.log, c), ViewOf(t.log, c), f.body.contract, c, ItemOf(f)) {
      AppendedOnly(was, now, ViewOf(s.log, c), ViewOf(t.log, c), c, f);
    }
  }

  // A view shows a history: its last fact as the head, that fact's worker, and every fact.
  predicate Displays(v: View, h: seq<Id>)
    requires forall f | f in h :: f.Record? && f.body.Assigned?
  {
    && v.history == Items(h)
    && (h != [] ==> v.head == Some(h[|h| - 1]) && h[|h| - 1] in h && v.worker == Effective(h[|h| - 1].body.worker))
  }

  lemma LastOf(log: seq<Id>, c: string)
    ensures Displays(ViewOf(log, c), History(log, c))
  {
    hide History;
    var h := History(log, c);
    if h != [] {
      assert h[|h| - 1] in h;
    }
  }

  lemma AppendedWhen(was: seq<Id>, now: seq<Id>, before: View, after: View, c: string, f: Id)
    requires f.Record? && f.body.Assigned? && was != [] && now == was + [f] && Chain(now)
    requires forall g | g in was :: g.Record? && g.body.Assigned?
    requires forall g | g in now :: g.Record? && g.body.Assigned?
    requires Displays(before, was) && Displays(after, now)
    ensures Appended(before, after, f.body.contract, c, ItemOf(f)) <==> f.body.worker != "" && f.body.contract == c
  {
    hide Chain;
    LinkedLast(was, f);
    ItemsFront(was, now);
    assert now[..|was|] == was;
  }

  lemma AppendedOnly(was: seq<Id>, now: seq<Id>, before: View, after: View, c: string, f: Id)
    requires f.Record? && f.body.Assigned? && was != []
    requires forall g | g in was :: g.Record? && g.body.Assigned?
    requires forall g | g in now :: g.Record? && g.body.Assigned?
    requires Displays(before, was) && Displays(after, now)
    requires Appended(before, after, f.body.contract, c, ItemOf(f))
    ensures now == was + [f] && f.body.worker != "" && f.body.contract == c
  {
    ItemsFront(was, now);
    assert now[|was|] in now;
  }

  lemma LinkedLast(h: seq<Id>, f: Id)
    requires h != [] && Chain(h + [f])
    ensures f.Record? && f.body.Assigned? && f.body.previous == h[|h| - 1]
  {
    assert Linked(h + [f], |h|);
  }

  // Histories with the same first items have the same first facts.
  lemma ItemsFront(was: seq<Id>, now: seq<Id>)
    requires forall f | f in was :: f.Record? && f.body.Assigned?
    requires forall f | f in now :: f.Record? && f.body.Assigned?
    ensures |was| <= |now| ==> (Items(now)[..|was|] == Items(was) <==> now[..|was|] == was)
  {
    if |was| <= |now| {
      forall i | 0 <= i < |was| ensures Items(now)[..|was|][i] == Items(was)[i] <==> now[..|was|][i] == was[i] {
        assert was[i] in was && now[i] in now;
      }
    }
  }
}
