// Listings read page by page: a cursor fixes the watermark and the last row shown, and the pages
// together are the one full listing at that watermark, whatever is written in between.

module Paging {
  import opened Wrappers
  import opened Sorting

  datatype Entry = Entry(revision: nat, record: string)
  datatype Row = Row(revision: nat, record: string, shown: string)

  // Diagnostic events run forward; runs and attachments start with the latest.
  datatype Order = Forward | LatestRun | Latest

  // What a cursor was issued for; it serves no other listing.
  datatype Scope = Scope(command: string, domain: string, contract: string, claim: Option<string>, limit: nat, order: Order)

  datatype Key = Key(revision: nat, record: string)

  datatype Cursor = Cursor(scope: Scope, watermark: nat, boundary: Key, observed: nat)

  datatype Problem = ScopeMismatch | InvalidCursor | BoundaryMissing

  datatype Listing = Listing(rows: seq<Row>, next: Option<Cursor>, watermark: nat, truncated: bool)

  function KeyOf(row: Row): Key {
    Key(row.revision, row.record)
  }

  predicate Leq(order: Order, a: Key, b: Key) {
    match order
    case Forward => a.revision < b.revision || (a.revision == b.revision && TextLeq(a.record, b.record))
    case LatestRun => b.revision < a.revision || (a.revision == b.revision && TextLeq(a.record, b.record))
    case Latest => b.revision < a.revision || (a.revision == b.revision && TextLeq(b.record, a.record))
  }

  function RowLeq(order: Order): (Row, Row) -> bool {
    (a: Row, b: Row) => Leq(order, KeyOf(a), KeyOf(b))
  }

  predicate Rising(log: seq<Entry>) {
    forall i, j | 0 <= i < j < |log| :: log[i].revision < log[j].revision
  }

  function Upto(log: seq<Entry>, watermark: nat): seq<Entry> {
    if log == [] then []
    else
      var n := |log| - 1;
      Upto(log[..n], watermark) + if log[n].revision <= watermark then [log[n]] else []
  }

  function Revision(log: seq<Entry>): nat {
    if log == [] then 0 else log[|log| - 1].revision
  }

  // The rows strictly after a boundary.
  function After(order: Order, rows: seq<Row>, boundary: Key): seq<Row> {
    if rows == [] then []
    else
      var rest := After(order, rows[1..], boundary);
      if Leq(order, KeyOf(rows[0]), boundary) then rest else [rows[0]] + rest
  }

  function Take(rows: seq<Row>, limit: nat): (r: seq<Row>)
    ensures |r| <= |rows|
  {
    if |rows| <= limit then rows else rows[..limit]
  }

  // _paginate
  function Paginate(rows: seq<Row>, scope: Scope, boundary: Option<Key>, watermark: nat, observed: nat)
    : Result<Listing, Problem>
  {
    var ordered := Sorted(RowLeq(scope.order), rows);
    if boundary.Some? && forall row | row in rows :: KeyOf(row) != boundary.value then
      Err(if scope.order.Latest? then InvalidCursor else BoundaryMissing)
    else
      var remaining := if boundary.None? then ordered else After(scope.order, ordered, boundary.value);
      var page := Take(remaining, scope.limit);
      var more := |remaining| > |page|;
      Ok(Listing(page,
                 if more && page != [] then Some(Cursor(scope, watermark, KeyOf(page[|page| - 1]), observed)) else None,
                 watermark, more))
  }

  // Which records of a view a listing shows, and what it says of each at some time: a run per
  // grant of the contract, an event per record of the claim, an attachment per link. What is said
  // may depend on the whole view.
  type Selection = (seq<Entry>, Entry, nat) -> Option<string>

  function RowsFrom(view: seq<Entry>, entries: seq<Entry>, select: Selection, now: nat): seq<Row> {
    if entries == [] then []
    else
      var n := |entries| - 1;
      RowsFrom(view, entries[..n], select, now)
      + match select(view, entries[n], now)
        case None => []
        case Some(shown) => [Row(entries[n].revision, entries[n].record, shown)]
  }

  // The unordered listing of a view
  function Listed(select: Selection): (seq<Entry>, nat) -> seq<Row> {
    (view: seq<Entry>, now: nat) => RowsFrom(view, view, select, now)
  }

  // task_runs, task_diagnostics and task_attachment_list, given how a listing is built from the log
  // through the watermark.
  function Query(log: seq<Entry>, build: (seq<Entry>, nat) -> seq<Row>, scope: Scope, cursor: Option<Cursor>, now: nat)
    : Result<Listing, Problem>
  {
    if cursor.None? then
      Paginate(build(Upto(log, Revision(log)), now), scope, None, Revision(log), now)
    else
      var c := cursor.value;
      if c.scope != scope then Err(ScopeMismatch)
      else if c.watermark > Revision(log) then Err(InvalidCursor)
      else Paginate(build(Upto(log, c.watermark), c.observed), scope, Some(c.boundary), c.watermark, c.observed)
  }

  // ------------------------------------------------------------------ order

  lemma LeqTotal(order: Order)
    ensures TotalOrder(RowLeq(order))
  {
    TextOrder();
    forall x: Row, y: Row ensures RowLeq(order)(x, y) || RowLeq(order)(y, x) {
      TextLeqTotal(x.record, y.record);
    }
    forall x: Row, y: Row, z: Row | RowLeq(order)(x, y) && RowLeq(order)(y, z) ensures RowLeq(order)(x, z) {
      assert Leq(order, KeyOf(x), KeyOf(y)) && Leq(order, KeyOf(y), KeyOf(z));
      if x.revision == y.revision && y.revision == z.revision {
        if order.Latest? {
          TextLeqTransitive(z.record, y.record, x.record);
        } else {
          TextLeqTransitive(x.record, y.record, z.record);
        }
      }
    }
  }

  lemma LeqBoth(order: Order, a: Key, b: Key)
    requires Leq(order, a, b) && Leq(order, b, a)
    ensures a == b
  {
    TextLeqTotal(a.record, b.record);
  }

  predicate DistinctKeys(rows: seq<Row>) {
    forall i, j | 0 <= i < j < |rows| :: KeyOf(rows[i]) != KeyOf(rows[j])
  }

  // The one full listing.
  function Full(order: Order, rows: seq<Row>): (r: seq<Row>)
    ensures |r| == |rows|
  {
    Sorted(RowLeq(order), rows)
  }

  lemma FullOrdered(order: Order, rows: seq<Row>)
    requires DistinctKeys(rows)
    ensures forall i, j | 0 <= i < j < |rows| ::
              Leq(order, KeyOf(Full(order, rows)[i]), KeyOf(Full(order, rows)[j]))
              && KeyOf(Full(order, rows)[i]) != KeyOf(Full(order, rows)[j])
    ensures forall row :: row in Full(order, rows) <==> row in rows
  {
    var full := Full(order, rows);
    LeqTotal(order);
    SortedAscends(RowLeq(order), rows);
    MapPermutes(KeyOf, rows, full);
    DistinctPermutes(Map(KeyOf, rows), Map(KeyOf, full));
    forall row ensures row in full <==> row in rows {
      assert row in multiset(full) <==> row in multiset(rows);
    }
    forall i, j | 0 <= i < j < |full|
      ensures Leq(order, KeyOf(full[i]), KeyOf(full[j])) && KeyOf(full[i]) != KeyOf(full[j])
    {
      assert RowLeq(order)(full[i], full[j]);
      assert Map(KeyOf, full)[i] != Map(KeyOf, full)[j];
    }
  }

  // Going on after the k-th row of a strictly ordered listing leaves exactly the later ones.
  lemma {:induction false} AfterRest(order: Order, full: seq<Row>, k: nat, boundary: Key)
    requires forall i, j | 0 <= i < j < |full| ::
               Leq(order, KeyOf(full[i]), KeyOf(full[j])) && KeyOf(full[i]) != KeyOf(full[j])
    requires k <= |full| && forall i | 0 <= i < |full| :: Leq(order, KeyOf(full[i]), boundary) <==> i < k
    ensures After(order, full, boundary) == full[k..]
  {
    if full != [] {
      AfterRest(order, full[1..], if k == 0 then 0 else k - 1, boundary);
      if k > 0 {
        assert full[1..][k - 1..] == full[k..];
      } else {
        assert full[..][0..] == [full[0]] + full[1..];
      }
    }
  }

  // ------------------------------------------------------------------ growing logs

  lemma {:induction false} UptoWhole(log: seq<Entry>, watermark: nat)
    requires forall e | e in log :: e.revision <= watermark
    ensures Upto(log, watermark) == log
  {
    if log != [] {
      var n := |log| - 1;
      assert log == log[..n] + [log[n]] && log[n] in log;
      UptoWhole(log[..n], watermark);
    }
  }

  // Later entries are above an earlier watermark.
  lemma {:induction false} UptoEarlier(log: seq<Entry>, later: seq<Entry>)
    requires Rising(later) && log <= later
    ensures Upto(later, Revision(log)) == if log == [] then Upto(later, 0) else log
    decreases |later|
  {
    if log != [] {
      if |log| == |later| {
        assert log == later;
        forall e | e in log ensures e.revision <= Revision(log) {
          var i :| 0 <= i < |log| && log[i] == e;
        }
        UptoWhole(log, Revision(log));
      } else {
        var n := |later| - 1;
        UptoEarlier(log, later[..n]);
        assert later[|log| - 1] == log[|log| - 1];
      }
    }
  }

  ghost predicate Grows(at: nat -> seq<Entry>) {
    && (forall n: nat :: Rising(at(n)) && forall e | e in at(n) :: e.revision > 0)
    && (forall n: nat, m: nat | n <= m :: at(n) <= at(m))
  }

  // The log as it was when the first page was read.
  lemma SameView(at: nat -> seq<Entry>, n: nat)
    requires Grows(at)
    ensures Upto(at(n), Revision(at(0))) == at(0) && Revision(at(0)) <= Revision(at(n))
  {
    UptoEarlier(at(0), at(n));
    if at(0) == [] {
      UptoNone(at(n));
    } else {
      assert at(n)[|at(0)| - 1] == at(0)[|at(0)| - 1];
    }
  }

  lemma {:induction false} UptoNone(log: seq<Entry>)
    requires forall e | e in log :: e.revision > 0
    ensures Upto(log, 0) == []
  {
    if log != [] {
      UptoNone(log[..|log| - 1]);
    }
  }

  // ------------------------------------------------------------------ pages

  // The page that starts at row k of the full listing, and the cursor that leads there.
  function PageAt(full: seq<Row>, scope: Scope, watermark: nat, observed: nat, k: nat): Listing
    requires k <= |full|
  {
    var end := if k + scope.limit < |full| then k + scope.limit else |full|;
    Listing(full[k..end],
            if end < |full| && k < end then Some(Cursor(scope, watermark, KeyOf(full[end - 1]), observed)) else None,
            watermark, end < |full|)
  }

  lemma PaginateAt(rows: seq<Row>, scope: Scope, watermark: nat, observed: nat, k: nat, boundary: Option<Key>)
    requires DistinctKeys(rows) && k <= |rows|
    requires if k == 0 then boundary == None else boundary == Some(KeyOf(Full(scope.order, rows)[k - 1]))
    ensures Paginate(rows, scope, boundary, watermark, observed)
         == Ok(PageAt(Full(scope.order, rows), scope, watermark, observed, k))
  {
    hide Sorted, After, Take, DistinctKeys;
    var full := Full(scope.order, rows);
    if k == 0 {
      assert full[0..] == full;
    } else {
      Remaining(rows, scope.order, k);
    }
    TakeAt(full, k, scope.limit);
  }

  lemma TakeAt(full: seq<Row>, k: nat, limit: nat)
    requires k <= |full|
    ensures var end := if k + limit < |full| then k + limit else |full|;
            Take(full[k..], limit) == full[k..end] && (k < end ==> full[k..end][end - k - 1] == full[end - 1])
  {
  }

  lemma Remaining(rows: seq<Row>, order: Order, k: nat)
    requires DistinctKeys(rows) && 0 < k <= |rows|
    ensures var boundary := KeyOf(Full(order, rows)[k - 1]);
            && After(order, Full(order, rows), boundary) == Full(order, rows)[k..]
            && exists row :: row in rows && KeyOf(row) == boundary
  {
    var full := Full(order, rows);
    FullOrdered(order, rows);
    assert full[k - 1] in full && full[k - 1] in rows;
    var boundary := KeyOf(full[k - 1]);
    forall i | 0 <= i < |full| ensures Leq(order, KeyOf(full[i]), boundary) <==> i < k {
      if i >= k && Leq(order, KeyOf(full[i]), boundary) {
        LeqBoth(order, KeyOf(full[i]), boundary);
      }
      TextLeqTotal(full[i].record, full[i].record);
    }
    AfterRest(order, full, k, boundary);
  }

  // Where the cursor after row k leads, at any later time.
  lemma BuiltAt(at: nat -> seq<Entry>, build: (seq<Entry>, nat) -> seq<Row>, scope: Scope, now: nat, n: nat, later: nat, k: nat,
                cursor: Option<Cursor>)
    requires Grows(at) && DistinctKeys(build(at(0), now)) && k <= |build(at(0), now)| && (k == 0 ==> n == 0 && later == now)
    requires cursor == if k == 0 then None else
                         Some(Cursor(scope, Revision(at(0)), KeyOf(Full(scope.order, build(at(0), now))[k - 1]), now))
    ensures Query(at(n), build, scope, cursor, later)
         == Ok(PageAt(Full(scope.order, build(at(0), now)), scope, Revision(at(0)), now, k))
  {
    SameView(at, n);
    hide Paginate, PageAt, Full, Upto, Grows, DistinctKeys, Revision;
    PaginateAt(build(at(0), now), scope, Revision(at(0)), now, k, if k == 0 then None else Some(cursor.value.boundary));
  }

  // What has been read so far is the front of the full listing, and the cursor stands at its end.
  predicate Read(full: seq<Row>, rows: seq<Row>, cursor: Option<Cursor>, scope: Scope, watermark: nat, now: nat) {
    && rows <= full
    && if |rows| == |full| then cursor == None
       else rows != [] && cursor == Some(Cursor(scope, watermark, KeyOf(rows[|rows| - 1]), now))
  }

  lemma ReadOn(full: seq<Row>, rows: seq<Row>, scope: Scope, watermark: nat, now: nat)
    requires rows <= full && scope.limit >= 1
    ensures var page := PageAt(full, scope, watermark, now, |rows|);
            && Read(full, rows + page.rows, page.next, scope, watermark, now)
            && (|rows| < |full| ==> |rows + page.rows| > |rows|)
  {
    var page := PageAt(full, scope, watermark, now, |rows|);
    var end := if |rows| + scope.limit < |full| then |rows| + scope.limit else |full|;
    assert rows + page.rows == full[..end];
  }

  lemma ReadAt(full: seq<Row>, rows: seq<Row>, cursor: Option<Cursor>, scope: Scope, watermark: nat, now: nat)
    requires Read(full, rows, cursor, scope, watermark, now)
    ensures rows <= full
    ensures cursor.None? ==> rows == full
    ensures cursor.Some? ==> 0 < |rows| < |full| && cursor == Some(Cursor(scope, watermark, KeyOf(full[|rows| - 1]), now))
  {
  }

  // Growing logs, and a listing that shows no key twice.
  ghost predicate Listable(at: nat -> seq<Entry>, build: (seq<Entry>, nat) -> seq<Row>, now: nat) {
    Grows(at) && DistinctKeys(build(at(0), now))
  }

  // The row that is shown for an entry
  predicate Shows(view: seq<Entry>, select: Selection, now: nat, row: Row, e: Entry) {
    select(view, e, now) == Some(row.shown) && row.revision == e.revision && row.record == e.record
  }

  lemma {:induction false} RowsShow(view: seq<Entry>, entries: seq<Entry>, select: Selection, now: nat)
    ensures forall row | row in RowsFrom(view, entries, select, now) ::
              exists e :: e in entries && Shows(view, select, now, row, e)
  {
    if entries != [] {
      var n := |entries| - 1;
      var front, last := entries[..n], entries[n];
      assert entries == front + [last];
      RowsShow(view, front, select, now);
      forall row | row in RowsFrom(view, entries, select, now)
        ensures exists e :: e in entries && Shows(view, select, now, row, e)
      {
        if row in RowsFrom(view, front, select, now) {
          var e :| e in front && Shows(view, select, now, row, e);
          assert e in entries;
        } else {
          assert last in entries && Shows(view, select, now, row, last);
        }
      }
    }
  }

  lemma {:induction false} RowsWhole(view: seq<Entry>, entries: seq<Entry>, select: Selection, now: nat)
    ensures forall e | e in entries && select(view, e, now).Some? ::
              Row(e.revision, e.record, select(view, e, now).value) in RowsFrom(view, entries, select, now)
  {
    if entries != [] {
      var n := |entries| - 1;
      assert entries == entries[..n] + [entries[n]];
      RowsWhole(view, entries[..n], select, now);
    }
  }

  // At most one row for each record, at the record's own revision.
  lemma {:induction false} RowsApart(view: seq<Entry>, entries: seq<Entry>, select: Selection, now: nat)
    requires Rising(entries)
    ensures DistinctKeys(RowsFrom(view, entries, select, now))
  {
    if entries != [] {
      var n := |entries| - 1;
      RowsApart(view, entries[..n], select, now);
      RowsBelow(view, entries, select, now);
    }
  }

  lemma RowsBelow(view: seq<Entry>, entries: seq<Entry>, select: Selection, now: nat)
    requires Rising(entries) && entries != []
    ensures var n := |entries| - 1;
            forall row | row in RowsFrom(view, entries[..n], select, now) :: row.revision < entries[n].revision
  {
    var n := |entries| - 1;
    RowsShow(view, entries[..n], select, now);
    forall row | row in RowsFrom(view, entries[..n], select, now) ensures row.revision < entries[n].revision {
      var e :| e in entries[..n] && Shows(view, select, now, row, e);
      var i :| 0 <= i < n && entries[..n][i] == e;
      assert entries[i] == e;
    }
  }

  // A growing log never lists a key twice.
  lemma GrowsListable(at: nat -> seq<Entry>, select: Selection, now: nat)
    requires Grows(at)
    ensures Listable(at, Listed(select), now)
  {
    RowsApart(at(0), at(0), select, now);
  }

  // So the cursor after row k of the first listing, used on any later log, leads to the page that
  // starts there; and no cursor to the first page.
  lemma QueryAt(at: nat -> seq<Entry>, select: Selection, scope: Scope, now: nat, n: nat, later: nat, k: nat,
                cursor: Option<Cursor>)
    requires Grows(at) && k <= |RowsFrom(at(0), at(0), select, now)| && (k == 0 ==> n == 0 && later == now)
    requires cursor == if k == 0 then None else
                         Some(Cursor(scope, Revision(at(0)),
                                     KeyOf(Full(scope.order, RowsFrom(at(0), at(0), select, now))[k - 1]), now))
    ensures Query(at(n), Listed(select), scope, cursor, later)
         == Ok(PageAt(Full(scope.order, RowsFrom(at(0), at(0), select, now)), scope, Revision(at(0)), now, k))
  {
    GrowsListable(at, select, now);
    hide Query, Full, Revision, Grows, DistinctKeys, PageAt, RowsFrom;
    BuiltAt(at, Listed(select), scope, now, n, later, k, cursor);
  }

  // One request, at a time when the log has grown to at(n), and what is then in hand.
  method Ask(at: nat -> seq<Entry>, build: (seq<Entry>, nat) -> seq<Row>, scope: Scope, now: nat, n: nat, later: nat,
             rows: seq<Row>, cursor: Option<Cursor>, ghost full: seq<Row>)
    returns (more: seq<Row>, next: Option<Cursor>)
    requires Listable(at, build, now) && full == Full(scope.order, build(at(0), now)) && scope.limit >= 1
    requires if rows == [] then cursor.None? && n == 0 && later == now
             else cursor.Some? && Read(full, rows, cursor, scope, Revision(at(0)), now)
    ensures Read(full, more, next, scope, Revision(at(0)), now)
    ensures rows <= more <= full && (|rows| < |full| ==> |rows| < |more|)
  {
    hide Query, Full, Revision, Grows, DistinctKeys, PageAt, Upto;
    BuiltAt(at, build, scope, now, n, later, |rows|, cursor);
    var page := Query(at(n), build, scope, cursor, later).value;
    ReadOn(full, rows, scope, Revision(at(0)), now);
    more, next := rows + page.rows, page.next;
  }

  // The cursor loop: ask, append, follow the cursor until there is none. The n-th request finds
  // the log at(n), which may have grown since.
  method Follow(at: nat -> seq<Entry>, select: Selection, scope: Scope, now: nat) returns (rows: seq<Row>)
    requires Grows(at) && scope.limit >= 1
    ensures rows == Full(scope.order, RowsFrom(at(0), at(0), select, now))
  {
    GrowsListable(at, select, now);
    var build := Listed(select);
    ghost var full := Full(scope.order, build(at(0), now));
    ghost var watermark := Revision(at(0));
    hide Full, Revision, Listable, Read;
    var cursor;
    rows, cursor := Ask(at, build, scope, now, 0, now, [], None, full);
    var requests := 1;
    ReadAt(full, rows, cursor, scope, watermark, now);
    while cursor.Some?
      invariant Read(full, rows, cursor, scope, watermark, now) && (cursor.Some? ==> 0 < |rows| < |full|)
      decreases |full| - |rows|
    {
      rows, cursor := Ask(at, build, scope, now, requests, now + requests, rows, cursor, full);
      requests := requests + 1;
      ReadAt(full, rows, cursor, scope, watermark, now);
    }
    ReadAt(full, rows, cursor, scope, watermark, now);
  }

  // What it collects: the selected records of the log as the first request found it, each once,
  // in order.
  lemma FollowedWhole(at: nat -> seq<Entry>, select: Selection, order: Order, now: nat)
    requires Grows(at)
    ensures var full, view := Full(order, RowsFrom(at(0), at(0), select, now)), at(0);
            && (forall i, j | 0 <= i < j < |full| ::
                  Leq(order, KeyOf(full[i]), KeyOf(full[j])) && KeyOf(full[i]) != KeyOf(full[j]))
            && (forall e | e in view && select(view, e, now).Some? ::
                  Row(e.revision, e.record, select(view, e, now).value) in full)
            && forall row | row in full ::
                 exists e :: e in view && Shows(view, select, now, row, e)
  {
    RowsApart(at(0), at(0), select, now);
    RowsShow(at(0), at(0), select, now);
    RowsWhole(at(0), at(0), select, now);
    hide Full, RowsFrom, Leq, DistinctKeys;
    FullOrdered(order, RowsFrom(at(0), at(0), select, now));
  }
}
