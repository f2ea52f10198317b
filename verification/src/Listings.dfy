// What a reader sees of a listing: which row stands before which, how many rows a page has, and
// which cursors are refused.

module Listings {
  import opened Wrappers
  import opened Sorting
  import opened Paging

  // Diagnostic events run from the lowest revision to the highest, and by record within one; runs
  // from the highest revision to the lowest, and by record within one; attachments from the highest
  // revision to the lowest, and within one from the last record to the first.
  ghost predicate Stands(order: Order, a: Row, b: Row) {
    match order
    case Forward => a.revision < b.revision || (a.revision == b.revision && Precedes(a.record, b.record))
    case LatestRun => a.revision > b.revision || (a.revision == b.revision && Precedes(a.record, b.record))
    case Latest => a.revision > b.revision || (a.revision == b.revision && Precedes(b.record, a.record))
  }

  lemma StandsExactly(order: Order, a: Row, b: Row)
    ensures Leq(order, KeyOf(a), KeyOf(b)) <==> KeyOf(a) == KeyOf(b) || Stands(order, a, b)
  {
    TextLeqExactly(a.record, b.record);
    TextLeqExactly(b.record, a.record);
    hide TextLeq, Precedes;
  }

  // A listing put in order by hand is the full listing.
  lemma OnlyListing(order: Order, rows: seq<Row>, listing: seq<Row>)
    requires DistinctKeys(rows) && multiset(listing) == multiset(rows)
    requires forall i, j | 0 <= i < j < |listing| :: Stands(order, listing[i], listing[j])
    ensures Full(order, rows) == listing
  {
    LeqTotal(order);
    SortedAscends(RowLeq(order), rows);
    hide Sorted, Stands, Leq;
    forall i, j | 0 <= i < j < |listing| ensures RowLeq(order)(listing[i], listing[j]) {
      StandsExactly(order, listing[i], listing[j]);
    }
    KeysTell(order, rows, listing);
    AscendingUnique(RowLeq(order), listing, Sorted(RowLeq(order), rows));
  }

  lemma KeysTell(order: Order, rows: seq<Row>, listing: seq<Row>)
    requires DistinctKeys(rows) && multiset(listing) == multiset(rows)
    ensures Strict(RowLeq(order), listing)
  {
    hide Leq;
    forall x, y | x in listing && y in listing && RowLeq(order)(x, y) && RowLeq(order)(y, x) ensures x == y {
      LeqBoth(order, KeyOf(x), KeyOf(y));
      assert x in multiset(rows) && y in multiset(rows);
      var i :| 0 <= i < |rows| && rows[i] == x;
      var j :| 0 <= j < |rows| && rows[j] == y;
    }
  }

  // The page a cursor after row k leads to, on any later log: the next rows of the first listing,
  // as many as the limit and no more than there are; a further cursor, after the last of them,
  // exactly when rows are left; and the first watermark and time of observation throughout.
  lemma PageExactly(at: nat -> seq<Entry>, select: Selection, scope: Scope, now: nat, n: nat, later: nat, k: nat,
                    listing: seq<Row>)
    requires Grows(at) && scope.limit >= 1 && (k == 0 ==> n == 0 && later == now)
    requires multiset(listing) == multiset(RowsFrom(at(0), at(0), select, now)) && k <= |listing|
    requires forall i, j | 0 <= i < j < |listing| :: Stands(scope.order, listing[i], listing[j])
    ensures var mark := if at(0) == [] then 0 else at(0)[|at(0)| - 1].revision;
            var here := if k == 0 then None else
                          Some(Cursor(scope, mark, Key(listing[k - 1].revision, listing[k - 1].record), now));
            var answer := Query(at(n), Listed(select), scope, here, later);
            && answer.Ok?
            && |answer.value.rows| == (if |listing| - k < scope.limit then |listing| - k else scope.limit)
            && answer.value.rows == listing[k..k + |answer.value.rows|]
            && answer.value.watermark == mark
            && (answer.value.truncated <==> k + |answer.value.rows| < |listing|)
            && answer.value.next == if !answer.value.truncated then None else
                 var last := listing[k + |answer.value.rows| - 1];
                 Some(Cursor(scope, mark, Key(last.revision, last.record), now))
  {
    hide Query, Full, RowsFrom, Grows, Stands;
    var rows := RowsFrom(at(0), at(0), select, now);
    Apart(at, select, now);
    OnlyListing(scope.order, rows, listing);
    assert |listing| == |multiset(listing)| == |multiset(rows)| == |rows|;
    var mark := if at(0) == [] then 0 else at(0)[|at(0)| - 1].revision;
    var here := if k == 0 then None else
                  Some(Cursor(scope, mark, Key(listing[k - 1].revision, listing[k - 1].record), now));
    QueryAt(at, select, scope, now, n, later, k, here);
  }

  lemma Apart(at: nat -> seq<Entry>, select: Selection, now: nat)
    requires Grows(at)
    ensures DistinctKeys(RowsFrom(at(0), at(0), select, now))
  {
    RowsApart(at(0), at(0), select, now);
  }

  // A cursor is refused exactly when it was issued for another listing, for a log that has grown
  // further than this one, or at a row the listing does not show.
  lemma CursorRefused(log: seq<Entry>, select: Selection, scope: Scope, c: Cursor, now: nat)
    ensures var answer := Query(log, Listed(select), scope, Some(c), now);
            var revision := if log == [] then 0 else log[|log| - 1].revision;
            var view := Upto(log, c.watermark);
            && (answer == Err(ScopeMismatch) <==> c.scope != scope)
            && (answer.Ok? <==>
                  && c.scope == scope && c.watermark <= revision
                  && exists row :: row in RowsFrom(view, view, select, c.observed)
                                   && row.revision == c.boundary.revision && row.record == c.boundary.record)
            && (answer == Err(BoundaryMissing) ==> !scope.order.Latest? && c.watermark <= revision)
  {
    hide RowsFrom, Upto, Sorted, After, Take;
  }

  // A view is the entries up to its watermark, in order.
  lemma {:induction false} ViewExactly(log: seq<Entry>, watermark: nat)
    requires Rising(log)
    ensures forall e :: e in Upto(log, watermark) <==> e in log && e.revision <= watermark
    ensures Rising(Upto(log, watermark))
  {
    if log != [] {
      var n := |log| - 1;
      ViewExactly(log[..n], watermark);
      assert log == log[..n] + [log[n]];
      ViewBelow(log, watermark);
    }
  }

  lemma ViewBelow(log: seq<Entry>, watermark: nat)
    requires Rising(log) && log != []
    requires forall e :: e in Upto(log[..|log| - 1], watermark) <==> e in log[..|log| - 1] && e.revision <= watermark
    ensures forall e | e in Upto(log[..|log| - 1], watermark) :: e.revision < log[|log| - 1].revision
  {
    forall e | e in Upto(log[..|log| - 1], watermark) ensures e.revision < log[|log| - 1].revision {
      var i :| 0 <= i < |log| - 1 && log[..|log| - 1][i] == e;
    }
  }
}
