// The relayed feed: a stream of events in Redis that follows the record log up to a watermark,
// and the proof of that prefix which precedes every append.

module Feed {
  import opened Wrappers
  import opened Ledger

  // One relayed event: the record's revision in the log, and the record's own fields.
  datatype Event = Event(revision: nat, record: Id)

  predicate Rising(es: seq<Event>) {
    && (forall i | 0 <= i < |es| :: es[i].revision > 0)
    && (forall i, j | 0 <= i < j < |es| :: es[i].revision < es[j].revision)
  }

  // XRANGE without its count: the events after one revision, through another.
  function Range(es: seq<Event>, after: int, through: int): seq<Event> {
    if es == [] then []
    else
      var last := es[|es| - 1];
      Range(es[..|es| - 1], after, through) + if after < last.revision <= through then [last] else []
  }

  function Last(es: seq<Event>): nat {
    if es == [] then 0 else es[|es| - 1].revision
  }

  // ------------------------------------------------------------------ the stored projection

  datatype StreamKey = NoStream | Stream(events: seq<Event>) | OtherStream
  datatype MetaKey = NoMeta | Meta(watermark: MarkField, schema: string) | OtherMeta

  // The watermark field: absent, an integer, or text that is not one.
  datatype MarkField = Missing | Number(value: int) | Garbled

  datatype Projection = Projection(stream: StreamKey, meta: MetaKey)

  const SCHEMA := "v2"

  datatype Relation = Empty | Equal | Lag | Ahead
  datatype Reason = Inconsistent | SchemaMismatch | MetadataInvalid | Diverged
  datatype Proof = Proved(watermark: nat, relation: Relation) | Broken(reason: Reason)

  function Watermark(meta: MetaKey): int {
    if meta.Meta? && meta.watermark.Number? then meta.watermark.value else 0
  }

  // What is wrong before any event is compared, if anything.
  function Flaw(p: Projection): Option<Reason> {
    var schema := if p.meta.Meta? then p.meta.schema else "";
    if p.stream.OtherStream? || p.meta.OtherMeta? then Some(Inconsistent)
    else if (!p.stream.NoStream? || !p.meta.NoMeta?) && schema != SCHEMA then Some(SchemaMismatch)
    else if p.meta.Meta? && p.meta.watermark.Garbled? then Some(MetadataInvalid)
    else if Watermark(p.meta) < 0 || p.stream.NoStream? != p.meta.NoMeta? then Some(Inconsistent)
    else if p.stream.NoStream? then None
    else if Watermark(p.meta) == 0 || Last(p.stream.events) != Watermark(p.meta) then Some(Inconsistent)
    else None
  }

  // The log as far as both sides know it.
  function Cap(entries: seq<Event>, watermark: int): int {
    if watermark < Last(entries) then watermark else Last(entries)
  }

  // Whether the stream tells the log's story so far, event by event.
  function Compare(entries: seq<Event>, p: Projection): Proof
    requires Flaw(p) == None
  {
    if p.stream.NoStream? then Proved(0, if entries == [] then Equal else Empty)
    else
      var watermark := Watermark(p.meta);
      var cap := Cap(entries, watermark);
      var seen, expected := Range(p.stream.events, 0, cap), Range(entries, 0, cap);
      if seen == expected then
        Proved(watermark, if watermark > Last(entries) then Ahead else if watermark < Last(entries) then Lag else Equal)
      else if |seen| < |expected| && seen == expected[..|seen|] then Broken(Inconsistent)
      else Broken(Diverged)
  }

  function ProofOf(entries: seq<Event>, p: Projection): Proof {
    match Flaw(p)
    case Some(reason) => Broken(reason)
    case None => Compare(entries, p)
  }

  // ------------------------------------------------------------------ paging

  lemma {:induction false} RangeMembers(es: seq<Event>, after: int, through: int)
    ensures forall e :: e in Range(es, after, through) <==> e in es && after < e.revision <= through
  {
    if es != [] {
      RangeMembers(es[..|es| - 1], after, through);
      assert es == es[..|es| - 1] + [es[|es| - 1]];
    }
  }

  lemma {:induction false} RangeNone(es: seq<Event>, after: int, through: int)
    requires forall e | e in es :: e.revision <= after || through < e.revision
    ensures Range(es, after, through) == []
  {
    if es != [] {
      RangeNone(es[..|es| - 1], after, through);
    }
  }

  lemma {:induction false} RangeWhole(es: seq<Event>, after: int, through: int)
    requires forall e | e in es :: after < e.revision <= through
    ensures Range(es, after, through) == es
  {
    if es != [] {
      RangeWhole(es[..|es| - 1], after, through);
    }
  }

  lemma RangeStep(front: seq<Event>, last: Event, after: int, through: int)
    ensures Range(front + [last], after, through)
         == Range(front, after, through) + if after < last.revision <= through then [last] else []
  {
    assert (front + [last])[..|front|] == front;
  }

  // Starting after the k-th visible event leaves exactly the later ones.
  lemma {:induction false} RangeRest(es: seq<Event>, through: int, k: nat)
    requires Rising(es) && 0 < k <= |Range(es, 0, through)|
    ensures Range(es, Range(es, 0, through)[k - 1].revision, through) == Range(es, 0, through)[k..]
  {
    hide Range, Rising;
    assert es != [] by {
      RangeEmpty(through);
    }
    var front, last := es[..|es| - 1], es[|es| - 1];
    assert es == front + [last];
    RisingFront(es);
    var before := Range(front, 0, through);
    RangeStep(front, last, 0, through);
    if k <= |before| {
      var after := before[k - 1].revision;
      RangeMembers(front, 0, through);
      assert before[k - 1] in before;
      RangeRest(front, through, k);
      RangeStep(front, last, after, through);
    } else {
      RangeNone(front, last.revision, through);
      RangeStep(front, last, last.revision, through);
    }
  }

  lemma RangeEmpty(through: int)
    ensures Range([], 0, through) == []
  {
  }

  lemma RisingFront(es: seq<Event>)
    requires Rising(es) && es != []
    ensures var n := |es| - 1;
            Rising(es[..n]) && es[n].revision > 0 && forall e | e in es[..n] :: e.revision < es[n].revision
  {
  }

  lemma PrefixBounds(entries: seq<Event>, k: nat)
    requires Rising(entries) && k <= |entries|
    ensures forall e | e in entries[..k] :: 0 < e.revision <= Last(entries[..k])
    ensures forall e | e in entries[k..] :: Last(entries[..k]) < e.revision <= Last(entries)
  {
    forall e | e in entries[..k] ensures 0 < e.revision <= Last(entries[..k]) {
      var i :| 0 <= i < k && entries[..k][i] == e;
      assert entries[i] == e && entries[..k][k - 1] == entries[k - 1];
    }
    forall e | e in entries[k..] ensures Last(entries[..k]) < e.revision <= Last(entries) {
      var i :| 0 <= i < |entries| - k && entries[k..][i] == e;
      assert entries[k + i] == e;
    }
  }

  // A rising log splits at the last revision of any prefix.
  lemma RangePrefix(entries: seq<Event>, k: nat)
    requires Rising(entries) && k <= |entries|
    ensures Range(entries, 0, Last(entries[..k])) == entries[..k]
    ensures Range(entries, Last(entries[..k]), Last(entries)) == entries[k..]
  {
    hide Range, Rising;
    PrefixBounds(entries, k);
    RangeCut(entries[..k], entries[k..], Last(entries[..k]), Last(entries));
    assert entries == entries[..k] + entries[k..];
  }

  lemma RangeCut(before: seq<Event>, after: seq<Event>, cap: int, end: int)
    requires (forall e | e in before :: 0 < e.revision <= cap) && (forall e | e in after :: cap < e.revision <= end)
    ensures Range(before + after, 0, cap) == before
    ensures Range(before + after, cap, end) == after
  {
    hide Range;
    RangeSplit(before, after, 0, cap);
    RangeSplit(before, after, cap, end);
    RangeWhole(before, 0, cap);
    RangeNone(after, 0, cap);
    RangeNone(before, cap, end);
    RangeWhole(after, cap, end);
  }

  lemma {:induction false} RangeSplit(a: seq<Event>, b: seq<Event>, after: int, through: int)
    ensures Range(a + b, after, through) == Range(a, after, through) + Range(b, after, through)
  {
    if b == [] {
      assert a + b == a;
    } else {
      assert (a + b)[..|a + b| - 1] == a + b[..|b| - 1];
      RangeSplit(a, b[..|b| - 1], after, through);
    }
  }

  const PAGE: nat := 256

  // XRANGE with its count.
  function Page(es: seq<Event>, after: int, through: int): (r: seq<Event>)
    ensures |r| <= PAGE
  {
    var visible := Range(es, after, through);
    if |visible| <= PAGE then visible else visible[..PAGE]
  }

  method CountThrough(entries: seq<Event>, cap: int) returns (expected: nat)
    requires Rising(entries)
    ensures expected <= |entries| && entries[..expected] == Range(entries, 0, cap)
  {
    expected := 0;
    while expected < |entries| && entries[expected].revision <= cap
      invariant 0 <= expected <= |entries|
      invariant forall i | 0 <= i < expected :: entries[i].revision <= cap
    {
      expected := expected + 1;
    }
    Counted(entries, expected, cap);
  }

  // The events through a cap, read page by page and compared one by one with the log's first
  // `expected` entries: whether one differs, and otherwise how many there were.
  method ComparePages(entries: seq<Event>, expected: nat, events: seq<Event>, cap: int)
    returns (diverged: bool, observed: nat)
    requires Rising(events) && expected <= |entries|
    ensures diverged <==> !(Range(events, 0, cap) <= entries[..expected])
    ensures !diverged ==> observed == |Range(events, 0, cap)|
  {
    ghost var visible := Range(events, 0, cap);
    hide Range, Rising;
    var cursor := 0;
    observed := 0;
    while true
      invariant observed <= expected && observed <= |visible|
      invariant visible[..observed] == entries[..observed]
      invariant cursor == Last(visible[..observed])
      decreases |visible| - observed
    {
      if observed > 0 {
        RangeRest(events, cap, observed);
      }
      assert Range(events, cursor, cap) == visible[observed..];
      var page := Page(events, cursor, cap);
      if page == [] {
        break;
      }
      ghost var start := observed;
      for i := 0 to |page|
        invariant observed == start + i && observed <= expected
        invariant start + |page| <= |visible| && page == visible[start..start + |page|]
        invariant visible[..observed] == entries[..observed]
        invariant cursor == Last(visible[..observed])
      {
        assert page[i] == visible[observed];
        if observed >= expected {
          return true, observed;
        }
        if page[i] != entries[observed] {
          return true, observed;
        }
        cursor := page[i].revision;
        observed := observed + 1;
      }
      if |page| < PAGE {
        break;
      }
    }
    return false, observed;
  }

  // _prove_prefix
  method ProvePrefix(entries: seq<Event>, p: Projection) returns (proof: Proof)
    requires Rising(entries) && (p.stream.Stream? ==> Rising(p.stream.events))
    ensures proof == ProofOf(entries, p)
  {
    hide Range, Rising;
    match Flaw(p) {
      case Some(reason) => return Broken(reason);
      case None =>
    }
    if p.stream.NoStream? {
      return Proved(0, if entries == [] then Equal else Empty);
    }
    var watermark, source := Watermark(p.meta), Last(entries);
    var cap := Cap(entries, watermark);
    var expected := CountThrough(entries, cap);
    var diverged, observed := ComparePages(entries, expected, p.stream.events, cap);
    if diverged {
      return Broken(Diverged);
    }
    if observed != expected {
      return Broken(Inconsistent);
    }
    return Proved(watermark, if watermark > source then Ahead else if watermark != source then Lag else Equal);
  }

  lemma Counted(entries: seq<Event>, expected: nat, cap: int)
    requires Rising(entries) && expected <= |entries|
    requires forall i | 0 <= i < expected :: entries[i].revision <= cap
    requires expected < |entries| ==> entries[expected].revision > cap
    ensures Range(entries, 0, cap) == entries[..expected]
  {
    assert entries == entries[..expected] + entries[expected..];
    RangeSplit(entries[..expected], entries[expected..], 0, cap);
    RangeWhole(entries[..expected], 0, cap);
    RangeNone(entries[expected..], 0, cap);
  }
}
