// Synchronization on top of the prefix proof: what one attempt does under each kind of link, and
// why the feed is always exactly the log up to its watermark.

module FeedProofs {
  import opened Wrappers
  import opened Ledger
  import opened Feed

  // What the way to Redis lets through during one synchronization. NoAppends is a relay that
  // answers reads and drops every append. Unconfirmed lets an append be applied and not be
  // confirmed: its reply is lost, or the staged keys cannot be deleted afterwards.
  datatype Link = Up | NoAppends | Unconfirmed | Down

  // Appends are applied, confirmed or not.
  predicate Applies(link: Link) {
    link.Up? || link.Unconfirmed?
  }

  datatype Synced = Synced(projection: Projection, ok: bool)

  const BLANK := Projection(NoStream, NoMeta)

  // The projection of a whole log.
  function Full(entries: seq<Event>): Projection {
    if entries == [] then BLANK else Projection(Stream(entries), Meta(Number(Last(entries)), SCHEMA))
  }

  // sync: prove the prefix, then append what the log has beyond the watermark.
  function Sync(p: Projection, entries: seq<Event>, link: Link): Synced {
    if link.Down? then Synced(p, false)
    else
      match ProofOf(entries, p)
      case Broken(_) => Synced(p, false)
      case Proved(_, Ahead) => Synced(p, false)
      case Proved(_, Equal) => Synced(p, true)
      case Proved(watermark, _) =>
        if Applies(link) then Synced(Append(p, entries, watermark), link.Up?) else Synced(p, false)
  }

  function Append(p: Projection, entries: seq<Event>, watermark: int): Projection {
    var events := if p.stream.Stream? then p.stream.events else [];
    Projection(Stream(events + Range(entries, watermark, Last(entries))), Meta(Number(Last(entries)), SCHEMA))
  }

  // The feed is the log's first k entries, and the watermark the revision of the last of them.
  ghost predicate Mirrors(p: Projection, entries: seq<Event>) {
    exists k | 0 <= k <= |entries| :: p == Full(entries[..k])
  }

  predicate Orderly(p: Projection) {
    p.stream.Stream? ==> Rising(p.stream.events)
  }

  // The proof leaves something to append.
  predicate Behind(p: Projection, entries: seq<Event>) {
    var proof := ProofOf(entries, p);
    proof.Proved? && (proof.relation.Empty? || proof.relation.Lag?)
  }

  // A synchronization that reports success, or whose append was applied, leaves exactly the whole
  // log in the feed, whatever was there before; any other changes nothing.
  lemma SyncExact(p: Projection, entries: seq<Event>, link: Link)
    requires Rising(entries) && Orderly(p)
    ensures var r := Sync(p, entries, link);
            && r.projection == (if r.ok || (Applies(link) && Behind(p, entries)) then Full(entries) else p)
            && (r.ok ==> link.Up? || (!link.Down? && p == Full(entries)))
            && (!r.ok && r.projection != p ==> link.Unconfirmed? && Behind(p, entries))
  {
    hide ProofOf, Append, Full;
    match ProofOf(entries, p)
    case Broken(_) =>
    case Proved(watermark, Ahead) =>
    case Proved(watermark, Equal) => EqualIsFull(p, entries);
    case Proved(watermark, _) => AppendIsFull(p, entries);
  }

  lemma EqualIsFull(p: Projection, entries: seq<Event>)
    requires Rising(entries) && Orderly(p)
    requires ProofOf(entries, p).Proved? && ProofOf(entries, p).relation.Equal?
    ensures p == Full(entries)
  {
    if p.stream.Stream? {
      ProvedPrefix(p, entries);
      var k :| Told(p, entries, k);
      assert Last(entries[..k]) == entries[k - 1].revision;
      assert k == |entries| && entries[..k] == entries;
    }
  }

  lemma AppendIsFull(p: Projection, entries: seq<Event>)
    requires Rising(entries) && Orderly(p) && ProofOf(entries, p).Proved?
    requires ProofOf(entries, p).relation.Empty? || ProofOf(entries, p).relation.Lag?
    ensures Append(p, entries, ProofOf(entries, p).watermark) == Full(entries)
  {
    if p.stream.Stream? {
      ProvedPrefix(p, entries);
      var k :| Told(p, entries, k);
      hide ProofOf, Range, Rising;
      AppendRest(p, entries, k);
    } else {
      RangePrefix(entries, 0);
      assert Last(entries[..0]) == 0 && entries[0..] == entries;
      assert [] + Range(entries, 0, Last(entries)) == entries;
    }
  }

  lemma AppendRest(p: Projection, entries: seq<Event>, k: nat)
    requires Rising(entries) && 0 < k <= |entries| && p.stream == Stream(entries[..k])
    ensures Append(p, entries, Last(entries[..k])) == Full(entries)
  {
    hide Range;
    RangePrefix(entries, k);
    assert entries[..k] + entries[k..] == entries;
  }

  // The stream is the log's first k entries, and the proof found the revision of the last of them.
  predicate Told(p: Projection, entries: seq<Event>, k: int)
    requires p.stream.Stream? && ProofOf(entries, p).Proved?
  {
    0 < k <= |entries| && p.stream.events == entries[..k] && ProofOf(entries, p).watermark == Last(entries[..k])
  }

  // A proof that is neither broken nor ahead means the stream is a prefix of the log, up to and
  // including its own watermark.
  lemma ProvedPrefix(p: Projection, entries: seq<Event>)
    requires Rising(entries) && Orderly(p) && p.stream.Stream?
    requires ProofOf(entries, p).Proved? && !ProofOf(entries, p).relation.Ahead?
    ensures exists k :: Told(p, entries, k)
    ensures p.meta == Meta(Number(ProofOf(entries, p).watermark), SCHEMA)
  {
    var watermark, events := Watermark(p.meta), p.stream.events;
    var cap := Cap(entries, watermark);
    assert cap == watermark;
    assert events[..|events|] == events;
    PrefixBounds(events, |events|);
    RangeWhole(events, 0, cap);
    PrefixOfRising(entries, cap);
    var k :| 0 <= k <= |entries| && Range(entries, 0, cap) == entries[..k];
    assert events == entries[..k];
    assert Told(p, entries, k);
  }

  lemma {:induction false} PrefixOfRising(entries: seq<Event>, cap: int)
    requires Rising(entries)
    ensures exists k | 0 <= k <= |entries| :: Range(entries, 0, cap) == entries[..k]
  {
    if entries == [] {
      assert Range(entries, 0, cap) == entries[..0];
    } else if entries[|entries| - 1].revision <= cap {
      PrefixBounds(entries, |entries|);
      assert entries[..|entries|] == entries;
      RangeWhole(entries, 0, cap);
    } else {
      var front := entries[..|entries| - 1];
      PrefixOfRising(front, cap);
      var k :| 0 <= k <= |front| && Range(front, 0, cap) == front[..k];
      assert front[..k] == entries[..k];
    }
  }

  lemma PrefixProved(entries: seq<Event>, k: nat)
    requires Rising(entries) && k <= |entries|
    ensures ProofOf(entries, Full(entries[..k]))
         == Proved(Last(entries[..k]), if k == |entries| then Equal else if k == 0 then Empty else Lag)
  {
    if k > 0 {
      hide Range, Rising;
      var p, watermark := Full(entries[..k]), entries[k - 1].revision;
      BeforeWhole(entries, k);
      assert Last(entries[..k]) == watermark;
      assert Flaw(p) == None;
      PrefixCompared(entries, k);
    }
  }

  lemma PrefixCompared(entries: seq<Event>, k: nat)
    requires Rising(entries) && 0 < k <= |entries| && Flaw(Full(entries[..k])) == None
    ensures Compare(entries, Full(entries[..k])) == Proved(entries[k - 1].revision, if k == |entries| then Equal else Lag)
  {
    hide Range, Rising, Flaw;
    BeforeWhole(entries, k);
    RangePrefix(entries, k);
    assert Last(entries[..k]) == entries[k - 1].revision;
    assert Cap(entries, entries[k - 1].revision) == entries[k - 1].revision;
  }

  lemma BeforeWhole(entries: seq<Event>, k: nat)
    requires Rising(entries) && 0 < k <= |entries|
    ensures Range(entries[..k], 0, entries[k - 1].revision) == entries[..k]
    ensures 0 < entries[k - 1].revision && (k < |entries| ==> entries[k - 1].revision < Last(entries))
  {
    PrefixBounds(entries, k);
    RangeWhole(entries[..k], 0, entries[k - 1].revision);
  }

  // A mirroring feed can always be proved, and an open link brings it up to date.
  lemma MirrorsProved(p: Projection, entries: seq<Event>)
    requires Rising(entries) && Mirrors(p, entries)
    ensures Orderly(p) && ProofOf(entries, p).Proved? && !ProofOf(entries, p).relation.Ahead?
    ensures ProofOf(entries, p).relation.Equal? <==> p == Full(entries)
  {
    var k :| 0 <= k <= |entries| && p == Full(entries[..k]);
    PrefixProved(entries, k);
    if k == |entries| {
      assert entries[..k] == entries;
    } else {
      assert entries[..k] != entries;
    }
  }

  lemma MirrorsSync(p: Projection, entries: seq<Event>, link: Link)
    requires Rising(entries) && Mirrors(p, entries)
    ensures Mirrors(Sync(p, entries, link).projection, entries)
    ensures Sync(p, entries, link).ok <==> link.Up? || (!link.Down? && p == Full(entries))
    ensures Sync(p, entries, link).projection == if Applies(link) then Full(entries) else p
    ensures Watermark(p.meta) <= Watermark(Sync(p, entries, link).projection.meta)
  {
    hide Full, ProofOf, Append, Rising, Range, Orderly;
    MirrorsProved(p, entries);
    SyncExact(p, entries, link);
    assert entries[..|entries|] == entries;
    assert Mirrors(Full(entries), entries);
    MirrorsBehind(p, entries);
  }

  lemma MirrorsBehind(p: Projection, entries: seq<Event>)
    requires Rising(entries) && Mirrors(p, entries)
    ensures Watermark(p.meta) <= Watermark(Full(entries).meta)
  {
    var k :| 0 <= k <= |entries| && p == Full(entries[..k]);
    if 0 < k < |entries| {
      BeforeWhole(entries, k);
    } else if k == |entries| {
      assert entries[..k] == entries;
    }
  }

  // The log only grows, and what mirrored it still does.
  lemma MirrorsGrow(p: Projection, entries: seq<Event>, more: seq<Event>)
    requires Mirrors(p, entries)
    ensures Mirrors(p, entries + more)
  {
    var k :| 0 <= k <= |entries| && p == Full(entries[..k]);
    assert (entries + more)[..k] == entries[..k];
  }

  // ------------------------------------------------------------------ the log as events

  function Entries(log: seq<Id>): (r: seq<Event>)
    ensures |r| == |log| && forall i | 0 <= i < |r| :: r[i] == Event(i + 1, log[i])
  {
    seq(|log|, i requires 0 <= i < |log| => Event(i + 1, log[i]))
  }

  lemma EntriesRising(log: seq<Id>)
    ensures Rising(Entries(log))
  {
  }

  lemma EntriesGrow(log: seq<Id>, later: seq<Id>)
    requires log <= later
    ensures Entries(log) <= Entries(later) && Entries(later) == Entries(log) + Entries(later)[|log|..]
  {
  }
}
