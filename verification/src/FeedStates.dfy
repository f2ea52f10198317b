// What the prefix proof finds, said of the two stored keys themselves.

module FeedStates {
  import opened Wrappers
  import opened Feed
  import opened FeedProofs
  import opened Contention

  // The keys a whole list of events leaves behind
  predicate Holds(p: Projection, events: seq<Event>) {
    if events == [] then p.stream == NoStream && p.meta == NoMeta
    else p.stream == Stream(events) && p.meta == Meta(Number(events[|events| - 1].revision), "v2")
  }

  lemma HoldsFull(p: Projection, events: seq<Event>)
    ensures Holds(p, events) <==> p == Full(events)
  {
  }

  // The proof says equal when the keys hold the whole log, empty or lagging when they hold a proper
  // prefix of it, ahead when they hold the whole log and more, and is broken otherwise.
  lemma ProofExactly(entries: seq<Event>, p: Projection)
    requires Rising(entries) && Orderly(p)
    ensures var proof := ProofOf(entries, p);
            && (proof.Proved? && proof.relation.Equal? <==> Holds(p, entries))
            && (proof.Proved? && proof.relation.Empty? <==> Holds(p, []) && entries != [])
            && (proof.Proved? && proof.relation.Lag? <==> exists k :: 0 < k < |entries| && Holds(p, entries[..k]))
            && (proof.Proved? && proof.relation.Ahead?
                <==> p.stream.Stream? && p.stream.events != [] && Holds(p, p.stream.events)
                     && entries <= p.stream.events && entries != p.stream.events)
            && (proof.Proved? ==> proof.watermark == if p.stream.Stream? then Last(p.stream.events) else 0)
  {
    hide Range, Rising, Compare, Flaw, Last, Full;
    if ProofOf(entries, p).Proved? {
      ProofForward(entries, p);
    }
    HoldsFull(p, entries);
    if Holds(p, entries) {
      PrefixProved(entries, |entries|);
      assert entries[..|entries|] == entries;
    }
    if Holds(p, []) && entries != [] {
      HoldsFull(p, []);
      PrefixProved(entries, 0);
      assert entries[..0] == [];
    }
    if k :| 0 < k < |entries| && Holds(p, entries[..k]) {
      HoldsFull(p, entries[..k]);
      PrefixProved(entries, k);
    }
    if p.stream.Stream? && p.stream.events != [] && Holds(p, p.stream.events) && entries <= p.stream.events
       && entries != p.stream.events {
      var events := p.stream.events;
      HoldsFull(p, events);
      AheadProved(entries, events, |events|);
      assert events[..|events|] == events;
    }
  }

  // Whatever is proved, the keys hold what they should.
  lemma ProofForward(entries: seq<Event>, p: Projection)
    requires Rising(entries) && Orderly(p) && ProofOf(entries, p).Proved?
    ensures var proof := ProofOf(entries, p);
            && (proof.relation.Equal? ==> Holds(p, entries))
            && (proof.relation.Empty? ==> Holds(p, []) && entries != [])
            && (proof.relation.Lag? ==> exists k :: 0 < k < |entries| && Holds(p, entries[..k]))
            && (proof.relation.Ahead? ==>
                  && p.stream.Stream? && p.stream.events != [] && Holds(p, p.stream.events)
                  && entries <= p.stream.events && entries != p.stream.events)
            && proof.watermark == if p.stream.Stream? then Last(p.stream.events) else 0
  {
    if p.stream.Stream? {
      StreamHolds(entries, p);
      if ProofOf(entries, p).relation.Ahead? {
        AheadHolds(entries, p);
      } else {
        ProvedPrefix(p, entries);
        var k :| Told(p, entries, k);
        WhereTold(entries, p, k);
      }
    }
  }

  lemma StreamHolds(entries: seq<Event>, p: Projection)
    requires Orderly(p) && ProofOf(entries, p).Proved? && p.stream.Stream?
    ensures p.stream.events != [] && Holds(p, p.stream.events) && ProofOf(entries, p).watermark == Last(p.stream.events)
    ensures !ProofOf(entries, p).relation.Empty?
    ensures ProofOf(entries, p).relation
         == if Last(p.stream.events) > Last(entries) then Ahead else if Last(p.stream.events) < Last(entries) then Lag else Equal
  {
    hide Range, Rising;
  }

  lemma WhereTold(entries: seq<Event>, p: Projection, k: int)
    requires Rising(entries) && Orderly(p) && ProofOf(entries, p).Proved? && p.stream.Stream? && Told(p, entries, k)
    requires !ProofOf(entries, p).relation.Ahead?
    ensures ProofOf(entries, p).relation.Equal? ==> entries == p.stream.events
    ensures ProofOf(entries, p).relation.Lag? ==> 0 < k < |entries| && p.stream.events == entries[..k]
  {
    StreamHolds(entries, p);
    hide ProofOf;
    assert Last(entries[..k]) == entries[k - 1].revision;
    if k == |entries| {
      assert entries[..k] == entries;
    }
  }

  lemma AheadHolds(entries: seq<Event>, p: Projection)
    requires Rising(entries) && Orderly(p) && ProofOf(entries, p).Proved? && p.stream.Stream?
    requires ProofOf(entries, p).relation.Ahead?
    ensures entries <= p.stream.events && entries != p.stream.events
  {
    StreamHolds(entries, p);
    var events := p.stream.events;
    SameFront(entries, p);
    hide ProofOf, Range;
    PrefixOfRising(events, Last(entries));
    WholeRange(entries);
  }

  lemma SameFront(entries: seq<Event>, p: Projection)
    requires ProofOf(entries, p).Proved? && p.stream.Stream? && ProofOf(entries, p).relation.Ahead?
    ensures Range(p.stream.events, 0, Last(entries)) == Range(entries, 0, Last(entries))
  {
    hide Range;
  }

  lemma WholeRange(entries: seq<Event>)
    requires Rising(entries)
    ensures Range(entries, 0, Last(entries)) == entries
  {
    assert entries[..|entries|] == entries;
    RangePrefix(entries, |entries|);
  }

  // ------------------------------------------------------------------ why a proof is broken

  // The keys are a stream and a hash with a number under the schema, and the number is that of the
  // last event.
  predicate Consistent(p: Projection) {
    && p.stream.Stream? && p.stream.events != []
    && p.meta.Meta? && p.meta.schema == "v2"
    && p.meta.watermark == Number(p.stream.events[|p.stream.events| - 1].revision)
  }

  // What is reported when it is broken: another schema, when at least one key is there and both are
  // of their kinds; then a watermark that is no number; a divergence, when the keys are consistent
  // but not, as far as the log and they both go, the front of the log; and otherwise inconsistency.
  lemma BrokenExactly(entries: seq<Event>, p: Projection)
    requires Rising(entries) && Orderly(p) && ProofOf(entries, p).Broken?
    ensures var typed := !p.stream.OtherStream? && !p.meta.OtherMeta?;
            var named := p.meta.Meta? && p.meta.schema == "v2";
            var seen := Range(if p.stream.Stream? then p.stream.events else [], 0, Last(entries));
            var reason := ProofOf(entries, p).reason;
            && (reason == SchemaMismatch <==> typed && !(p.stream.NoStream? && p.meta.NoMeta?) && !named)
            && (reason == MetadataInvalid <==> typed && named && p.meta.watermark == Garbled)
            && (reason == Diverged <==> Consistent(p) && !(seen <= entries))
            && (reason == Inconsistent <==>
                  || !typed
                  || (named && p.meta.watermark != Garbled && !Consistent(p))
                  || (Consistent(p) && seen <= entries))
  {
    hide Range, Rising;
    if Consistent(p) {
      LastRises(p);
      assert Flaw(p) == None;
      CapSees(entries, p);
    } else {
      FlawThere(p);
    }
  }

  lemma LastRises(p: Projection)
    requires Orderly(p) && Consistent(p)
    ensures Last(p.stream.events) > 0 && p.stream.events[|p.stream.events| - 1].revision > 0
  {
  }

  lemma FlawThere(p: Projection)
    requires Orderly(p) && !Consistent(p) && !(p.stream.NoStream? && p.meta.NoMeta?)
    ensures Flaw(p).Some?
  {
  }

  // Compared up to the watermark or up to the end of the log, whichever comes first: where the
  // watermark does, the stream has nothing beyond it.
  lemma CapSees(entries: seq<Event>, p: Projection)
    requires Rising(entries) && Orderly(p) && Consistent(p) && Flaw(p) == None
    ensures var cap, events := Cap(entries, Watermark(p.meta)), p.stream.events;
            && Range(events, 0, cap) == Range(events, 0, Last(entries))
            && (Range(events, 0, cap) <= Range(entries, 0, cap) <==> Range(events, 0, cap) <= entries)
  {
    var cap, events := Cap(entries, Watermark(p.meta)), p.stream.events;
    PrefixBounds(events, |events|);
    assert events[..|events|] == events;
    PrefixBounds(entries, |entries|);
    assert entries[..|entries|] == entries;
    PrefixOfRising(entries, cap);
    if cap < Last(entries) {
      RangeWhole(events, 0, cap);
      RangeWhole(events, 0, Last(entries));
    }
    RangeFront(entries, events, cap);
  }

  lemma RangeFront(entries: seq<Event>, events: seq<Event>, cap: int)
    requires Rising(entries)
    ensures Range(events, 0, cap) <= entries ==> Range(events, 0, cap) <= Range(entries, 0, cap)
    ensures Range(entries, 0, cap) <= entries
  {
    PrefixOfRising(entries, cap);
    var k :| 0 <= k <= |entries| && Range(entries, 0, cap) == entries[..k];
    RangeMembers(events, 0, cap);
    RangeMembers(entries, 0, cap);
    hide Range;
    var seen := Range(events, 0, cap);
    if seen <= entries && seen != [] {
      var last := seen[|seen| - 1];
      assert last in seen && last in entries[..k];
    }
  }
}
