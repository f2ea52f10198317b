// Several clients of one store and one Redis projection. Each commits to the store and relays the
// log; a synchronization is a retry loop between whose requests the others do whatever they do.

module Contention {
  import opened Wrappers
  import opened Ledger
  import opened LedgerProofs
  import opened Feed
  import opened FeedProofs
  import opened Workspace
  import opened WorkspaceProofs

  // ------------------------------------------------------------------ what clients do at once

  // A step of the store, or the transaction of one synchronization of a log that was captured when
  // it had so many records.
  datatype Deed =
    | Stored(step: Step)
    | Relayed(captured: nat, link: Link)

  // The first n records of the log as events, or all of them.
  function Front(log: seq<Id>, n: nat): seq<Feed.Event> {
    Entries(log)[..if n < |log| then n else |log|]
  }

  function Do(w: World, d: Deed): World {
    match d
    case Stored(step) => World(Next(w.store, step), w.feed)
    case Relayed(captured, link) => World(w.store, Sync(w.feed, Front(w.store.log, captured), link).projection)
  }

  function DoAll(w: World, ds: seq<Deed>): World {
    if ds == [] then w else Do(DoAll(w, ds[..|ds| - 1]), ds[|ds| - 1])
  }

  lemma {:induction false} DoAllSplit(w: World, a: seq<Deed>, b: seq<Deed>)
    ensures DoAll(w, a + b) == DoAll(DoAll(w, a), b)
  {
    hide Do;
    if b == [] {
      assert a + b == a;
    } else {
      assert (a + b)[..|a + b| - 1] == a + b[..|b| - 1];
      DoAllSplit(w, a, b[..|b| - 1]);
    }
  }

  // A feed that tells a prefix of a log is proved against any earlier capture of that log: either
  // it tells a prefix of the capture too, or it is ahead of it.
  lemma Watched(captured: seq<Event>, now: seq<Event>, feed: Projection)
    requires Rising(now) && captured <= now && Mirrors(feed, now)
    ensures Rising(captured) && ProofOf(captured, feed).Proved?
    ensures !ProofOf(captured, feed).relation.Ahead? ==> Mirrors(feed, captured)
    ensures ProofOf(captured, feed).relation.Ahead? ==> Last(captured) < Last(now) && !Mirrors(feed, captured)
  {
    var j :| 0 <= j <= |now| && feed == Full(now[..j]);
    RisingPrefix(captured, now);
    if j <= |captured| {
      assert now[..j] == captured[..j];
      assert Mirrors(feed, captured);
      hide ProofOf, Full;
      MirrorsProved(feed, captured);
    } else {
      AheadProved(captured, now, j);
      if Mirrors(feed, captured) {
        hide ProofOf, Full;
        MirrorsProved(feed, captured);
      }
    }
  }

  lemma RisingPrefix(captured: seq<Event>, now: seq<Event>)
    requires Rising(now) && captured <= now
    ensures Rising(captured)
  {
    assert forall i | 0 <= i < |captured| :: captured[i] == now[i];
  }

  lemma AheadProved(captured: seq<Event>, now: seq<Event>, j: nat)
    requires Rising(now) && captured <= now && |captured| < j <= |now|
    ensures ProofOf(captured, Full(now[..j])) == Proved(now[j - 1].revision, Ahead)
    ensures Last(captured) < now[j - 1].revision <= Last(now)
  {
    hide Range, Rising, Compare;
    var events := now[..j];
    RisingPrefix(captured, now);
    RisingPrefix(events, now);
    AheadMarks(captured, now, j);
    assert Last(events) == now[j - 1].revision;
    assert Flaw(Full(events)) == None;
    AheadCompared(captured, events);
  }

  lemma AheadCompared(captured: seq<Event>, events: seq<Event>)
    requires Rising(events) && Rising(captured) && captured <= events && Last(captured) < Last(events)
    requires Flaw(Full(events)) == None
    ensures Compare(captured, Full(events)) == Proved(Last(events), Ahead)
  {
    hide Range, Rising, Flaw;
    assert events[..|captured|] == captured && captured[..|captured|] == captured;
    RangePrefix(events, |captured|);
    RangePrefix(captured, |captured|);
  }

  lemma AheadMarks(captured: seq<Event>, now: seq<Event>, j: nat)
    requires Rising(now) && captured <= now && |captured| < j <= |now|
    ensures 0 < now[j - 1].revision && Last(captured) < now[j - 1].revision <= Last(now)
  {
    if captured != [] {
      assert now[|captured| - 1] == captured[|captured| - 1];
    }
  }

  lemma NotAhead(entries: seq<Event>, feed: Projection)
    requires Rising(entries) && Mirrors(feed, entries)
    ensures ProofOf(entries, feed).Proved? && !ProofOf(entries, feed).relation.Ahead?
  {
    MirrorsProved(feed, entries);
  }

  lemma LastGrows(a: seq<Event>, b: seq<Event>)
    requires Rising(b) && a <= b
    ensures Last(a) <= Last(b) && (Last(a) == Last(b) ==> a == b)
  {
    if a != [] && |a| < |b| {
      assert b[|a| - 1] == a[|a| - 1];
    }
  }

  lemma FullMirrors(captured: seq<Event>, later: seq<Event>)
    requires captured <= later
    ensures Mirrors(Full(captured), later)
  {
    assert later[..|captured|] == captured;
  }

  // A healthy feed is the log up to its watermark.
  lemma FeedIsFront(w: World)
    requires Healthy(w)
    ensures 0 <= Mark(w) <= |w.store.log| && w.feed == Full(Entries(w.store.log)[..Mark(w)])
  {
    var entries := Entries(w.store.log);
    var k :| 0 <= k <= |entries| && w.feed == Full(entries[..k]);
    FullFront(w.store.log, w.feed, k);
  }

  // A transaction brings the feed up to the capture it was made for, unless others are further.
  lemma RelayedMarks(w: World, captured: nat, link: Link)
    requires Healthy(w)
    ensures var v, m := Do(w, Relayed(captured, link)), if captured < |w.store.log| then captured else |w.store.log|;
            && Healthy(v) && v.store == w.store
            && Mark(v) == (if Applies(link) && Mark(w) < m then m else Mark(w))
            && (!Applies(link) ==> v == w)
  {
    hide Sync, Sound, Mirrors, Full, Entries, Mark, Front;
    var m := if captured < |w.store.log| then captured else |w.store.log|;
    if Mark(w) <= m {
      RelayedUp(w, captured, link);
    } else {
      RelayedLate(w, captured, link);
    }
  }

  lemma RelayedUp(w: World, captured: nat, link: Link)
    requires Healthy(w) && Mark(w) <= if captured < |w.store.log| then captured else |w.store.log|
    ensures var v, m := Do(w, Relayed(captured, link)), if captured < |w.store.log| then captured else |w.store.log|;
            && Healthy(v) && v.store == w.store && Mark(v) == (if Applies(link) then m else Mark(w))
            && (!Applies(link) ==> v == w)
  {
    var log, m := w.store.log, if captured < |w.store.log| then captured else |w.store.log|;
    FeedIsFront(w);
    hide Sync, Sound, Full, Rising, Mirrors, Entries, Watermark;
    FrontRises(log, captured);
    FrontMirrors(log, Mark(w), m);
    MirrorsSync(w.feed, Front(log, captured), link);
    FrontMirrors(log, m, |log|);
    FullFront(log, Full(Entries(log)[..m]), m);
    WholeFront(log);
  }

  lemma WholeFront(log: seq<Id>)
    ensures Entries(log)[..|log|] == Entries(log)
  {
  }

  lemma RelayedLate(w: World, captured: nat, link: Link)
    requires Healthy(w) && Mark(w) > if captured < |w.store.log| then captured else |w.store.log|
    ensures Do(w, Relayed(captured, link)) == w
  {
    FeedIsFront(w);
    hide Sync, Sound, Mirrors, Full, Entries;
    AheadSync(w.store.log, w.feed, if captured < |w.store.log| then captured else |w.store.log|, Mark(w), link);
  }

  lemma FrontRises(log: seq<Id>, n: nat)
    ensures Rising(Front(log, n)) && Front(log, n) <= Entries(log)
  {
  }

  lemma FrontMirrors(log: seq<Id>, k: nat, m: nat)
    requires k <= m <= |log|
    ensures Mirrors(Full(Entries(log)[..k]), Entries(log)[..m])
  {
    assert Entries(log)[..m][..k] == Entries(log)[..k];
  }

  // A transaction for a capture the feed is ahead of does nothing.
  lemma AheadSync(log: seq<Id>, feed: Projection, m: nat, k: nat, link: Link)
    requires m < k <= |log| && feed == Full(Entries(log)[..k])
    ensures Sync(feed, Entries(log)[..m], link) == Synced(feed, false)
  {
    EntriesRising(log);
    AheadProved(Entries(log)[..m], Entries(log), k);
  }

  lemma DoKeeps(w: World, d: Deed)
    requires Healthy(w)
    ensures Healthy(Do(w, d)) && w.store.log <= Do(w, d).store.log && Mark(w) <= Mark(Do(w, d))
  {
    hide Sound, Mirrors, Next, Sync;
    match d
    case Stored(step) =>
      SoundNext(w.store, step);
      StoreGrows(w, Next(w.store, step));
    case Relayed(captured, link) => RelayedMarks(w, captured, link);
  }

  // Whatever several clients do, the ledger stays sound, the feed a prefix of its log, the log only
  // grows and the watermark never falls.
  lemma {:induction false} DoAllKeeps(w: World, ds: seq<Deed>)
    requires Healthy(w)
    ensures Healthy(DoAll(w, ds)) && w.store.log <= DoAll(w, ds).store.log && Mark(w) <= Mark(DoAll(w, ds))
  {
    hide Healthy, Do, Mark;
    if ds != [] {
      DoAllKeeps(w, ds[..|ds| - 1]);
      DoKeeps(DoAll(w, ds[..|ds| - 1]), ds[|ds| - 1]);
      MarksCompare(w, DoAll(w, ds[..|ds| - 1]), DoAll(w, ds));
    }
  }

  lemma MarksCompare(a: World, b: World, c: World)
    requires Mark(a) <= Mark(b) <= Mark(c)
    ensures Mark(a) <= Mark(c)
  {
  }

  // ------------------------------------------------------------------ what reaches the feed

  // The j-th deed is an applied transaction whose capture holds the record at place i.
  predicate Covers(w: World, ds: seq<Deed>, j: nat, i: nat) {
    && j < |ds| && ds[j].Relayed? && Applies(ds[j].link)
    && i < ds[j].captured && i < |DoAll(w, ds[..j]).store.log|
  }

  // A place of the log is in the feed exactly when it was before, or an applied transaction of
  // some client covered it.
  lemma {:induction false} MarkAfter(w: World, ds: seq<Deed>, i: nat)
    requires Healthy(w)
    ensures i < Mark(DoAll(w, ds)) <==> i < Mark(w) || exists j :: Covers(w, ds, j, i)
  {
    if ds != [] {
      var n := |ds| - 1;
      var front, d, now := ds[..n], ds[n], DoAll(w, ds[..n]);
      hide Healthy, Do, Mark, DoAll;
      DoAllKeeps(w, front);
      MarkAfter(w, front, i);
      CoversFront(w, ds, i);
      DoAllLast(w, ds);
      LastMarks(now, d, i);
    }
  }

  lemma DoAllLast(w: World, ds: seq<Deed>)
    requires ds != []
    ensures DoAll(w, ds) == Do(DoAll(w, ds[..|ds| - 1]), ds[|ds| - 1])
  {
  }

  lemma LastMarks(w: World, d: Deed, i: nat)
    requires Healthy(w)
    ensures i < Mark(Do(w, d))
       <==> i < Mark(w) || (d.Relayed? && Applies(d.link) && i < d.captured && i < |w.store.log|)
  {
    match d
    case Stored(step) =>
    case Relayed(captured, link) => RelayedMarks(w, captured, link);
  }

  lemma CoversFront(w: World, ds: seq<Deed>, i: nat)
    requires ds != []
    ensures var n := |ds| - 1;
            (exists j :: Covers(w, ds, j, i))
            <==> (exists j :: Covers(w, ds[..n], j, i)) || Covers(w, ds, n, i)
  {
    var n := |ds| - 1;
    hide DoAll;
    forall j: nat | j < n ensures Covers(w, ds, j, i) <==> Covers(w, ds[..n], j, i) {
      assert ds[..n][..j] == ds[..j];
    }
  }

  predicate InFeed(p: Projection, r: Id) {
    exists e :: e in Events(p) && e.record == r
  }

  // The j-th deed is an applied transaction whose capture holds the record.
  predicate Appends(w: World, ds: seq<Deed>, j: nat, r: Id) {
    && j < |ds| && ds[j].Relayed? && Applies(ds[j].link)
    && exists i :: 0 <= i < ds[j].captured && i < |DoAll(w, ds[..j]).store.log| && DoAll(w, ds[..j]).store.log[i] == r
  }

  // A logged record is in the feed exactly when it was before, or an applied transaction of some
  // client, made on a capture that held the record, has put it there.
  lemma FeedAfter(w: World, ds: seq<Deed>, r: Id)
    requires Healthy(w) && r in DoAll(w, ds).store.log
    ensures InFeed(DoAll(w, ds).feed, r) <==> InFeed(w.feed, r) || exists j :: Appends(w, ds, j, r)
  {
    hide DoAll, Healthy, Mark, InFeed, Covers, Appends;
    var end := DoAll(w, ds);
    var i :| 0 <= i < |end.store.log| && end.store.log[i] == r;
    DoAllKeeps(w, ds);
    HealthyDistinct(end);
    MarkAfter(w, ds, i);
    PlaceInFeed(end, end.store.log, i);
    PlaceInFeed(w, end.store.log, i);
    CoversAppends(w, ds, i);
  }

  lemma HealthyDistinct(w: World)
    requires Healthy(w)
    ensures Distinct(w.store.log)
  {
    GroundedDistinct(w.store.log);
  }

  lemma CoversAppends(w: World, ds: seq<Deed>, i: nat)
    requires Healthy(w) && i < |DoAll(w, ds).store.log|
    ensures (exists j :: Covers(w, ds, j, i)) <==> exists j :: Appends(w, ds, j, DoAll(w, ds).store.log[i])
  {
    hide DoAll, Healthy;
    forall j: nat | j < |ds| ensures Covers(w, ds, j, i) <==> Appends(w, ds, j, DoAll(w, ds).store.log[i]) {
      PlaceAppends(w, ds, j, i);
    }
  }

  // The record at a place of a log is in an earlier feed exactly when the watermark had reached it.
  lemma PlaceInFeed(w: World, log: seq<Id>, i: nat)
    requires Healthy(w) && w.store.log <= log && Distinct(log) && i < |log|
    ensures InFeed(w.feed, log[i]) <==> i < Mark(w)
  {
    hide Healthy, Distinct, Mark;
    FeedIsFront(w);
    FullFront(w.store.log, w.feed, Mark(w));
    hide InFeed, Full, Entries;
    FrontHas(w.store.log, log, w.feed, Mark(w), i);
  }

  lemma FrontHas(before: seq<Id>, log: seq<Id>, feed: Projection, k: nat, i: nat)
    requires before <= log && Distinct(log) && i < |log| && k <= |before| && Events(feed) == Entries(before)[..k]
    ensures InFeed(feed, log[i]) <==> i < k
  {
    var front := Entries(before)[..k];
    hide Distinct;
    if i < k {
      assert front[i].record == log[i] && front[i] in front;
    }
    if InFeed(feed, log[i]) {
      var e :| e in front && e.record == log[i];
      var j :| 0 <= j < k && front[j] == e;
      DistinctAt(log, i, j);
    }
  }

  lemma PlaceAppends(w: World, ds: seq<Deed>, j: nat, i: nat)
    requires Healthy(w) && j < |ds| && i < |DoAll(w, ds).store.log|
    ensures Covers(w, ds, j, i) <==> Appends(w, ds, j, DoAll(w, ds).store.log[i])
  {
    hide DoAll, Mark, Healthy;
    var now, end := DoAll(w, ds[..j]), DoAll(w, ds);
    DoAllSplit(w, ds[..j], ds[j..]);
    assert ds[..j] + ds[j..] == ds;
    DoAllKeeps(w, ds[..j]);
    DoAllKeeps(now, ds[j..]);
    DoAllKeeps(w, ds);
    HealthyDistinct(end);
    PlaceKept(now.store.log, end.store.log, i, if ds[j].Relayed? then ds[j].captured else 0);
  }

  lemma PlaceKept(now: seq<Id>, end: seq<Id>, i: nat, n: nat)
    requires now <= end && Distinct(end) && i < |end|
    ensures i < n && i < |now| <==> exists k :: 0 <= k < n && k < |now| && now[k] == end[i]
  {
    hide Distinct;
    if k :| 0 <= k < n && k < |now| && now[k] == end[i] {
      DistinctAt(end, k, i);
    }
    if i < n && i < |now| {
      assert now[i] == end[i];
    }
  }

  // ------------------------------------------------------------------ one synchronization

  const ATTEMPTS: nat := 3

  // One attempt as it happens: what others do between the capture and the watch, the link, what
  // others do between the watch and the transaction, and whether a broken connection is reported
  // as a lost watch, which is for the Redis library to say.
  datatype Turn = Turn(before: seq<Deed>, link: Link, between: seq<Deed>, asWatch: bool)

  datatype Out = Settled | Again | Failed

  // The world after an attempt, and everything anybody did meanwhile.
  datatype Tried = Tried(world: World, deeds: seq<Deed>, out: Out)

  // _sync_attempt, on a log captured when it had so many records
  function Try(w: World, captured: nat, t: Turn): Tried {
    var watched := DoAll(w, t.before);
    var now := DoAll(watched, t.between);
    var others := t.before + t.between;
    var broken := if t.asWatch then Again else Failed;
    if t.link.Down? then Tried(now, others, broken)
    else
      match ProofOf(Front(watched.store.log, captured), watched.feed)
      case Broken(_) => Tried(now, others, Failed)
      case Proved(_, Ahead) => Tried(now, others, if captured < |now.store.log| then Again else Failed)
      case Proved(_, relation) =>
        if t.link.NoAppends? && !relation.Equal? then Tried(now, others, Failed)
        else if now.feed != watched.feed then Tried(now, others, if t.link.Up? || relation.Equal? then Again else broken)
        else if relation.Equal? then Tried(now, others, Settled)
        else
          var own := Relayed(captured, t.link);
          Tried(Do(now, own), others + [own], if t.link.Up? then Settled else broken)
  }

  datatype Ran = Ran(world: World, deeds: seq<Deed>, ok: bool)

  // The remaining attempts. Each captures the log anew; out of attempts, the loop gives up.
  function SyncFrom(w: World, captured: nat, turns: seq<Turn>): Ran
    decreases |turns|
  {
    if turns == [] then Ran(w, [], false)
    else
      var t := Try(w, captured, turns[0]);
      match t.out
      case Settled => Ran(t.world, t.deeds, true)
      case Failed => Ran(t.world, t.deeds, false)
      case Again =>
        var rest := SyncFrom(t.world, |t.world.store.log|, turns[1..]);
        Ran(rest.world, t.deeds + rest.deeds, rest.ok)
  }

  // sync
  method Synchronize(w: World, turns: seq<Turn>) returns (ran: Ran)
    requires |turns| == 3
    ensures ran == SyncFrom(w, |w.store.log|, turns)
  {
    hide Try;
    var world, deeds, captured: nat := w, [], |w.store.log|;
    ghost var whole := SyncFrom(w, captured, turns);
    for attempt := 0 to ATTEMPTS
      invariant var rest := SyncFrom(world, captured, turns[attempt..]);
                whole == Ran(rest.world, deeds + rest.deeds, rest.ok)
    {
      var t := Try(world, captured, turns[attempt]);
      NextTurn(world, captured, turns, attempt, deeds);
      world, deeds := t.world, deeds + t.deeds;
      match t.out {
        case Settled => return Ran(world, deeds, true);
        case Failed => return Ran(world, deeds, false);
        case Again => captured := |world.store.log|;
      }
    }
    assert deeds + [] == deeds;
    return Ran(world, deeds, false);
  }

  lemma NextTurn(w: World, captured: nat, turns: seq<Turn>, n: nat, deeds: seq<Deed>)
    requires n < |turns|
    ensures var now, t := SyncFrom(w, captured, turns[n..]), Try(w, captured, turns[n]);
            var rest := SyncFrom(t.world, |t.world.store.log|, turns[n + 1..]);
            && now == (match t.out
                       case Settled => Ran(t.world, t.deeds, true)
                       case Failed => Ran(t.world, t.deeds, false)
                       case Again => Ran(rest.world, t.deeds + rest.deeds, rest.ok))
            && deeds + (t.deeds + rest.deeds) == (deeds + t.deeds) + rest.deeds
  {
    hide Try;
    assert turns[n..][0] == turns[n] && turns[n..][1..] == turns[n + 1..];
  }

  // Somebody wrote to the projection between this attempt's capture and its transaction.
  predicate Disturbed(w: World, t: Turn) {
    DoAll(w, t.before).feed != w.feed || DoAll(DoAll(w, t.before), t.between).feed != DoAll(w, t.before).feed
  }

  // One attempt is what its deeds amount to. It settles with exactly the captured log in the feed;
  // over an open link it is tried again only when somebody disturbed it.
  lemma TryKeeps(w: World, captured: nat, t: Turn)
    requires Healthy(w) && captured <= |w.store.log|
    ensures var r := Try(w, captured, t);
            && r.world == DoAll(w, r.deeds) && Healthy(r.world)
            && w.store.log <= r.world.store.log && Mark(w) <= Mark(r.world)
            && (r.out.Settled? ==> Mark(r.world) == captured)
            && (t.link.Up? ==> !r.out.Failed?)
            && (t.link.Up? && captured == |w.store.log| && r.out.Again? ==> Disturbed(w, t))
  {
    hide DoAll, Do, Healthy, Mark, Try;
    TryDeeds(w, captured, t);
    DoAllKeeps(w, Try(w, captured, t).deeds);
    TryOut(w, captured, t);
  }

  lemma TryDeeds(w: World, captured: nat, t: Turn)
    ensures Try(w, captured, t).world == DoAll(w, Try(w, captured, t).deeds)
  {
    hide DoAll, Do, ProofOf, Front;
    DoAllSplit(w, t.before, t.between);
    OwnDeed(w, t.before + t.between, Relayed(captured, t.link));
  }

  lemma TryOut(w: World, captured: nat, t: Turn)
    requires Healthy(w) && captured <= |w.store.log|
    ensures var r := Try(w, captured, t);
            && (r.out.Settled? ==> Mark(r.world) == captured)
            && (t.link.Up? ==> !r.out.Failed?)
            && (t.link.Up? && captured == |w.store.log| && r.out.Again? ==> Disturbed(w, t))
  {
    hide DoAll, Do, Healthy, Mark, ProofOf, Front;
    var watched := DoAll(w, t.before);
    var now := DoAll(watched, t.between);
    DoAllKeeps(w, t.before);
    DoAllKeeps(watched, t.between);
    WatchedTells(watched, now, captured);
    MarkInside(w);
    SameMark(w, watched);
    SameMark(watched, now);
    if t.link.Up? {
      OwnMarks(now, captured, t.link);
    }
  }

  lemma OwnDeed(w: World, others: seq<Deed>, own: Deed)
    ensures DoAll(w, others + [own]) == Do(DoAll(w, others), own)
  {
    assert (others + [own])[..|others|] == others;
  }

  lemma MarkInside(w: World)
    requires Healthy(w)
    ensures Mark(w) <= |w.store.log|
  {
    FeedIsFront(w);
  }

  lemma SameMark(a: World, b: World)
    ensures a.feed == b.feed ==> Mark(a) == Mark(b)
  {
  }

  lemma OwnMarks(w: World, captured: nat, link: Link)
    requires Healthy(w) && Applies(link) && captured <= |w.store.log|
    ensures Mark(Do(w, Relayed(captured, link))) == if Mark(w) < captured then captured else Mark(w)
  {
    RelayedMarks(w, captured, link);
  }

  // What the proof finds at the watch
  lemma WatchedTells(w: World, now: World, captured: nat)
    requires Healthy(w) && captured <= |w.store.log| <= |now.store.log|
    ensures var proof := ProofOf(Front(w.store.log, captured), w.feed);
            && proof.Proved?
            && (proof.relation.Ahead? <==> captured < Mark(w))
            && (proof.relation.Equal? <==> Mark(w) == captured)
            && (proof.relation.Ahead? ==> captured < |now.store.log|)
  {
    hide ProofOf, Full, Rising, Sound, Mirrors, Entries, Mark;
    var log := w.store.log;
    FeedIsFront(w);
    EntriesRising(log);
    FrontRises(log, captured);
    if Mark(w) <= captured {
      FrontMirrors(log, Mark(w), captured);
      MirrorsProved(w.feed, Front(log, captured));
      WholeWhen(w, captured);
    } else {
      AheadProved(Entries(log)[..captured], Entries(log), Mark(w));
    }
  }

  lemma WholeWhen(w: World, captured: nat)
    requires Healthy(w) && captured <= |w.store.log|
    ensures w.feed == Full(Entries(w.store.log)[..captured]) <==> Mark(w) == captured
  {
    hide Full, Sound, Mirrors, Entries;
    FeedIsFront(w);
    FullFront(w.store.log, Full(Entries(w.store.log)[..captured]), captured);
  }

  // A synchronization is what its deeds amount to; success leaves in the feed all the log had when
  // it began, and exactly the log as it was captured for the attempt that succeeded.
  lemma {:induction false} SyncKeeps(w: World, captured: nat, turns: seq<Turn>)
    requires Healthy(w) && captured <= |w.store.log|
    ensures var r := SyncFrom(w, captured, turns);
            && r.world == DoAll(w, r.deeds) && Healthy(r.world)
            && w.store.log <= r.world.store.log && Mark(w) <= Mark(r.world)
            && (r.ok ==> captured <= Mark(r.world))
    decreases |turns|
  {
    hide Try, DoAll, Healthy, Mark;
    if turns == [] {
      NothingDone(w);
    } else {
      var t := Try(w, captured, turns[0]);
      TryKeeps(w, captured, turns[0]);
      if t.out.Again? {
        SyncKeeps(t.world, |t.world.store.log|, turns[1..]);
        var rest := SyncFrom(t.world, |t.world.store.log|, turns[1..]);
        DoAllSplit(w, t.deeds, rest.deeds);
        MarksCompare(w, t.world, rest.world);
      }
    }
  }

  lemma NothingDone(w: World)
    ensures DoAll(w, []) == w
  {
  }

  // Every attempt was disturbed.
  predicate AllDisturbed(w: World, turns: seq<Turn>)
    decreases |turns|
  {
    turns == []
    || (Disturbed(w, turns[0]) && AllDisturbed(Try(w, |w.store.log|, turns[0]).world, turns[1..]))
  }

  // Over an open link a synchronization fails only when somebody disturbed every attempt.
  lemma {:induction false} QuietSucceeds(w: World, turns: seq<Turn>)
    requires Healthy(w) && forall t | t in turns :: t.link.Up?
    ensures SyncFrom(w, |w.store.log|, turns).ok || AllDisturbed(w, turns)
    decreases |turns|
  {
    hide Try, DoAll, Healthy, Mark, Disturbed;
    if turns != [] {
      assert turns[0] in turns;
      TryKeeps(w, |w.store.log|, turns[0]);
      var t := Try(w, |w.store.log|, turns[0]);
      if t.out.Again? {
        QuietSucceeds(t.world, turns[1..]);
      }
    }
  }
}
