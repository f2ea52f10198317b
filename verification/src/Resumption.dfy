// Resuming a frozen request as the command does it: a synchronization first, then one row for each
// target, over links that may fail.

module Resumption {
  import opened Ledger
  import opened LedgerProofs
  import opened LedgerConfluence
  import opened LedgerKeys
  import opened LedgerRequests
  import opened FeedProofs
  import opened Workspace
  import opened WorkspaceProofs
  import opened Batch
  import opened BatchProofs
  import Json
  import RequestFiles
  import opened SavedRequests

  // Over any links, each row of a resumption tells what resuming in the ledger reports for its
  // target, unless the target was not attempted; without rows nothing is written.
  lemma ResumedByCommand(w: World, n: Naming, request: Saved, ahead: Link, links: seq<Links>)
    requires Healthy(w) && Valid(request) && |links| == |request.targets|
    ensures var c := Command(w, Transitions(n, request), Reassign, ahead, links);
            && Healthy(c.world)
            && (c.reports.None? ==> c.world.store == w.store)
            && (c.reports.Some? ==>
                  forall k | 0 <= k < |request.targets| :: Tells(c.reports.value[k], Reports(w.store, n, request)[k]))
  {
    hide Through, Command, Full, Healthy, Publish, Tells, OnePerContract, Transitions, Verdicts;
    var batch := Transitions(n, request);
    TransitionsApart(n, request);
    CommandKeeps(w, batch, Reassign, ahead, links);
    if Command(w, batch, Reassign, ahead, links).reports.Some? {
      var start := World(w.store, Full(Entries(w.store.log)));
      BatchPublishes(start, batch, Reassign, links);
      SoundThere(w);
      BatchSettles(w.store, batch, Reassign);
    }
  }

  lemma SoundThere(w: World)
    requires Healthy(w)
    ensures Sound(w.store)
  {
  }

  // A request resumed in an outage, with or without rows, and resumed again over a restored link
  // ends with the histories and the records of resuming it once undisturbed, and every target is
  // finished with the report it would have had.
  lemma ResumedThroughOutage(
    w: World, n: Naming, request: Saved, ahead: Link, links: seq<Links>, restored: seq<Links>)
    requires Healthy(w) && Valid(request) && |links| == |request.targets| && |restored| == |request.targets|
    requires forall l | l in restored :: l == Links(Up, Up)
    ensures var batch := Transitions(n, request);
            var c := Command(w, batch, Reassign, ahead, links);
            var q := Command(c.world, batch, Reassign, Up, restored);
            var u := Resume(w.store, n, request);
            && q.reports.Some?
            && (forall d :: History(q.world.store.log, d) == History(u.log, d))
            && multiset(q.world.store.log) == multiset(u.log)
            && forall k | 0 <= k < |request.targets| ::
                 !Unfinished(q.reports.value[k]) && Tells(q.reports.value[k], Reports(w.store, n, request)[k])
  {
    hide Through, Command, Full, Healthy, Publish, Tells, Unfinished, OnePerContract, Transitions, Verdicts, PublishAll;
    var batch := Transitions(n, request);
    TransitionsApart(n, request);
    RecoveryByCommand(w, batch, Reassign, ahead, links, batch, restored);
    SoundThere(w);
    BatchSettles(w.store, batch, Reassign);
  }

  // ------------------------------------------------------------------ the commands

  datatype Resumed =
    | NotSaved
    | NoRedis
    | Emitted(envelope: Envelope)

  // A request is prepared in one state of the ledger and saved, others are saved after it, and the
  // resume command is run on the store and the feed as they are by then: what it emits is the
  // command on the frozen transitions.
  method PrepareThenResume(
    directory: RequestFiles.RequestDirectory, n: Naming, ident: string -> Id, place: Place, s: State,
    targets: seq<string>, worker: string, reason: string, base: string, others: seq<Json.Json>, store: Store,
    redis: Redis, ahead: Link, links: seq<Links>)
    returns (resumed: Resumed)
    requires directory.hash == n.hash && directory.path == place.path
    requires var p := Prepare(s, targets, worker, reason, base); p.Frozen? ==> NamesBack(n, ident, p.request)
    requires |links| == |targets| && Orderly(redis.Contents())
    modifies directory`files, store, redis
    ensures forall id | id in old(directory.files) :: id in directory.files && directory.files[id] == old(directory.files)[id]
    ensures var p, was := Prepare(s, targets, worker, reason, base), old(Now(store, redis));
            && (resumed.NotSaved? <==> !CanSave(n, place, |s.log|, old(directory.files), p))
            && (resumed.NotSaved? ==> Now(store, redis) == was)
            && (!resumed.NotSaved? ==>
                  && Valid(p.request) && |p.request.targets| == |links|
                  && var batch := Transitions(n, p.request);
                     var c := Command(was, batch, Reassign, ahead, links);
                     && Now(store, redis) == c.world
                     && (resumed.NoRedis? <==> c.reports.None?)
                     && (resumed.Emitted? ==> resumed.envelope == Summary(p.request.base, Rows(batch, c.reports.value))))
  {
    hide Command, Orderly, CanSave, NamesBack, Heads, Summary, Rows, Transitions;
    var again := PrepareThenLoad(directory, n, ident, place, s, targets, worker, reason, base, others);
    if again.None? {
      return NotSaved;
    }
    var batch := Transitions(n, again.value);
    var envelope := RunCommand(store, redis, again.value.base, batch, Reassign, ahead, links);
    return match envelope
           case None => NoRedis
           case Some(e) => Emitted(e);
  }
}
