// Where a promise fails, an input at which it does: each failure for a whole family of workspaces,
// and at one workspace that is reached from the empty one.

module Counterexamples {
  import opened Wrappers
  import opened Ledger
  import opened LedgerProofs
  import opened LedgerProvenance
  import opened LedgerOutcomes
  import opened LedgerConfluence
  import opened LedgerRequests
  import opened Feed
  import opened FeedProofs
  import opened Workspace
  import opened WorkspaceProofs
  import opened Batch
  import opened BatchProofs
  import opened Contention
  import opened Sharing
  import opened Oracles

  // ------------------------------------------------------------------ a reached workspace

  const FIRST := Candidate(Intent("t", "a", NONE, "r"), "k")

  // A task declared, two workers registered, and the task assigned to one of them.
  function Reached(): World {
    After(START, Beginning() + [Publication(FIRST, Assign, Links(Up, Up))])
  }

  function Beginning(): seq<Happening> {
    var offer := Offer(true, {}, {});
    [Local(Declare("t", {}, {})), Local(Register("a", "1", offer)), Local(Register("b", "1", offer))]
  }

  lemma BeginningStore()
    ensures After(START, Beginning()) == World(Run(EMPTY, Opening()), BLANK)
  {
    var steps, es := Opening(), Beginning();
    hide Next, Sound;
    assert es[..2][..1][..0] == [] && steps[..2][..1][..0] == [];
    assert After(START, []) == START && Run(EMPTY, []) == EMPTY;
    assert After(START, es[..2][..1]) == World(Run(EMPTY, steps[..2][..1]), BLANK);
    assert After(START, es[..2]) == World(Run(EMPTY, steps[..2]), BLANK);
  }

  lemma ReachedStore()
    ensures Reached() == Attempt(World(Run(EMPTY, Opening()), BLANK), FIRST, Assign, Links(Up, Up)).world
    ensures Healthy(Reached())
  {
    var es, e := Beginning(), Publication(FIRST, Assign, Links(Up, Up));
    hide Healthy, Attempt, Run, Opening, Beginning;
    assert (es + [e])[..|es|] == es && (es + [e])[|es|] == e;
    BeginningStore();
    StartHealthy();
    RunHealthy(START, es + [e]);
  }

  lemma ReachedFacts()
    ensures var w, s := Reached(), Reached().store;
            && Healthy(w) && w.feed == Full(Entries(s.log))
            && s == Publish(Run(EMPTY, Opening()), FIRST, Assign).state
            && IsCommitted(s.log, FIRST) && Recorded(s.log, FIRST.intent)
            && Assignable(s, "t", "b") && Head(s.log, "t") != NONE && CurrentWorker(s.log, "t") == "a"
  {
    hide Run, Opening, Sound, Mirrors, Publish, Assignable, Preflight, Recorded;
    hide History, FactOf, IsCommitted, Full, Attempt;
    ReachedStore();
    ResumeMayWriteInARun();
    var start := World(Run(EMPTY, Opening()), BLANK);
    StartedHealthy();
    FirstAccepted(start.store);
    AttemptKeeps(start, FIRST, Assign, Links(Up, Up));
    UpFinishes(start, FIRST, Assign);
    PublishKeeps(start.store, FIRST, Assign);
    CommittedRecorded(Reached().store, FIRST);
  }

  lemma StartedHealthy()
    ensures Healthy(World(Run(EMPTY, Opening()), BLANK))
  {
    hide Healthy, Run, Opening;
    BeginningStore();
    StartHealthy();
    RunHealthy(START, Beginning());
  }

  lemma FirstAccepted(s: State)
    requires s == Run(EMPTY, Opening())
    ensures Sound(s) && Publish(s, FIRST, Assign).verdict.Done?
  {
    hide Run, Opening, Sound, Publish, Assignable, Preflight, Recorded, History, Caused, FactOf, IsCommitted;
    KeyAcceptedTwiceInARun();
    FirstAssignment(s, "t", "a");
    AssignableNow(s, FIRST.intent, Assign);
    Fresh(s, FIRST, Assign);
  }

  // ------------------------------------------------------------------ small batches

  lemma ThroughOne(w: World, c: Candidate, mode: Mode, l: Links)
    ensures var a := Attempt(w, c, mode, l);
            Through(w, [c], mode, [l]) == Progress(a.world, [a.report])
  {
    hide Attempt;
    assert [c][..0] == [] && [l][..0] == [];
    assert Through(w, [], mode, []) == Progress(w, []);
  }

  lemma ThroughTwo(w: World, c: Candidate, d: Candidate, mode: Mode, l: Links, m: Links)
    requires !Attempt(w, c, mode, l).report.Internal?
    ensures var a := Attempt(w, c, mode, l);
            var b := Attempt(a.world, d, mode, m);
            Through(w, [c, d], mode, [l, m]) == Progress(b.world, [a.report, b.report])
  {
    hide Attempt;
    ThroughOne(w, c, mode, l);
    assert [c, d][..1] == [c] && [l, m][..1] == [l];
  }

  // What is published over a link that goes down before the second synchronization.
  lemma DownAfter(w: World, c: Candidate, mode: Mode)
    requires Healthy(w)
    ensures var a, o := Attempt(w, c, mode, Links(Up, Down)), Publish(w.store, c, mode);
            && Healthy(a.world) && a.world.store == o.state
            && (o.verdict.Done? ==> a.report == Pending(o.verdict.fact))
            && (o.verdict.Reject? ==> a.report == Report.Rejected(o.verdict.conflict, true))
            && !a.report.Internal?
  {
    hide Sync, Full, Sound, Mirrors, Publish, Preflight;
    var o, first := Publish(w.store, c, mode), Relay(w, Up);
    RelayKeeps(w, Up);
    AttemptKeeps(w, c, mode, Links(Up, Down));
    PublishKeeps(w.store, c, mode);
    PreflightPublish(w.store, c, mode);
    StoreGrows(World(w.store, first.projection), o.state);
    RelayKeeps(World(o.state, first.projection), Down);
  }

  // ------------------------------------------------------------------ the batch check

  // A transition recorded under another key and a link that goes down: the batch reports a durable
  // rejection with the relay pending, and the check of batch results refuses what it reports.
  lemma StaleWhilePending(w: World, c: Candidate, mode: Mode, base: string, success: bool)
    requires Healthy(w) && Declaration(w.store.log, c.intent.contract).Some?
    requires Recorded(w.store.log, c.intent) && !IsCommitted(w.store.log, c)
    ensures var p := Through(w, [c], mode, [Links(Up, Down)]);
            && p.reports == [Report.Rejected(Stale, true)]
            && !BatchFits(Summary(base, Rows([c], p.reports)), Contracts([c]), Requested([c]), c.intent.worker,
                          c.intent.reason, Some(base), success)
  {
    hide Healthy, Publish, Attempt, Declaration, Recorded, IsCommitted, Through;
    hide BatchFits, Summary, Rows, Contracts, Requested;
    ThroughOne(w, c, mode, Links(Up, Down));
    DownAfter(w, c, mode);
    StaleThere(w, c, mode);
    BatchVerdict(w, base, [c], mode, [Links(Up, Down)], c.intent.worker, c.intent.reason, success);
    assert Through(w, [c], mode, [Links(Up, Down)]).reports[0] == Report.Rejected(Stale, true);
  }

  lemma StaleThere(w: World, c: Candidate, mode: Mode)
    requires Healthy(w) && Declaration(w.store.log, c.intent.contract).Some?
    requires Recorded(w.store.log, c.intent) && !IsCommitted(w.store.log, c)
    ensures Publish(w.store, c, mode).verdict == Reject(Stale)
  {
    OtherKey(w.store, c, mode);
  }

  lemma StaleWhilePendingReached()
    ensures var w, c := Reached(), Candidate(FIRST.intent, "l");
            && Healthy(w) && Declaration(w.store.log, "t").Some?
            && Recorded(w.store.log, c.intent) && !IsCommitted(w.store.log, c)
  {
    var w, c := Reached(), Candidate(FIRST.intent, "l");
    hide Reached, Publish, Run, Opening, Assignable;
    ReachedFacts();
    CommittedRecorded(w.store, FIRST);
    if IsCommitted(w.store.log, c) {
      CommittedRecorded(w.store, c);
      ReplacedOnce(w.store.log, "t", FactOf(w.store.log, c).value);
    }
  }

  // ------------------------------------------------------------------ the pending check

  // An accepted clear is appended exactly as asked, and the check of a pending projection refuses
  // it.
  lemma ClearRefused(s: State, c: Candidate)
    requires Sound(s) && !Recorded(s.log, c.intent) && Admissible(s, c.intent, Reassign) && c.intent.worker == ""
    ensures var o, t := Publish(s, c, Reassign), c.intent.contract;
            && o.verdict.Done? && IsMember(c, o.verdict.fact)
            && History(o.state.log, t) == History(s.log, t) + [o.verdict.fact]
            && !PendingFits(Views(s.log, [t]), Views(o.state.log, [t]), [t], t, t, ItemOf(o.verdict.fact))
  {
    hide Publish, Preflight, Recorded, PendingFits, Views;
    AcceptedExactly(s, c, Reassign);
    Fresh(s, c, Reassign);
    DoneFact(s, c, Reassign);
    var o, t := Publish(s, c, Reassign), c.intent.contract;
    PendingVerdict(s, o.state, [t], t, o.verdict.fact);
  }

  lemma ClearRefusedReached()
    ensures var s := Reached().store;
            var c := Candidate(Intent("t", "", Head(s.log, "t"), "r"), "k");
            Sound(s) && !Recorded(s.log, c.intent) && Admissible(s, c.intent, Reassign)
  {
    hide Reached, Publish, Run, Opening, Recorded, Sound, History;
    ReachedFacts();
    var s := Reached().store;
    NotRecordedAtHead(s, Intent("t", "", Head(s.log, "t"), "r"));
  }

  // ------------------------------------------------------------------ provenance

  // Registering a worker anew makes the provenance script refuse every fact that named it before.
  lemma RegisteredAnew(s: State, f: Id, version: string, offer: Offer)
    requires Sound(s) && Logged(s.log, f) && f.body.worker != ""
    requires VersionFree(s.log, f.body.worker, version, offer)
    requires Record(Registered(f.body.worker, version, offer), []) !in f.parents
    ensures !Provenance(Next(s, Register(f.body.worker, version, offer)), f)
  {
    hide Sound, Provenance, VersionFree;
    SoundNext(s, Register(f.body.worker, version, offer));
    FactProvenance(Next(s, Register(f.body.worker, version, offer)), f);
  }

  lemma RegisteredAnewReached()
    ensures var s := Reached().store;
            var f := Head(s.log, "t");
            && Logged(s.log, f) && f.body.worker == "a" && Provenance(s, f)
            && !Provenance(Next(s, Register("a", "2", Offer(true, {}, {}))), f)
  {
    var s, offer := Reached().store, Offer(true, {}, {});
    var f := Head(s.log, "t");
    hide Reached, Provenance, Sound, VersionFree, Next;
    ReachedFacts();
    ReachedHead();
    FactProvenance(s, f);
    RegisteredAnew(s, f, "2", offer);
  }

  // The fact relies on the first registration of its worker, and no second version is there.
  lemma ReachedHead()
    ensures var s, offer := Reached().store, Offer(true, {}, {});
            var f := Head(s.log, "t");
            && Logged(s.log, f) && f.body.worker == "a"
            && "a" in s.registrations && s.registrations["a"] in f.parents
            && VersionFree(s.log, "a", "2", offer)
            && Record(Registered("a", "2", offer), []) !in f.parents
  {
    var start, s, offer := Run(EMPTY, Opening()), Reached().store, Offer(true, {}, {});
    hide Reached, Run, Opening, Publish, Preflight, Decide, Recorded, IsCommitted, FactOf, Sound, Assignable;
    ReachedFacts();
    Opened();
    FirstFact();
    Standing(start, FIRST, Assign, "t");
    VersionsThere(start, s);
  }

  lemma FirstFact()
    ensures var start, s := Run(EMPTY, Opening()), Reached().store;
            var f := Head(s.log, "t");
            && Sound(start) && Logged(s.log, f) && f.body.worker == "a"
            && "a" in start.registrations && start.registrations["a"] in f.parents
            && forall p | p in f.parents && IsRegistration(p, "a") :: p == start.registrations["a"]
  {
    var start := Run(EMPTY, Opening());
    hide Reached, Run, Opening, Sound, Assignable, Preflight, Recorded, History, Caused, FactOf, IsCommitted;
    ReachedFacts();
    KeyAcceptedTwiceInARun();
    FirstAssignment(start, "t", "a");
    AssignableNow(start, FIRST.intent, Assign);
    FactRelies(start, FIRST, Assign);
  }

  // A fact newly accepted relies on the registration its worker has then.
  lemma FactRelies(s: State, c: Candidate, mode: Mode)
    requires Sound(s) && !Recorded(s.log, c.intent) && Preflight(s, c.intent, mode) == None && c.intent.worker != ""
    ensures var o := Publish(s, c, mode);
            var f := Head(o.state.log, c.intent.contract);
            && Logged(o.state.log, f) && f.body.worker == c.intent.worker
            && c.intent.worker in s.registrations && s.registrations[c.intent.worker] in f.parents
            && forall p | p in f.parents && IsRegistration(p, c.intent.worker) :: p == s.registrations[c.intent.worker]
  {
    hide Sound, Preflight, Publish, Recorded, Caused, History, IsCommitted, FactOf, IsRegistration;
    Fresh(s, c, mode);
    var o := Publish(s, c, mode);
    FactSays(o.verdict.fact, c);
    HeadIsLast(s.log, o.state.log, c.intent.contract, o.verdict.fact);
    BuiltOn(s, c, mode);
    ParentKinds(o.verdict.fact);
  }

  lemma HeadIsLast(before: seq<Id>, now: seq<Id>, contract: string, f: Id)
    requires History(now, contract) == History(before, contract) + [f]
    ensures Head(now, contract) == f && f in now
  {
    HistoryMembers(now, contract);
    assert f in History(now, contract);
  }

  lemma BuiltOn(s: State, c: Candidate, mode: Mode)
    requires Sound(s) && !Recorded(s.log, c.intent) && Preflight(s, c.intent, mode) == None && c.intent.worker != ""
    ensures var f := Publish(s, c, mode).verdict;
            && c.intent.worker in s.registrations && IsRegistration(s.registrations[c.intent.worker], c.intent.worker)
            && f.Done? && f.fact.Record? && s.registrations[c.intent.worker] in f.fact.parents
  {
    hide Caused, Kept, FactOf, Recorded, Publish;
    Published(s, c, mode);
  }

  lemma Published(s: State, c: Candidate, mode: Mode)
    requires Sound(s) && !Recorded(s.log, c.intent) && Preflight(s, c.intent, mode) == None
    ensures Declaration(s.log, c.intent.contract).Some?
    ensures Publish(s, c, mode).verdict == Done(Fact(s, Declaration(s.log, c.intent.contract).value, c))
  {
    var declaration := Declaration(s.log, c.intent.contract).value;
    if IsCommitted(s.log, c) {
      CommittedRecorded(s, c);
      assert false;
    }
    assert Decide(s, c) == Decision.Accepted(Fact(s, declaration, c));
    hide Sound, Caused, Recorded, Fact, Objection, History;
    AcceptedStays(s, c, Fact(s, declaration, c));
  }

  lemma VersionsThere(start: State, s: State)
    requires start == Run(EMPTY, Opening()) && Sound(start) && s == Publish(start, FIRST, Assign).state
    ensures VersionFree(s.log, "a", "2", Offer(true, {}, {}))
  {
    hide Run, Opening, Publish, Sound;
    Opened();
    WritesState(start, FIRST, Assign);
    WritesKinds(start, FIRST, Assign);
    AddAllExtends(start.log, Writes(start, FIRST, Assign));
  }

  // ------------------------------------------------------------------ outages

  // After a pending row a target whose preflight objects is refused, not left unattempted.
  lemma RefusedAfterPending(w: World, c: Candidate, d: Candidate, mode: Mode)
    requires Healthy(w) && !Recorded(w.store.log, c.intent) && Admissible(w.store, c.intent, mode)
    requires Declaration(w.store.log, d.intent.contract).None?
    ensures var links := [Links(Up, Down), Links(Down, Down)];
            && Failing(links)
            && var reports := Through(w, [c, d], mode, links).reports;
               reports[0].Pending? && reports[1] == Report.Refused(NotFound)
  {
    hide Sound, Mirrors, Publish, Attempt, Through, Recorded, Admissible, Preflight, Declaration;
    DownAfter(w, c, mode);
    ThroughTwo(w, c, d, mode, Links(Up, Down), Links(Down, Down));
    AcceptedUndeclared(w.store, c, d, mode);
    Undeclared(Attempt(w, c, mode, Links(Up, Down)).world, d, mode);
  }

  lemma AcceptedUndeclared(s: State, c: Candidate, d: Candidate, mode: Mode)
    requires Sound(s) && !Recorded(s.log, c.intent) && Admissible(s, c.intent, mode)
    requires Declaration(s.log, d.intent.contract).None?
    ensures Publish(s, c, mode).verdict.Done?
    ensures Declaration(Publish(s, c, mode).state.log, d.intent.contract).None?
  {
    hide Publish, Recorded, Admissible, Preflight;
    AcceptedExactly(s, c, mode);
    Standing(s, c, mode, d.intent.contract);
  }

  lemma Undeclared(w: World, d: Candidate, mode: Mode)
    requires Declaration(w.store.log, d.intent.contract).None?
    ensures Attempt(w, d, mode, Links(Down, Down)).report == Report.Refused(NotFound)
  {
  }

  // A reassignment to the other worker is admissible there, and another task is not declared.
  lemma OutagesReached()
    ensures var w := Reached();
            var c := Candidate(Intent("t", "b", Head(w.store.log, "t"), "r"), "m");
            && Healthy(w) && w.feed == Full(Entries(w.store.log)) && IsCommitted(w.store.log, FIRST)
            && !Recorded(w.store.log, c.intent) && Admissible(w.store, c.intent, Reassign)
            && Declaration(w.store.log, "u").None?
  {
    hide Reached, Publish, Run, Opening, Recorded, Sound, History, Full, IsCommitted;
    ReachedFacts();
    var s, start := Reached().store, Run(EMPTY, Opening());
    NotRecordedAtHead(s, Intent("t", "b", Head(s.log, "t"), "r"));
    FirstAccepted(start);
    Standing(start, FIRST, Assign, "u");
    Opened();
  }

  // So is a batch of new admissible transitions.
  lemma FreshBatchReached()
    ensures var w := Reached();
            Healthy(w) && AllFresh(w.store, [Candidate(Intent("t", "b", Head(w.store.log, "t"), "r"), "m")], Reassign)
  {
    hide Reached, Recorded, Admissible, Sound, Mirrors;
    OutagesReached();
  }

  // ------------------------------------------------------------------ other clients

  // The workspace just after a new transition was committed, with everything before it relayed.
  function CommittedWorld(w: World, c: Candidate, mode: Mode): World {
    World(Publish(w.store, c, mode).state, Full(Entries(w.store.log)))
  }

  lemma CommittedFacts(w: World, c: Candidate, mode: Mode)
    requires Healthy(w) && !Recorded(w.store.log, c.intent) && Admissible(w.store, c.intent, mode)
    ensures var committed, o := CommittedWorld(w, c, mode), Publish(w.store, c, mode);
            && Healthy(committed) && Mark(committed) == |w.store.log|
            && |w.store.log| < |committed.store.log|
            && o.verdict.Done? && o.verdict.fact !in w.store.log && o.verdict.fact in committed.store.log
            && FactOf(committed.store.log, c) == Some(o.verdict.fact)
            && Preflight(w.store, c.intent, mode) == None
            && o.state == Ledger.Commit(w.store, c) && !Decide(w.store, c).Refused?
  {
    hide Sound, Mirrors, Sync, Recorded, Admissible, FactOf, Caused, IsCommitted, History, Full, Entries, Objection;
    AcceptedExactly(w.store, c, mode);
    Fresh(w.store, c, mode);
    PublishKeeps(w.store, c, mode);
    RelayKeeps(w, Up);
    CaughtUp(w, Up);
    StoreGrows(World(w.store, Relay(w, Up).projection), Publish(w.store, c, mode).state);
    PendingFact(w.store, c, mode);
    SameMark(World(w.store, Relay(w, Up).projection), CommittedWorld(w, c, mode));
  }

  // A publication of a new transition with nobody else up to its commitment.
  lemma CommittedAlone(w: World, c: Candidate, mode: Mode, after: seq<Deed>, second: seq<Turn>)
    requires Healthy(w) && !Recorded(w.store.log, c.intent) && Admissible(w.store, c.intent, mode)
    ensures var a := Share(w, c, mode, Schedule([], Same(Up), [], after, second));
            var later := DoAll(CommittedWorld(w, c, mode), after);
            var ran := SyncFrom(later, |later.store.log|, second);
            && a.world == ran.world && Publish(w.store, c, mode).verdict.Done?
            && (!ran.ok ==> a.report == Pending(Publish(w.store, c, mode).verdict.fact))
  {
    hide Healthy, SyncFrom, Recorded, Admissible, FactOf, Preflight, Full, Entries, Publish, Decide, Ledger.Commit;
    hide Share, Same, DoAll, Mark, Do, Answer;
    CommittedFacts(w, c, mode);
    FirstAlone(w);
    NothingDone(w);
    NothingDone(World(w.store, Full(Entries(w.store.log))));
    ShareCommits(w, c, mode, Schedule([], Same(Up), [], after, second));
    CommitDeed(w.store, Full(Entries(w.store.log)), c);
    AnswerPending(Decide(w.store, c), CommittedWorld(w, c, mode).store.log, c);
  }

  lemma CommitDeed(s: State, feed: Projection, c: Candidate)
    ensures Do(World(s, feed), Stored(Submit(c))) == World(Ledger.Commit(s, c), feed)
  {
  }

  lemma AnswerPending(decision: Decision, log: seq<Id>, c: Candidate)
    ensures !decision.Refused? && FactOf(log, c).Some? ==> Answer(decision, log, c, false) == Pending(FactOf(log, c).value)
  {
  }

  lemma FirstAlone(w: World)
    requires Healthy(w)
    ensures var r := SyncFrom(w, |w.store.log|, Same(Up));
            r.ok && r.world == World(w.store, Full(Entries(w.store.log)))
  {
    hide Healthy, SyncFrom;
    SameIsRelay(w, Up);
    RelayKeeps(w, Up);
  }

  // Another client relays the log just after the commitment, and then the link goes down: the fact
  // is reported pending although the feed has it, and this client has confirmed or lost nothing.
  lemma RelayedByAnother(w: World, c: Candidate, mode: Mode, captured: nat)
    requires Healthy(w) && !Recorded(w.store.log, c.intent) && Admissible(w.store, c.intent, mode)
    requires captured >= |Publish(w.store, c, mode).state.log|
    ensures var a := Share(w, c, mode, Schedule([], Same(Up), [], [Relayed(captured, Up)], Same(Down)));
            a.report.Pending? && a.report.fact !in w.store.log && InFeed(a.world.feed, a.report.fact)
  {
    hide Healthy, SyncFrom, Recorded, Admissible, Publish, Full, Share, Mark, InFeed, Do;
    CommittedFacts(w, c, mode);
    CommittedAlone(w, c, mode, [Relayed(captured, Up)], Same(Down));
    var committed := CommittedWorld(w, c, mode);
    var later := Do(committed, Relayed(captured, Up));
    OneDeed(committed, Relayed(captured, Up));
    RelayedMarks(committed, captured, Up);
    SameIsRelay(later, Down);
    RelayKeeps(later, Down);
    WholeFeed(later, Publish(w.store, c, mode).verdict.fact);
    assert World(later.store, later.feed) == later;
  }

  lemma OneDeed(w: World, d: Deed)
    ensures DoAll(w, [d]) == Do(w, d)
  {
    assert [d][..0] == [];
    assert DoAll(w, []) == w;
  }

  lemma TwoDeeds(w: World, d: Deed, e: Deed)
    ensures DoAll(w, [d, e]) == Do(Do(w, d), e)
  {
    assert [d, e][..1] == [d];
    OneDeed(w, d);
  }

  lemma WholeFeed(w: World, r: Id)
    requires Healthy(w) && Mark(w) >= |w.store.log| && r in w.store.log
    ensures InFeed(w.feed, r)
  {
    var i :| 0 <= i < |w.store.log| && w.store.log[i] == r;
    HealthyDistinct(w);
    PlaceInFeed(w, w.store.log, i);
  }

  // An attempt in the middle of which another client writes to the projection is tried again.
  lemma DisturbedTurn(w: World, ds: seq<Deed>)
    requires Healthy(w) && DoAll(w, ds).feed != w.feed
    ensures var t := Try(w, |w.store.log|, Turn([], Up, ds, false));
            t.out.Again? && t.world == DoAll(w, ds)
  {
    hide Healthy, DoAll, ProofOf, Front;
    NothingDone(w);
    WatchedTells(w, w, |w.store.log|);
    MarkInside(w);
  }

  // Another client ends a contract and relays the log: the feed changes, and is whole.
  lemma EndedAndRelayed(w: World, contract: string, captured: nat)
    requires Healthy(w) && Record(Terminal(contract), []) !in w.store.log && Mark(w) == |w.store.log|
    requires captured > |w.store.log|
    ensures var v := DoAll(w, [Stored(Terminate(contract)), Relayed(captured, Up)]);
            && Healthy(v) && v.feed != w.feed && Mark(v) == |v.store.log|
            && v.store.log == w.store.log + [Record(Terminal(contract), [])]
  {
    hide Healthy, Mark, Sync;
    TwoDeeds(w, Stored(Terminate(contract)), Relayed(captured, Up));
    var u := Do(w, Stored(Terminate(contract)));
    DoKeeps(w, Stored(Terminate(contract)));
    SameMark(w, u);
    RelayedMarks(u, captured, Up);
    SameMark(w, Do(u, Relayed(captured, Up)));
  }

  // Every link is open, and yet a new fact is reported pending although the feed has it: others
  // relay it, and go on committing and relaying, between the watch and the transaction of each of
  // the three attempts.
  lemma ContendedPending(w: World, c: Candidate, mode: Mode, x: string, y: string, captured: nat)
    requires Healthy(w) && !Recorded(w.store.log, c.intent) && Admissible(w.store, c.intent, mode)
    requires x != y && captured > |Publish(w.store, c, mode).state.log| + 1
    requires Record(Terminal(x), []) !in Publish(w.store, c, mode).state.log
    requires Record(Terminal(y), []) !in Publish(w.store, c, mode).state.log
    ensures var turns := [Turn([], Up, [Relayed(captured, Up)], false),
                          Turn([], Up, [Stored(Terminate(x)), Relayed(captured, Up)], false),
                          Turn([], Up, [Stored(Terminate(y)), Relayed(captured, Up)], false)];
            var a := Share(w, c, mode, Schedule([], Same(Up), [], [], turns));
            a.report.Pending? && a.report.fact !in w.store.log && InFeed(a.world.feed, a.report.fact)
  {
    hide Healthy, Recorded, Admissible, Publish, Full, Share, Mark, InFeed, Do, Try, DoAll;
    var first, second := [Relayed(captured, Up)], [Stored(Terminate(x)), Relayed(captured, Up)];
    var third := [Stored(Terminate(y)), Relayed(captured, Up)];
    var turns := [Turn([], Up, first, false), Turn([], Up, second, false), Turn([], Up, third, false)];
    CommittedFacts(w, c, mode);
    CommittedAlone(w, c, mode, [], turns);
    var committed := CommittedWorld(w, c, mode);
    NothingDone(committed);
    OneDeed(committed, Relayed(captured, Up));
    RelayedMarks(committed, captured, Up);
    var one := DoAll(committed, first);
    SameMark(committed, one);
    DisturbedTurn(committed, first);
    EndedAndRelayed(one, x, captured);
    DisturbedTurn(one, second);
    var two := DoAll(one, second);
    EndedAndRelayed(two, y, captured);
    DisturbedTurn(two, third);
    ThreeTurns(committed, turns, one, two, DoAll(two, third));
    WholeFeed(DoAll(two, third), Publish(w.store, c, mode).verdict.fact);
  }

  lemma ThreeTurns(w: World, turns: seq<Turn>, one: World, two: World, three: World)
    requires |turns| == 3
    requires var t := Try(w, |w.store.log|, turns[0]); t.out.Again? && t.world == one
    requires var t := Try(one, |one.store.log|, turns[1]); t.out.Again? && t.world == two
    requires var t := Try(two, |two.store.log|, turns[2]); t.out.Again? && t.world == three
    ensures var r := SyncFrom(w, |w.store.log|, turns); !r.ok && r.world == three
  {
    hide Try;
    var rest := turns[1..];
    assert rest[0] == turns[1] && rest[1..][0] == turns[2] && rest[1..][1..] == [];
    assert SyncFrom(three, |three.store.log|, []) == Ran(three, [], false);
    assert SyncFrom(two, |two.store.log|, rest[1..]).world == three;
    assert SyncFrom(one, |one.store.log|, rest).world == three;
  }

  // No contract has ended in the reached workspace.
  lemma NothingEndedReached(contract: string)
    ensures var w := Reached();
            var c := Candidate(Intent("t", "b", Head(w.store.log, "t"), "r"), "m");
            Record(Terminal(contract), []) !in Publish(w.store, c, Reassign).state.log
  {
    hide Reached, Publish, Run, Opening, Recorded, Sound, History, Full, IsCommitted, Assignable;
    ReachedFacts();
    var w, start := Reached(), Run(EMPTY, Opening());
    var c := Candidate(Intent("t", "b", Head(w.store.log, "t"), "r"), "m");
    FirstAccepted(start);
    Standing(start, FIRST, Assign, contract);
    Standing(w.store, c, Reassign, contract);
    Opened();
  }
}
