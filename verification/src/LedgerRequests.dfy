// Saved reassignment requests: the heads are frozen when the request is prepared, and resuming
// it publishes the frozen transitions whatever has happened in between.

module LedgerRequests {
  import opened Wrappers
  import opened Ledger
  import opened LedgerProofs
  import opened LedgerOutcomes
  import opened LedgerConfluence
  import opened LedgerKeys

  // What a saved request binds. An empty worker is the clear action.
  datatype Saved = Saved(targets: seq<string>, heads: seq<Id>, worker: string, reason: string, base: string)

  datatype Prepared =
    | Frozen(request: Saved)
    | TaskNotFound(target: string)
    | HeadMissing(target: string)

  // The current heads of the targets, or the first target that has none.
  function Heads(s: State, targets: seq<string>): (r: Prepared)
    ensures r.Frozen? ==> r.request.targets == targets && |r.request.heads| == |targets|
    ensures r.Frozen? ==> forall k | 0 <= k < |targets| ::
              r.request.heads[k] == Head(s.log, targets[k]) != NONE && Declaration(s.log, targets[k]).Some?
    ensures r.TaskNotFound? ==> r.target in targets && Declaration(s.log, r.target).None?
    ensures r.HeadMissing? ==> r.target in targets && Head(s.log, r.target) == NONE
  {
    hide Declaration, Head;
    if targets == [] then Frozen(Saved([], [], "", "", ""))
    else if Declaration(s.log, targets[0]).None? then TaskNotFound(targets[0])
    else if Head(s.log, targets[0]) == NONE then HeadMissing(targets[0])
    else
      match Heads(s, targets[1..])
      case Frozen(rest) => Frozen(Saved(targets, [Head(s.log, targets[0])] + rest.heads, "", "", ""))
      case missing => missing
  }

  // prepare_assignment_request, without the bounds on its text
  function Prepare(s: State, targets: seq<string>, worker: string, reason: string, base: string): Prepared {
    match Heads(s, targets)
    case Frozen(found) => Frozen(found.(worker := worker, reason := reason, base := base))
    case missing => missing
  }

  // The task is declared, and has been assigned.
  ghost predicate Ready(s: State, target: string) {
    (exists d :: d in s.log && d.Record? && d.body.Declared? && d.body.contract == target) && History(s.log, target) != []
  }

  // The k-th target is the first that is not ready, and it is named as what it lacks.
  ghost predicate Stops(s: State, targets: seq<string>, p: Prepared, k: nat)
    requires !p.Frozen?
  {
    && k < |targets| && p.target == targets[k] && !Ready(s, targets[k])
    && (forall j | 0 <= j < k :: Ready(s, targets[j]))
    && (p.TaskNotFound? <==> forall d | d in s.log && d.Record? && d.body.Declared? :: d.body.contract != p.target)
  }

  // A request is prepared exactly when every target is declared and assigned. It then holds the
  // targets as given, the last fact of each, and the worker, reason and base; and otherwise the first
  // target that is not ready is named, as undeclared or as never assigned.
  lemma PreparesExactly(s: State, targets: seq<string>, worker: string, reason: string, base: string)
    requires Sound(s)
    ensures var p := Prepare(s, targets, worker, reason, base);
            && (p.Frozen? <==> forall t | t in targets :: Ready(s, t))
            && (p.Frozen? ==>
                  && p.request.targets == targets && |p.request.heads| == |targets|
                  && p.request.worker == worker && p.request.reason == reason && p.request.base == base
                  && forall k | 0 <= k < |targets| ::
                       var h := History(s.log, targets[k]); h != [] && p.request.heads[k] == h[|h| - 1])
            && (!p.Frozen? ==> exists k :: Stops(s, targets, p, k))
  {
    HeadsExactly(s, targets);
    if Heads(s, targets).Frozen? {
      forall k | 0 <= k < |targets|
        ensures var h := History(s.log, targets[k]); h != [] && Heads(s, targets).request.heads[k] == h[|h| - 1]
      {
        ReadyExactly(s, targets[k]);
      }
    }
    hide Heads, Ready, Stops, History;
  }

  lemma {:induction false} HeadsExactly(s: State, targets: seq<string>)
    requires Sound(s)
    ensures var p := Heads(s, targets);
            && (p.Frozen? <==> forall t | t in targets :: Ready(s, t))
            && (!p.Frozen? ==> exists k :: Stops(s, targets, p, k))
  {
    if targets != [] {
      var rest := targets[1..];
      HeadsExactly(s, rest);
      ReadyExactly(s, targets[0]);
      hide Ready, Stops, History, Head, Declaration, Sound;
      assert targets == [targets[0]] + rest;
      var p := Heads(s, targets);
      if !Ready(s, targets[0]) {
        StopsAtOnce(s, targets, p);
      } else if !p.Frozen? {
        var k :| Stops(s, rest, Heads(s, rest), k);
        StopsLater(s, targets, p, k);
      }
    }
  }

  lemma StopsAtOnce(s: State, targets: seq<string>, p: Prepared)
    requires targets != [] && !Ready(s, targets[0]) && !p.Frozen? && p.target == targets[0]
    requires p.TaskNotFound? <==> forall d | d in s.log && d.Record? && d.body.Declared? :: d.body.contract != targets[0]
    ensures Stops(s, targets, p, 0)
  {
    hide Ready;
  }

  lemma StopsLater(s: State, targets: seq<string>, p: Prepared, k: nat)
    requires targets != [] && Ready(s, targets[0]) && !p.Frozen? && Stops(s, targets[1..], p, k)
    ensures Stops(s, targets, p, k + 1)
  {
    hide Ready;
    assert forall j | 0 < j < k + 1 :: targets[j] == targets[1..][j - 1];
  }

  lemma ReadyExactly(s: State, target: string)
    requires Sound(s)
    ensures Ready(s, target) <==> Declaration(s.log, target).Some? && Head(s.log, target) != NONE
    ensures Declaration(s.log, target).None?
       <==> forall d | d in s.log && d.Record? && d.body.Declared? :: d.body.contract != target
    ensures var h := History(s.log, target); Head(s.log, target) != NONE ==> h != [] && Head(s.log, target) == h[|h| - 1]
  {
    var h := History(s.log, target);
    if h != [] {
      assert h[|h| - 1] in h;
    }
    forall d | d in s.log && d.Record? && d.body.Declared? && d.body.contract == target
      ensures Declaration(s.log, target).Some?
    {
      assert IsDeclaration(d, target);
    }
    if Declaration(s.log, target).Some? {
      assert IsDeclaration(Declaration(s.log, target).value, target);
    }
  }

  predicate Valid(request: Saved) {
    && |request.heads| == |request.targets|
    && (forall k | 0 <= k < |request.heads| :: request.heads[k] != NONE)
    && Distinct(request.targets)
  }

  function Transition(n: Naming, request: Saved, k: nat): Candidate
    requires Valid(request) && k < |request.targets|
  {
    var target, head := request.targets[k], request.heads[k];
    Candidate(Intent(target, request.worker, head, request.reason), ReassignKey(n, request.base, target, head))
  }

  function Transitions(n: Naming, request: Saved): (r: seq<Candidate>)
    requires Valid(request)
    ensures |r| == |request.targets|
  {
    seq(|request.targets|, k requires 0 <= k < |request.targets| => Transition(n, request, k))
  }

  // Resuming: the final state, and what is reported for each target.
  function Resume(s: State, n: Naming, request: Saved): State
    requires Valid(request)
  {
    PublishAll(s, Transitions(n, request), Reassign)
  }

  function Reports(s: State, n: Naming, request: Saved): (r: seq<Verdict>)
    requires Valid(request)
    ensures |r| == |request.targets|
  {
    Verdicts(s, Transitions(n, request), Reassign)
  }

  // ------------------------------------------------------------------ one target

  // The answer for one frozen transition, in full. Once the head has moved on, the original fact
  // is returned if this request was accepted, and otherwise the transition is refused without a
  // write, unless another key has published the very same transition: then a stale rejection is
  // written.
  lemma FrozenTransition(s: State, c: Candidate)
    requires Sound(s) && Declaration(s.log, c.intent.contract).Some? && Head(s.log, c.intent.contract) != NONE
    ensures var o := Publish(s, c, Reassign);
            && (IsCommitted(s.log, c) ==> FactOf(s.log, c).Some? && o == Outcome(s, Done(FactOf(s.log, c).value)))
            && (!IsCommitted(s.log, c) && c.intent.previous != Head(s.log, c.intent.contract) ==>
                  && (o == Outcome(s, Refuse(HeadMoved)) <==> !Recorded(s.log, c.intent))
                  && (o.verdict == Reject(Stale) <==> Recorded(s.log, c.intent)))
            && (c.intent.previous == Head(s.log, c.intent.contract) ==>
                  o.verdict.Done? || (o.verdict.Refuse? && o.verdict.refusal.Objected?))
  {
    if IsCommitted(s.log, c) {
      Replay(s, c, Reassign);
    } else if Recorded(s.log, c.intent) {
      OtherKey(s, c, Reassign);
    } else {
      Fresh(s, c, Reassign);
    }
    if c.intent.previous == Head(s.log, c.intent.contract) {
      NotRecordedAtHead(s, c.intent);
    }
  }

  lemma HeadStays(s: State, steps: seq<Step>, contract: string)
    requires Sound(s) && Declaration(s.log, contract).Some? && Head(s.log, contract) != NONE
    ensures var t := Run(s, steps);
            Sound(t) && Declaration(t.log, contract).Some? && Head(t.log, contract) != NONE
  {
    RunSound(s, steps);
    var t := Run(s, steps);
    DeclarationLater(s.log, t.log, contract);
    HistoryPrefix(s.log, t.log, contract);
    var h := History(t.log, contract);
    assert h[|h| - 1] in h;
  }

  // ------------------------------------------------------------------ whole requests

  lemma TransitionsApart(n: Naming, request: Saved)
    requires Valid(request)
    ensures OnePerContract(Transitions(n, request))
  {
  }

  // Whatever runs between preparing and resuming, each target's report is the full answer for its
  // frozen transition in the ledger as resuming finds it.
  lemma Resumed(s: State, n: Naming, request: Saved, steps: seq<Step>, k: nat)
    requires Sound(s) && Valid(request) && k < |request.targets|
    requires Prepare(s, request.targets, request.worker, request.reason, request.base) == Frozen(request)
    ensures var t := Run(s, steps);
            var c := Transition(n, request, k);
            var moved := request.heads[k] != Head(t.log, request.targets[k]);
            var report := Reports(t, n, request)[k];
            && (IsCommitted(t.log, c) ==> FactOf(t.log, c).Some? && report == Done(FactOf(t.log, c).value))
            && (!IsCommitted(t.log, c) && moved && !Recorded(t.log, c.intent) ==> report == Refuse(HeadMoved))
            && (!IsCommitted(t.log, c) && moved && Recorded(t.log, c.intent) ==> report == Reject(Stale))
            && (!moved ==> report.Done? || (report.Refuse? && report.refusal.Objected?))
  {
    var t, c := Run(s, steps), Transition(n, request, k);
    HeadStays(s, steps, request.targets[k]);
    FrozenTransition(t, c);
    TransitionsApart(n, request);
    BatchSettles(t, Transitions(n, request), Reassign);
    assert Transitions(n, request)[k] == c;
  }

  // Heads are never refreshed: a fact a resumption reports replaces the head frozen at the start,
  // with the frozen worker and reason.
  lemma NeverRefreshed(s: State, n: Naming, request: Saved, k: nat)
    requires Sound(s) && Valid(request) && k < |request.targets|
    requires Reports(s, n, request)[k].Done?
    ensures var fact := Reports(s, n, request)[k].fact;
            && fact.Record? && fact.body.Assigned? && fact in Resume(s, n, request).log
            && fact.body
               == Assigned(Transition(n, request, k), request.targets[k], request.heads[k], request.reason, request.worker)
  {
    var c := Transition(n, request, k);
    TransitionsApart(n, request);
    BatchSettles(s, Transitions(n, request), Reassign);
    assert Transitions(n, request)[k] == c && c in Transitions(n, request);
    Reattempt(s, Transitions(n, request), Reassign, c);
    var t := Resume(s, n, request);
    PublishKeeps(t, c, Reassign);
    CommittedRecorded(t, c);
  }

  // Resuming twice is resuming once.
  lemma ResumeTwice(s: State, n: Naming, request: Saved)
    requires Sound(s) && Valid(request)
    ensures var t := Resume(s, n, request);
            Resume(t, n, request) == t && Reports(t, n, request) == Reports(s, n, request)
  {
    TransitionsApart(n, request);
    ReattemptAll(s, Transitions(n, request), Reassign, Transitions(n, request));
    BatchSettles(s, Transitions(n, request), Reassign);
  }

  // And however much later it is resumed again, an accepted target still reports its fact.
  lemma ResumeLater(s: State, n: Naming, request: Saved, steps: seq<Step>, k: nat)
    requires Sound(s) && Valid(request) && k < |request.targets| && Reports(s, n, request)[k].Done?
    ensures Reports(Run(Resume(s, n, request), steps), n, request)[k] == Reports(s, n, request)[k]
  {
    var c := Transition(n, request, k);
    var t := Resume(s, n, request);
    var u := Run(t, steps);
    TransitionsApart(n, request);
    BatchSettles(s, Transitions(n, request), Reassign);
    assert Transitions(n, request)[k] == c && c in Transitions(n, request);
    Reattempt(s, Transitions(n, request), Reassign, c);
    ReplayLater(t, c, Reassign, steps, Reassign);
    RunSound(t, steps);
    BatchSettles(u, Transitions(n, request), Reassign);
  }

  // ------------------------------------------------------------------ the one resumption that writes

  // Another publication may have made the very transition a request has frozen. Under the text of
  // the request's own key it is the request's Candidate: resuming reports its fact and writes
  // nothing. Under any other key resuming writes a stale rejection, although the head has moved
  // exactly as it asked.
  lemma ResumeMayWrite(
    s: State, n: Naming, contract: string, worker: string, reason: string, base: string, key: string)
    requires Sound(s) && Assignable(s, contract, worker)
    requires Head(s.log, contract) != NONE && worker != CurrentWorker(s.log, contract)
    ensures var request := Saved([contract], [Head(s.log, contract)], worker, reason, base);
            && Valid(request)
            && var c := Transition(n, request, 0);
               var o := Publish(s, Candidate(c.intent, key), Reassign);
               var rejection := Record(Rejected(c, Stale), [Receipt(c)]);
               && o.verdict.Done?
               && c.key == ReassignKey(n, base, contract, Head(s.log, contract))
               && (key == c.key ==> Reports(o.state, n, request) == [o.verdict] && Resume(o.state, n, request) == o.state)
               && (key != c.key ==>
                     && Reports(o.state, n, request) == [Reject(Stale)]
                     && rejection in Resume(o.state, n, request).log && (rejection !in s.log ==> rejection !in o.state.log))
  {
    hide Sound, Publish, Writes, Assignable, Preflight, Caused, FactOf, Recorded, IsCommitted, History, Head, CurrentWorker;
    hide ReassignKey;
    var request := Saved([contract], [Head(s.log, contract)], worker, reason, base);
    var c := Transition(n, request, 0);
    var other := Candidate(c.intent, key);
    AssignableNow(s, c.intent, Reassign);
    Fresh(s, other, Reassign);
    assert Transitions(n, request) == [c];
    var t := Publish(s, other, Reassign).state;
    ResumeOne(t, c);
    if key == c.key {
      PublishTwice(s, c, Reassign);
    } else {
      TakenByOther(s, c, other);
      if Record(Rejected(c, Stale), [Receipt(c)]) !in s.log {
        NotRejectedBy(s, other, Record(Rejected(c, Stale), [Receipt(c)]));
      }
      OtherKey(t, c, Reassign);
    }
  }

  lemma NotRejectedBy(s: State, other: Candidate, rejection: Id)
    requires Sound(s) && Publish(s, other, Reassign).verdict.Done?
    requires rejection.Record? && rejection.body.Rejected? && rejection !in s.log
    ensures rejection !in Publish(s, other, Reassign).state.log
  {
    WritesState(s, other, Reassign);
    AddAllExtends(s.log, Writes(s, other, Reassign));
    OnlyAccepted(s, other);
  }

  lemma ResumeOne(s: State, c: Candidate)
    ensures PublishAll(s, [c], Reassign) == Publish(s, c, Reassign).state
    ensures Verdicts(s, [c], Reassign) == [Publish(s, c, Reassign).verdict]
  {
    assert [c][..0] == [];
    assert PublishAll(s, [], Reassign) == s && Verdicts(s, [], Reassign) == [];
  }

  lemma TakenByOther(s: State, c: Candidate, other: Candidate)
    requires Sound(s) && other.intent == c.intent && other != c && !Recorded(s.log, c.intent)
    requires Publish(s, other, Reassign).verdict.Done?
    ensures var t := Publish(s, other, Reassign).state;
            && Sound(t) && Recorded(t.log, c.intent) && !IsCommitted(t.log, c) && Declaration(t.log, c.intent.contract).Some?
  {
    var t := Publish(s, other, Reassign).state;
    PublishKeeps(s, other, Reassign);
    CommittedRecorded(t, other);
    if IsCommitted(t.log, c) {
      CommittedRecorded(t, c);
      var f, g := FactOf(t.log, c).value, FactOf(t.log, other).value;
      ReplacedOnce(t.log, c.intent.contract, f);
    }
  }

  lemma OnlyAccepted(s: State, other: Candidate)
    requires Sound(s) && Publish(s, other, Reassign).verdict.Done?
    ensures forall r | r in Writes(s, other, Reassign) :: r.Record? && !r.body.Rejected?
  {
  }

  // And such a ledger is reached: one declared task, assigned once.
  lemma ResumeMayWriteInARun()
    ensures var s := Publish(Run(EMPTY, Opening()), Candidate(Intent("t", "a", NONE, "r"), "k"), Assign).state;
            Sound(s) && Assignable(s, "t", "b") && Head(s.log, "t") != NONE && CurrentWorker(s.log, "t") == "a"
  {
    hide Run, Opening, Sound, Publish, Assignable, Preflight, Recorded, History, Caused, FactOf, IsCommitted, Distinct;
    var start, first := Run(EMPTY, Opening()), Candidate(Intent("t", "a", NONE, "r"), "k");
    KeyAcceptedTwiceInARun();
    FirstAssignment(start, "t", "a");
    AssignableNow(start, first.intent, Assign);
    Fresh(start, first, Assign);
    AssignableStill(start, first, Assign, "t", "b");
    var o := Publish(start, first, Assign);
    FactSays(o.verdict.fact, first);
    assert History(o.state.log, "t") == [o.verdict.fact];
  }

  lemma FirstAssignment(s: State, contract: string, worker: string)
    requires History(s.log, contract) == [] && Assignable(s, contract, worker)
    ensures Head(s.log, contract) == NONE && CurrentWorker(s.log, contract) == "" && worker != ""
  {
  }
}
