// Who may be assigned what, said of the records themselves: what the task declares, what the worker
// has registered to offer, and what the log says of the contract.

module Admission {
  import opened Wrappers
  import opened Ledger
  import opened LedgerProofs
  import opened LedgerGraph
  import opened LedgerOutcomes

  // ------------------------------------------------------------------ what the log says

  // Some logged fact of the contract makes this very transition.
  predicate Made(log: seq<Id>, intent: Intent) {
    exists f :: f in log && f.Record? && f.body.Assigned? && f.body.contract == intent.contract
                && f.body.worker == intent.worker && f.body.reason == intent.reason && f.body.previous == intent.previous
  }

  lemma MadeExactly(log: seq<Id>, intent: Intent)
    ensures Made(log, intent) <==> Recorded(log, intent)
  {
    HistoryMembers(log, intent.contract);
    if Made(log, intent) {
      var f :| f in log && f.Record? && f.body.Assigned? && f.body.contract == intent.contract
               && f.body.worker == intent.worker && f.body.reason == intent.reason && f.body.previous == intent.previous;
      assert f in History(log, intent.contract) && SameIntent(f, intent);
    }
    if Recorded(log, intent) {
      var f :| f in History(log, intent.contract) && SameIntent(f, intent);
      assert f in log;
    }
  }

  // The one declaration of a contract
  lemma DeclaredOnce(s: State, d: Id)
    requires Sound(s) && d in s.log && d.Record? && d.body.Declared?
    ensures Declaration(s.log, d.body.contract) == Some(d)
  {
    var found := Declaration(s.log, d.body.contract);
    assert IsDeclaration(d, d.body.contract);
    assert Declares(s.log, d) && Declares(s.log, found.value);
  }

  // ------------------------------------------------------------------ who may be assigned

  // A new transition to a worker is accepted exactly when it replaces the last fact of the
  // contract by another worker, nothing has closed the contract, and the worker's registration is
  // enabled, offers every capability the task declares, shares an exclusive capability with it if
  // it has one, and shares a pool with it if the task names any.
  lemma SetExactly(s: State, candidate: Candidate, mode: Mode, d: Id, version: string, offer: Offer)
    requires Sound(s) && candidate.intent.worker != "" && !Made(s.log, candidate.intent)
    requires d in s.log && d.Record? && d.body.Declared? && d.body.contract == candidate.intent.contract
    requires candidate.intent.worker in s.registrations
    requires s.registrations[candidate.intent.worker] == Record(Registered(candidate.intent.worker, version, offer), [])
    ensures var c, h := candidate.intent.contract, History(s.log, candidate.intent.contract);
            Publish(s, candidate, mode).verdict.Done?
            <==> candidate.intent.previous == (if h == [] then Text("") else h[|h| - 1])
                 && (mode.Assign? <==> h == [])
                 && (h != [] ==> h[|h| - 1] in h && candidate.intent.worker != h[|h| - 1].body.worker)
                 && c !in s.claimed && c !in s.satisfied && Record(Terminal(c), []) !in s.log
                 && offer.enabled
                 && (forall x | x in d.body.capabilities :: x in offer.capabilities)
                 && ("tool-execution" in offer.capabilities || "mcp-execution" in offer.capabilities ==>
                       ("tool-execution" in offer.capabilities && "tool-execution" in d.body.capabilities)
                       || ("mcp-execution" in offer.capabilities && "mcp-execution" in d.body.capabilities))
                 && (d.body.pools == {} || exists p :: p in d.body.pools && p in offer.pools)
  {
    var intent := candidate.intent;
    MadeExactly(s.log, intent);
    DeclaredOnce(s, d);
    AcceptedExactly(s, candidate, mode);
    ServesExactly(d.body, offer);
    HeadShows(s.log, intent.contract);
    hide Publish, Sound, Made, Recorded, Compatible, History, Head, CurrentWorker, Declaration, Suits;
  }

  lemma HeadShows(log: seq<Id>, contract: string)
    ensures var h := History(log, contract);
            && Head(log, contract) == (if h == [] then Text("") else h[|h| - 1])
            && (h != [] ==> h[|h| - 1] in h && CurrentWorker(log, contract) == h[|h| - 1].body.worker && h[|h| - 1] != NONE)
            && (h == [] ==> CurrentWorker(log, contract) == "")
  {
    var h := History(log, contract);
    if h != [] {
      assert h[|h| - 1] in h;
    }
  }

  // What a registration must offer for a declaration
  ghost predicate Suits(declared: Body, offer: Offer)
    requires declared.Declared?
  {
    && offer.enabled
    && (forall x | x in declared.capabilities :: x in offer.capabilities)
    && ("tool-execution" in offer.capabilities || "mcp-execution" in offer.capabilities ==>
          ("tool-execution" in offer.capabilities && "tool-execution" in declared.capabilities)
          || ("mcp-execution" in offer.capabilities && "mcp-execution" in declared.capabilities))
    && (declared.pools == {} || exists p :: p in declared.pools && p in offer.pools)
  }

  lemma ServesExactly(declared: Body, offer: Offer)
    requires declared.Declared?
    ensures Compatible(declared, offer) <==> Suits(declared, offer)
  {
    var mine := offer.capabilities * EXCLUSIVE;
    assert forall x :: x in mine <==> x in offer.capabilities && (x == "tool-execution" || x == "mcp-execution");
    if mine * declared.capabilities != {} {
      var x :| x in mine * declared.capabilities;
      assert x in declared.capabilities && x in mine;
    }
    if "tool-execution" in mine && "tool-execution" in declared.capabilities {
      assert "tool-execution" in mine * declared.capabilities;
    }
    if "mcp-execution" in mine && "mcp-execution" in declared.capabilities {
      assert "mcp-execution" in mine * declared.capabilities;
    }
    if declared.pools * offer.pools != {} {
      var p :| p in declared.pools * offer.pools;
      assert p in declared.pools && p in offer.pools;
    }
    if p :| p in declared.pools && p in offer.pools {
      assert p in declared.pools * offer.pools;
    }
  }

  // ------------------------------------------------------------------ why it is refused

  // What each objection to a transition finds, in the order in which the objections are raised.
  ghost predicate Finds(s: State, d: Id, intent: Intent, conflict: Conflict)
    requires d.Record? && d.body.Declared?
  {
    var c, h := intent.contract, History(s.log, intent.contract);
    match conflict
    case UnknownContract => false
    case Stale => intent.previous != if h == [] then Text("") else h[|h| - 1]
    case Unchanged => if h == [] then intent.worker == "" else h[|h| - 1] in h && intent.worker == h[|h| - 1].body.worker
    case HasClaims => c in s.claimed
    case Ended => Record(Terminal(c), []) in s.log
    case Satisfied => c in s.satisfied
    case NoWorker =>
      intent.worker != ""
      && (intent.worker !in s.registrations
          || (var r := s.registrations[intent.worker]; r.Record? && r.body.Registered? && !r.body.offer.enabled))
    case Incompatible =>
      && intent.worker != "" && intent.worker in s.registrations
      && var r := s.registrations[intent.worker];
         r.Record? && r.body.Registered? && !Suits(d.body, r.body.offer)
  }

  function Order(conflict: Conflict): nat {
    match conflict
    case UnknownContract => 0
    case Stale => 1
    case Unchanged => 2
    case HasClaims => 3
    case Ended => 4
    case Satisfied => 5
    case NoWorker => 6
    case Incompatible => 7
  }

  // The first objection that finds something.
  ghost predicate First(s: State, d: Id, intent: Intent, conflict: Conflict)
    requires d.Record? && d.body.Declared?
  {
    && Finds(s, d, intent, conflict)
    && forall other: Conflict | Order(other) < Order(conflict) :: !Finds(s, d, intent, other)
  }

  lemma ObjectionFinds(s: State, d: Id, intent: Intent)
    requires Sound(s) && d.Record? && d.body.Declared?
    ensures Objection(s, d.body, intent)
         == if Finds(s, d, intent, Stale) then Some(Stale)
            else if Finds(s, d, intent, Unchanged) then Some(Unchanged)
            else if Finds(s, d, intent, HasClaims) then Some(HasClaims)
            else if Finds(s, d, intent, Ended) then Some(Ended)
            else if Finds(s, d, intent, Conflict.Satisfied) then Some(Conflict.Satisfied)
            else if Finds(s, d, intent, NoWorker) then Some(NoWorker)
            else if Finds(s, d, intent, Incompatible) then Some(Incompatible)
            else None
  {
    HeadShows(s.log, intent.contract);
    if intent.worker in s.registrations {
      assert IsRegistration(s.registrations[intent.worker], intent.worker);
      ServesExactly(d.body, s.registrations[intent.worker].body.offer);
    }
    hide Sound, History, Head, CurrentWorker, Compatible, Suits;
  }

  lemma ObjectionExactly(s: State, d: Id, intent: Intent)
    requires Sound(s) && d.Record? && d.body.Declared?
    ensures forall k: Conflict :: Objection(s, d.body, intent) == Some(k) <==> First(s, d, intent, k)
  {
    ObjectionFinds(s, d, intent);
    assert !Finds(s, d, intent, UnknownContract);
    OrdersApart();
    hide Sound, Objection, Finds;
  }

  lemma OrdersApart()
    ensures forall k: Conflict, other: Conflict :: k == other || Order(k) < Order(other) || Order(other) < Order(k)
  {
  }

  // Every answer of a publication, by what the log says: refused before anything is written, with
  // the reason; rejected, as stale, exactly when its transition was made under another key; and
  // accepted otherwise.
  lemma AnsweredExactly(s: State, candidate: Candidate, mode: Mode, d: Id)
    requires Sound(s) && d in s.log && d.Record? && d.body.Declared? && d.body.contract == candidate.intent.contract
    ensures var i, h, v := candidate.intent, History(s.log, candidate.intent.contract), Publish(s, candidate, mode).verdict;
            && (v == Refuse(AlreadyAssigned) <==> mode.Assign? && h != [] && !Made(s.log, i))
            && (v == Refuse(NeverAssigned) <==> mode.Reassign? && h == [])
            && (v == Refuse(HeadMoved)
                <==> (mode.Assign? <==> h == []) && !Made(s.log, i) && i.previous != if h == [] then Text("") else h[|h| - 1])
            && (forall k: Conflict ::
                  v == Refuse(Objected(k)) <==>
                    (mode.Assign? <==> h == []) && !Made(s.log, i) && !Finds(s, d, i, Stale) && First(s, d, i, k))
            && (v.Reject? <==> Made(s.log, i) && !IsCommitted(s.log, candidate))
            && (v.Reject? ==> v == Reject(Stale))
            && v != Refuse(NotFound) && !v.Lost?
  {
    var i := candidate.intent;
    MadeExactly(s.log, i);
    DeclaredOnce(s, d);
    HeadShows(s.log, i.contract);
    ObjectionExactly(s, d, i);
    hide Made, History, Head, CurrentWorker, Objection, First;
    if IsCommitted(s.log, candidate) {
      Replay(s, candidate, mode);
      CommittedRecorded(s, candidate);
      RecordedAssigned(s, i);
    } else if Recorded(s.log, i) {
      OtherKey(s, candidate, mode);
      RecordedAssigned(s, i);
    } else {
      hide Sound, Recorded, IsCommitted, Declaration;
      Fresh(s, candidate, mode);
      hide Publish;
      PreflightExactly(s, candidate, mode, d);
    }
  }

  lemma RecordedAssigned(s: State, intent: Intent)
    requires Recorded(s.log, intent)
    ensures History(s.log, intent.contract) != []
  {
  }

  lemma PreflightExactly(s: State, candidate: Candidate, mode: Mode, d: Id)
    requires Declaration(s.log, candidate.intent.contract) == Some(d) && d.Record? && d.body.Declared?
    requires !Recorded(s.log, candidate.intent)
    ensures var i, head, p := candidate.intent, Head(s.log, candidate.intent.contract), Preflight(s, candidate.intent, mode);
            && (p == Some(AlreadyAssigned) <==> mode.Assign? && head != NONE)
            && (p == Some(NeverAssigned) <==> mode.Reassign? && head == NONE)
            && (p == Some(HeadMoved) <==> (mode.Assign? <==> head == NONE) && i.previous != head)
            && (forall k: Conflict ::
                  p == Some(Objected(k)) <==>
                    (mode.Assign? <==> head == NONE) && i.previous == head && Objection(s, d.body, i) == Some(k))
            && p != Some(Refusal.NotFound)
  {
    hide Recorded, Head, Objection, Declaration;
  }

  // Without a declaration nothing is assigned, and nothing written.
  lemma UndeclaredRefused(s: State, candidate: Candidate, mode: Mode)
    requires forall d | d in s.log && d.Record? && d.body.Declared? :: d.body.contract != candidate.intent.contract
    ensures Publish(s, candidate, mode) == Outcome(s, Refuse(Refusal.NotFound))
  {
  }

  // ------------------------------------------------------------------ what is written

  // The records of an accepted transition, with what each stands on.
  lemma AcceptedRecords(s: State, candidate: Candidate, mode: Mode)
    requires Sound(s) && Publish(s, candidate, mode).verdict.Done? && !IsCommitted(s.log, candidate)
    ensures var i, o := candidate.intent, Publish(s, candidate, mode);
            var receipt, fact := Record(Received(candidate), [Text(i.contract)]), o.verdict.fact;
            && (forall r :: r in o.state.log <==>
                  r in s.log
                  || r in [receipt, fact, Record(Committed(candidate, [fact]), [receipt, fact]),
                           Record(Traced(candidate, true), [])])
            && fact.Record? && fact.body == Assigned(candidate, i.contract, i.previous, i.reason, i.worker)
            && (i.worker != "" ==> i.worker in s.registrations)
            && exists d :: d in s.log && d.Record? && d.body.Declared? && d.body.contract == i.contract
                           && fact.parents == [receipt, d] + (if i.previous == Text("") then [] else [i.previous])
                                              + if i.worker == "" then [] else [s.registrations[i.worker]]
  {
    var fact := Publish(s, candidate, mode).verdict.fact;
    hide Sound, History, Recorded, IsCommitted, Objection, FactOf, AddAll;
    MustBeNew(s, candidate, mode);
    AdmittedFact(s, candidate, mode);
    hide Publish, Preflight, Decide;
    AcceptedStays(s, candidate, fact);
    assert Written(candidate, Accepted(fact))
        == [Receipt(candidate), fact, HeadRecord(candidate, fact), Record(Traced(candidate, true), [])];
  }

  lemma MustBeNew(s: State, candidate: Candidate, mode: Mode)
    requires Sound(s) && Publish(s, candidate, mode).verdict.Done? && !IsCommitted(s.log, candidate)
    ensures !Recorded(s.log, candidate.intent) && Admissible(s, candidate.intent, mode)
  {
    PublishKeeps(s, candidate, mode);
    if Recorded(s.log, candidate.intent) {
      assert Declaration(s.log, candidate.intent.contract).Some?;
      OtherKey(s, candidate, mode);
    } else {
      AcceptedExactly(s, candidate, mode);
    }
  }

  lemma AdmittedFact(s: State, candidate: Candidate, mode: Mode)
    requires Sound(s) && Publish(s, candidate, mode).verdict.Done? && !IsCommitted(s.log, candidate)
    requires !Recorded(s.log, candidate.intent) && Admissible(s, candidate.intent, mode)
    ensures var d, o := Declaration(s.log, candidate.intent.contract).value, Publish(s, candidate, mode);
            && Decide(s, candidate) == Accepted(o.verdict.fact) && o.verdict.fact == Fact(s, d, candidate)
            && o.state == Commit(s, candidate)
  {
    hide Sound, Commit, Objection, History, Recorded, FactOf, Fact;
    Fresh(s, candidate, mode);
    var fact := Fact(s, Declaration(s.log, candidate.intent.contract).value, candidate);
    AcceptedStays(s, candidate, fact);
  }

  // A rejection adds its receipt, itself and its trace, and nothing else.
  lemma RejectedRecords(s: State, candidate: Candidate, mode: Mode)
    requires Sound(s) && Publish(s, candidate, mode).verdict.Reject?
    ensures var o, receipt := Publish(s, candidate, mode), Record(Received(candidate), [Text(candidate.intent.contract)]);
            forall r :: r in o.state.log <==>
              r in s.log
              || r in [receipt, Record(Rejected(candidate, Stale), [receipt]), Record(Traced(candidate, false), [])]
  {
    hide Sound, History, Recorded, IsCommitted, Objection, FactOf, AddAll;
    var found := Declaration(s.log, candidate.intent.contract);
    assert found.Some?;
    hide Publish, Preflight, Decide;
    AnsweredExactly(s, candidate, mode, found.value);
    RejectedAs(s, candidate, mode);
    AddAllExtends(s.log, Written(candidate, Decision.Refused(Stale)));
  }

  lemma RejectedAs(s: State, candidate: Candidate, mode: Mode)
    requires Publish(s, candidate, mode).verdict == Reject(Stale)
    ensures Publish(s, candidate, mode).state.log == AddAll(s.log, Written(candidate, Decision.Refused(Stale)))
  {
    hide Objection, FactOf, AddAll;
  }

  // ------------------------------------------------------------------ in every run

  // Whatever has happened, the worker of every logged fact had registered, enabled, all that the
  // task declares: both records are in the log, as parents of the fact.
  lemma RunServes(steps: seq<Step>, f: Id)
    requires f in Run(EMPTY, steps).log && f.Record? && f.body.Assigned? && f.body.worker != ""
    ensures exists d, r ::
              && d in f.parents && d in Run(EMPTY, steps).log && d.Record? && d.body.Declared?
              && d.body.contract == f.body.contract
              && r in f.parents && r in Run(EMPTY, steps).log && r.Record? && r.body.Registered?
              && r.body.worker == f.body.worker && r.body.offer.enabled
              && (forall x | x in d.body.capabilities :: x in r.body.offer.capabilities)
              && (forall x | x in r.body.offer.capabilities && (x == "tool-execution" || x == "mcp-execution") ::
                    exists y :: (y == "tool-execution" || y == "mcp-execution")
                                && y in r.body.offer.capabilities && y in d.body.capabilities)
              && (d.body.pools == {} || exists p :: p in d.body.pools && p in r.body.offer.pools)
  {
    EmptySound();
    RunSound(EMPTY, steps);
    hide Run, Sound, Caused;
    ParentsServe(Run(EMPTY, steps), f);
    var d, r := f.parents[1], f.parents[|f.parents| - 1];
    SuitsExclusive(d.body, r.body.offer);
  }

  lemma ParentsServe(s: State, f: Id)
    requires Sound(s) && f in s.log && f.Record? && f.body.Assigned? && f.body.worker != ""
    ensures |f.parents| >= 2
    ensures var d, r := f.parents[1], f.parents[|f.parents| - 1];
            && d in f.parents && r in f.parents && d in s.log && r in s.log
            && d.Record? && d.body.Declared? && d.body.contract == f.body.contract
            && r.Record? && r.body.Registered? && r.body.worker == f.body.worker && Suits(d.body, r.body.offer)
  {
    FactCaused(s, f);
    ParentsLogged(s.log, f);
    hide Sound, Kept, Compatible, Suits;
    var d, r := f.parents[1], f.parents[|f.parents| - 1];
    assert d in f.parents && r in f.parents;
    ServesExactly(d.body, r.body.offer);
  }

  lemma SuitsExclusive(declared: Body, offer: Offer)
    requires declared.Declared? && Suits(declared, offer)
    ensures forall x | x in offer.capabilities && (x == "tool-execution" || x == "mcp-execution") ::
              exists y :: (y == "tool-execution" || y == "mcp-execution")
                          && y in offer.capabilities && y in declared.capabilities
  {
  }

  // A version of a worker stands for one description in every run.
  lemma {:induction false} RunVersions(steps: seq<Step>)
    ensures forall r, q | r in Run(EMPTY, steps).log && q in Run(EMPTY, steps).log && r.Record? && q.Record?
                          && r.body.Registered? && q.body.Registered?
                          && r.body.worker == q.body.worker && r.body.version == q.body.version ::
              r.body.offer == q.body.offer
  {
    if steps != [] {
      var s, step := Run(EMPTY, steps[..|steps| - 1]), steps[|steps| - 1];
      RunVersions(steps[..|steps| - 1]);
      EmptySound();
      RunSound(EMPTY, steps[..|steps| - 1]);
      if step.Submit? {
        NoRegistration(s, step.candidate);
      }
    }
  }

  // A decision registers nobody.
  lemma NoRegistration(s: State, candidate: Candidate)
    requires Sound(s)
    ensures forall r | r in Commit(s, candidate).log && r.Record? && r.body.Registered? :: r in s.log
  {
    hide Sound, Objection, Fact, IsCommitted, Declaration;
    AddAllExtends(s.log, Written(candidate, Decide(s, candidate)));
    match Decide(s, candidate)
    case Replayed =>
    case Refused(conflict) =>
    case Accepted(fact) => AcceptedKind(s, candidate, fact);
  }

  // ------------------------------------------------------------------ one task, one worker

  // One task and one worker, of any capabilities and pools
  function Offered(capabilities: set<string>, pools: set<string>, offer: Offer): (steps: seq<Step>) {
    [Declare("t", capabilities, pools), Register("w", "1", offer)]
  }

  const APPLICANT := Candidate(Intent("t", "w", NONE, "r"), "k")

  lemma OfferedState(capabilities: set<string>, pools: set<string>, offer: Offer)
    ensures var d, r := Record(Declared("t", capabilities, pools), []), Record(Registered("w", "1", offer), []);
            var s := Run(EMPTY, Offered(capabilities, pools, offer));
            s == State([d, r], map["w" := r], {}, {}) && Sound(s) && History(s.log, "t") == []
  {
    var d := Record(Declared("t", capabilities, pools), []);
    var steps := Offered(capabilities, pools, offer);
    FirstStep(capabilities, pools, steps[0]);
    assert steps == [steps[0]] + [steps[1]];
    assert ([steps[0]] + [steps[1]])[..1] == [steps[0]];
    EmptySound();
    RunSound(EMPTY, steps);
    hide Sound;
    NoFacts(Run(EMPTY, steps).log, "t");
  }

  lemma FirstStep(capabilities: set<string>, pools: set<string>, step: Step)
    requires step == Declare("t", capabilities, pools)
    ensures Run(EMPTY, [step]) == EMPTY.(log := [Record(Declared("t", capabilities, pools), [])])
  {
    assert [step][..0] == [] && Run(EMPTY, []) == EMPTY;
  }

  // Such a ledger is reached for any of them, and the first assignment is accepted as said.
  lemma FirstServes(capabilities: set<string>, pools: set<string>, offer: Offer)
    ensures Publish(Run(EMPTY, Offered(capabilities, pools, offer)), APPLICANT, Assign).verdict.Done?
       <==> offer.enabled
            && (forall x | x in capabilities :: x in offer.capabilities)
            && ("tool-execution" in offer.capabilities || "mcp-execution" in offer.capabilities ==>
                  ("tool-execution" in offer.capabilities && "tool-execution" in capabilities)
                  || ("mcp-execution" in offer.capabilities && "mcp-execution" in capabilities))
            && (pools == {} || exists p :: p in pools && p in offer.pools)
  {
    var s, d := Run(EMPTY, Offered(capabilities, pools, offer)), Record(Declared("t", capabilities, pools), []);
    OfferedState(capabilities, pools, offer);
    hide Run, Offered, Sound, Publish, History;
    HistoryMembers(s.log, "t");
    SetExactly(s, APPLICANT, Assign, d, "1", offer);
  }

  // A worker may offer more than the task asks for, in capabilities and in pools. It may not lack
  // a capability, offer an exclusive one the task does not ask for, or share no pool with it.
  lemma SomeServe()
    ensures var asked, pools := {"python"}, {"p", "q"};
            && Publish(Run(EMPTY, Offered(asked, pools, Offer(true, {"python", "gpu"}, {"q", "r"}))), APPLICANT, Assign)
               .verdict.Done?
            && !Publish(Run(EMPTY, Offered(asked, pools, Offer(true, {"gpu"}, {"q"}))), APPLICANT, Assign).verdict.Done?
            && !Publish(Run(EMPTY, Offered(asked, pools, Offer(true, {}, {"q"}))), APPLICANT, Assign).verdict.Done?
            && !Publish(Run(EMPTY, Offered(asked, pools, Offer(true, {"python", "tool-execution"}, {"q"}))), APPLICANT, Assign)
               .verdict.Done?
            && !Publish(Run(EMPTY, Offered(asked, pools, Offer(true, {"python"}, {"r"}))), APPLICANT, Assign).verdict.Done?
  {
    var asked, pools := {"python"}, {"p", "q"};
    hide Run, Publish;
    FirstServes(asked, pools, Offer(true, {"python", "gpu"}, {"q", "r"}));
    assert "python" in asked && "q" in pools;
    FirstServes(asked, pools, Offer(true, {"gpu"}, {"q"}));
    FirstServes(asked, pools, Offer(true, {}, {"q"}));
    FirstServes(asked, pools, Offer(true, {"python", "tool-execution"}, {"q"}));
    FirstServes(asked, pools, Offer(true, {"python"}, {"r"}));
  }
}
