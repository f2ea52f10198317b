// What one publication does to a sound ledger, and what repeating or changing it does later.

module LedgerOutcomes {
  import opened Wrappers
  import opened Ledger
  import opened LedgerProofs
  import opened LedgerGraph

  // ------------------------------------------------------------------ histories

  lemma {:induction false} HistoryDistinct(log: seq<Id>, contract: string)
    requires Distinct(log)
    ensures Distinct(History(log, contract))
  {
    if log != [] {
      var front := log[..|log| - 1];
      HistoryDistinct(front, contract);
      HistoryMembers(front, contract);
      assert log[|log| - 1] !in front;
    }
  }

  // A fact of the history records its own transition only: nothing else replaces what it
  // replaced, and what it replaced is no longer the head.
  lemma ReplacedOnce(log: seq<Id>, contract: string, f: Id)
    requires Grounded(log) && Chain(History(log, contract)) && f in History(log, contract)
    ensures f.body.previous != Head(log, contract)
    ensures Head(log, contract) != NONE
    ensures forall g | g in History(log, contract) && g.body.previous == f.body.previous :: g == f
  {
    GroundedDistinct(log);
    HistoryDistinct(log, contract);
    ReplacedInChain(History(log, contract), f);
  }

  lemma ReplacedInChain(h: seq<Id>, f: Id)
    requires Chain(h) && Distinct(h) && f in h
    requires forall g | g in h :: g.Record? && g.body.Assigned?
    ensures f.body.previous != h[|h| - 1] && h[|h| - 1] != NONE
    ensures forall g | g in h && g.body.previous == f.body.previous :: g == f
  {
    var k :| 0 <= k < |h| && h[k] == f;
    Predecessor(h, k);
    assert h[|h| - 1] in h;
    forall g | g in h && g.body.previous == f.body.previous ensures g == f {
      var j :| 0 <= j < |h| && h[j] == g;
      SamePredecessor(h, j, k);
    }
    assert h[|h| - 1] in h;
  }

  lemma Predecessor(h: seq<Id>, k: nat)
    requires forall f | f in h :: f.Record? && f.body.Assigned?
    requires Chain(h) && k < |h|
    ensures h[k] in h && h[k].body.previous == if k == 0 then NONE else h[k - 1]
    ensures k > 0 ==> h[k - 1] in h && h[k - 1] != NONE
  {
    assert Linked(h, k);
    if k > 0 {
      assert h[k - 1] in h;
    }
  }

  lemma SamePredecessor(h: seq<Id>, j: nat, k: nat)
    requires forall f | f in h :: f.Record? && f.body.Assigned?
    requires Chain(h) && Distinct(h) && j < |h| && k < |h| && h[j].body.previous == h[k].body.previous
    ensures j == k
  {
    Predecessor(h, j);
    Predecessor(h, k);
  }

  lemma CommittedRecorded(s: State, candidate: Candidate)
    requires Sound(s) && IsCommitted(s.log, candidate)
    ensures FactOf(s.log, candidate).Some?
    ensures var fact := FactOf(s.log, candidate).value;
            && fact in History(s.log, candidate.intent.contract) && IsFactOfCandidate(fact, candidate)
            && fact in s.log && Caused(fact)
    ensures Recorded(s.log, candidate.intent)
    ensures Declaration(s.log, candidate.intent.contract).Some?
  {
    CommittedOnce(s, candidate);
    var fact := FactOf(s.log, candidate).value;
    MatchingMembers(s.log, FactsOf(candidate));
    assert fact in Matching(s.log, FactsOf(candidate));
    HistoryMembers(s.log, candidate.intent.contract);
    ParentsLogged(s.log, fact);
    assert fact.parents[1] in fact.parents;
    assert SameIntent(fact, candidate.intent);
  }

  // ------------------------------------------------------------------ one publication

  // A committed Candidate is answered with its original fact, and nothing is written.
  lemma Replay(s: State, candidate: Candidate, mode: Mode)
    requires Sound(s) && IsCommitted(s.log, candidate)
    ensures FactOf(s.log, candidate).Some?
    ensures Publish(s, candidate, mode) == Outcome(s, Done(FactOf(s.log, candidate).value))
  {
    CommittedRecorded(s, candidate);
    var fact := FactOf(s.log, candidate).value;
    ReplacedOnce(s.log, candidate.intent.contract, fact);
  }

  // A transition already recorded under another Candidate is rejected as stale: the rejection is
  // written, and no history changes.
  lemma OtherKey(s: State, candidate: Candidate, mode: Mode)
    requires Sound(s) && Declaration(s.log, candidate.intent.contract).Some?
    requires Recorded(s.log, candidate.intent) && !IsCommitted(s.log, candidate)
    ensures var o := Publish(s, candidate, mode);
            && o.verdict == Reject(Stale)
            && Sound(o.state)
            && Record(Rejected(candidate, Stale), [Receipt(candidate)]) in o.state.log
            && !IsCommitted(o.state.log, candidate)
            && forall c :: History(o.state.log, c) == History(s.log, c)
  {
    hide Sound, Recorded, IsCommitted, Preflight, Decide, FactOf, Declaration;
    OtherKeyStale(s, candidate, mode);
    RefusedStays(s, candidate, Stale);
  }

  lemma OtherKeyStale(s: State, candidate: Candidate, mode: Mode)
    requires Sound(s) && Declaration(s.log, candidate.intent.contract).Some?
    requires Recorded(s.log, candidate.intent) && !IsCommitted(s.log, candidate)
    ensures Preflight(s, candidate.intent, mode) == None && Decide(s, candidate) == Refused(Stale)
  {
    var intent := candidate.intent;
    var f :| f in History(s.log, intent.contract) && SameIntent(f, intent);
    ReplacedOnce(s.log, intent.contract, f);
  }

  lemma RefusedStays(s: State, candidate: Candidate, conflict: Conflict)
    requires Sound(s) && Decide(s, candidate) == Refused(conflict)
    ensures var t := Commit(s, candidate);
            && Sound(t) && s.log <= t.log
            && (forall c :: History(t.log, c) == History(s.log, c))
            && !IsCommitted(t.log, candidate)
            && (forall r | r in t.log && r !in s.log :: r in Written(candidate, Refused(conflict)))
            && (forall r | r in Written(candidate, Refused(conflict)) :: r in t.log)
  {
    CommitRefused(s, candidate, conflict);
    AddAllExtends(s.log, Written(candidate, Refused(conflict)));
  }

  // A fresh transition is either refused before anything is written, or accepted.
  lemma Fresh(s: State, candidate: Candidate, mode: Mode)
    requires Sound(s) && !Recorded(s.log, candidate.intent)
    ensures var o := Publish(s, candidate, mode);
            var contract := candidate.intent.contract;
            match Preflight(s, candidate.intent, mode)
            case Some(refusal) => o == Outcome(s, Refuse(refusal))
            case None =>
              && o.verdict.Done? && Sound(o.state) && s.log <= o.state.log
              && o.verdict.fact !in s.log && IsFactOfCandidate(o.verdict.fact, candidate) && Caused(o.verdict.fact)
              && candidate.intent.previous == Head(s.log, contract)
              && IsCommitted(o.state.log, candidate) && FactOf(o.state.log, candidate) == Some(o.verdict.fact)
              && History(o.state.log, contract) == History(s.log, contract) + [o.verdict.fact]
              && forall c | c != contract :: History(o.state.log, c) == History(s.log, c)
  {
    if Preflight(s, candidate.intent, mode) == None {
      if IsCommitted(s.log, candidate) {
        CommittedRecorded(s, candidate);
        assert false;
      }
      var fact := Fact(s, Declaration(s.log, candidate.intent.contract).value, candidate);
      assert Decide(s, candidate) == Accepted(fact);
      AcceptedStays(s, candidate, fact);
    }
  }

  lemma AcceptedStays(s: State, candidate: Candidate, fact: Id)
    requires Sound(s) && Decide(s, candidate) == Accepted(fact)
    ensures var t, contract := Commit(s, candidate), candidate.intent.contract;
            && Sound(t) && s.log <= t.log
            && fact !in s.log && IsFactOfCandidate(fact, candidate) && Caused(fact)
            && candidate.intent.previous == Head(s.log, contract)
            && IsCommitted(t.log, candidate) && FactOf(t.log, candidate) == Some(fact)
            && History(t.log, contract) == History(s.log, contract) + [fact]
            && (forall c | c != contract :: History(t.log, c) == History(s.log, c))
            && (forall r :: r in t.log <==> r in s.log || r in Written(candidate, Accepted(fact)))
  {
    hide Decide, Caused, Follows, Grounded, Owned, Unambiguous, Chained, History, Head, FactOf;
    AddAllExtends(s.log, Written(candidate, Accepted(fact)));
    AcceptedFact(s, candidate, fact);
    AcceptedIntent(s, candidate, fact);
    CommitAccepted(s, candidate, fact);
    Uncommitted(s.log, candidate);
    var t := Commit(s, candidate);
    assert HeadRecord(candidate, fact) in t.log && IsHeadOf(HeadRecord(candidate, fact), candidate);
    assert fact in t.log;
    FactOfFinds(t.log, candidate, fact);
  }

  lemma AcceptedIntent(s: State, candidate: Candidate, fact: Id)
    requires Decide(s, candidate) == Accepted(fact)
    ensures candidate.intent.previous == Head(s.log, candidate.intent.contract)
  {
  }

  // A contract whose assignment may still change.
  predicate Open(s: State, contract: string) {
    && Declaration(s.log, contract).Some?
    && contract !in s.claimed && contract !in s.satisfied && Record(Terminal(contract), []) !in s.log
  }

  // A registered worker that can serve the contract.
  predicate Serves(s: State, contract: string, worker: string)
    requires Open(s, contract)
  {
    && worker in s.registrations && IsRegistration(s.registrations[worker], worker)
    && Compatible(Declaration(s.log, contract).value.body, s.registrations[worker].body.offer)
  }

  // When a new transition is admitted: the contract is open, the transition names the head it
  // replaces and changes the worker, and a worker named can serve.
  predicate Admissible(s: State, intent: Intent, mode: Mode) {
    && Open(s, intent.contract)
    && intent.previous == Head(s.log, intent.contract) && (mode.Assign? <==> intent.previous == NONE)
    && intent.worker != CurrentWorker(s.log, intent.contract)
    && (intent.worker != "" ==> Serves(s, intent.contract, intent.worker))
  }

  // A new transition is accepted exactly when it is admissible. It then is the head, and its
  // worker the current one; a clear is a head without a worker.
  lemma AcceptedExactly(s: State, candidate: Candidate, mode: Mode)
    requires Sound(s) && !Recorded(s.log, candidate.intent)
    ensures var o, c := Publish(s, candidate, mode), candidate.intent.contract;
            && (o.verdict.Done? <==> Admissible(s, candidate.intent, mode))
            && (o.verdict.Done? ==>
                  Head(o.state.log, c) == o.verdict.fact && CurrentWorker(o.state.log, c) == candidate.intent.worker)
  {
    Fresh(s, candidate, mode);
    AdmittedExactly(s, candidate.intent, mode);
    if Preflight(s, candidate.intent, mode) == None {
      var o, c := Publish(s, candidate, mode), candidate.intent.contract;
      hide Publish, Preflight, History, Caused, Sound;
      FactSays(o.verdict.fact, candidate);
      var h := History(o.state.log, c);
      assert h[|h| - 1] == o.verdict.fact;
    }
  }

  lemma AdmittedExactly(s: State, intent: Intent, mode: Mode)
    requires Sound(s) && !Recorded(s.log, intent)
    ensures Preflight(s, intent, mode) == None <==> Admissible(s, intent, mode)
  {
    if intent.worker in s.registrations {
      assert IsRegistration(s.registrations[intent.worker], intent.worker);
    }
  }

  lemma FactSays(f: Id, c: Candidate)
    requires IsFactOfCandidate(f, c) && Caused(f)
    ensures f.body == Assigned(c, c.intent.contract, c.intent.previous, c.intent.reason, c.intent.worker)
  {
  }

  // Whatever it answers, a publication keeps the ledger sound, only appends, changes no history
  // but its own contract's, and finds the fact of what it accepts.
  lemma PublishKeeps(s: State, candidate: Candidate, mode: Mode)
    requires Sound(s)
    ensures var o := Publish(s, candidate, mode);
            && Sound(o.state) && s.log <= o.state.log && !o.verdict.Lost?
            && (forall c | c != candidate.intent.contract :: History(o.state.log, c) == History(s.log, c))
            && (o.verdict.Refuse? ==> o.state == s)
            && (o.verdict.Reject? ==> forall c :: History(o.state.log, c) == History(s.log, c))
            && (o.verdict.Done? <==> IsCommitted(o.state.log, candidate))
            && (o.verdict.Done? ==> FactOf(o.state.log, candidate) == Some(o.verdict.fact))
  {
    if IsCommitted(s.log, candidate) {
      Replay(s, candidate, mode);
    } else if Preflight(s, candidate.intent, mode) == None {
      CommitSound(s, candidate);
      match Decide(s, candidate)
      case Accepted(fact) => AcceptedStays(s, candidate, fact);
      case Refused(conflict) => RefusedStays(s, candidate, conflict);
    }
  }

  // ------------------------------------------------------------------ later publications

  lemma {:induction false} FactOfLater(a: seq<Id>, b: seq<Id>, candidate: Candidate)
    requires a <= b && FactOf(a, candidate).Some?
    ensures FactOf(b, candidate) == FactOf(a, candidate)
  {
    if !IsFactOfCandidate(a[0], candidate) {
      assert a[1..] <= b[1..];
      FactOfLater(a[1..], b[1..], candidate);
    }
  }

  lemma {:induction false} DeclarationLater(a: seq<Id>, b: seq<Id>, contract: string)
    requires a <= b && Declaration(a, contract).Some?
    ensures Declaration(b, contract) == Declaration(a, contract)
  {
    if !IsDeclaration(a[0], contract) {
      assert a[1..] <= b[1..];
      DeclarationLater(a[1..], b[1..], contract);
    }
  }

  lemma CommittedLater(a: seq<Id>, b: seq<Id>, candidate: Candidate)
    requires a <= b && IsCommitted(a, candidate)
    ensures IsCommitted(b, candidate)
  {
    var r :| r in a && IsHeadOf(r, candidate);
    assert r in b;
  }

  // However much happens after an acceptance, publishing the same Candidate again writes nothing
  // and returns the original fact.
  lemma ReplayLater(s: State, candidate: Candidate, mode: Mode, steps: seq<Step>, again: Mode)
    requires Sound(s) && Publish(s, candidate, mode).verdict.Done?
    ensures var o := Publish(s, candidate, mode);
            var later := Run(o.state, steps);
            Publish(later, candidate, again) == Outcome(later, o.verdict)
  {
    var o := Publish(s, candidate, mode);
    PublishKeeps(s, candidate, mode);
    RunSound(o.state, steps);
    var later := Run(o.state, steps);
    CommittedLater(o.state.log, later.log, candidate);
    FactOfLater(o.state.log, later.log, candidate);
    Replay(later, candidate, again);
  }

  // Re-submitting accepted Candidates, in any order and any number of times, is a pure read.
  lemma {:induction false} ReplayAll(s: State, candidates: seq<Candidate>, mode: Mode)
    requires Sound(s) && forall c | c in candidates :: IsCommitted(s.log, c)
    ensures PublishAll(s, candidates, mode) == s
    ensures forall k | 0 <= k < |candidates| ::
              && FactOf(s.log, candidates[k]).Some?
              && Verdicts(s, candidates, mode)[k] == Done(FactOf(s.log, candidates[k]).value)
  {
    hide Sound, Publish, FactOf, IsCommitted;
    if candidates != [] {
      ReplayAll(s, candidates[..|candidates| - 1], mode);
      Replay(s, candidates[|candidates| - 1], mode);
    }
  }

  // Once a transition has replaced a head, another worker or reason for that same predecessor is
  // refused before anything is written, whatever its key.
  lemma ChangedIntent(s: State, committed: Candidate, other: Candidate, mode: Mode)
    requires Sound(s) && IsCommitted(s.log, committed)
    requires other.intent.contract == committed.intent.contract && other.intent.previous == committed.intent.previous
    requires other.intent != committed.intent
    ensures Publish(s, other, mode) == Outcome(s, Refuse(if mode.Assign? then AlreadyAssigned else HeadMoved))
  {
    CommittedRecorded(s, committed);
    var contract, fact := committed.intent.contract, FactOf(s.log, committed).value;
    ReplacedOnce(s.log, contract, fact);
    assert !Recorded(s.log, other.intent);
  }

  // A key by itself guards nothing: two uncommitted Candidates with one intent fare alike.
  lemma KeyBlind(s: State, a: Candidate, b: Candidate, mode: Mode)
    requires Sound(s) && a.intent == b.intent && !IsCommitted(s.log, a) && !IsCommitted(s.log, b)
    ensures var x, y := Publish(s, a, mode).verdict, Publish(s, b, mode).verdict;
            (x.Done? <==> y.Done?) && (x.Refuse? || x.Reject? ==> x == y)
  {
    hide Sound, Preflight, Objection, Fact, FactOf, Commit, IsCommitted, History;
    PublishKeeps(s, a, mode);
    PublishKeeps(s, b, mode);
  }

  // Whether reusing a committed Candidate's key for another intent of any kind is refused without
  // a write depends on the intent alone: exactly when the preflight objects to it, or the pair
  // was itself committed.
  lemma ReusedKey(s: State, committed: Candidate, intent: Intent, mode: Mode)
    requires Sound(s) && IsCommitted(s.log, committed) && intent != committed.intent
    requires !IsCommitted(s.log, Candidate(intent, committed.key))
    ensures var o := Publish(s, Candidate(intent, committed.key), mode);
            && (o.verdict.Refuse? <==> Preflight(s, intent, mode).Some?)
            && (o.verdict.Done? <==> Preflight(s, intent, mode) == None && !Recorded(s.log, intent))
            && (o.verdict.Done? ==> o.state.log != s.log && intent.previous == Head(s.log, intent.contract))
  {
    var other := Candidate(intent, committed.key);
    if Recorded(s.log, intent) {
      if Preflight(s, intent, mode) == None {
        OtherKey(s, other, mode);
      }
    } else {
      Fresh(s, other, mode);
    }
  }

  // Nothing in a history has the current head as predecessor.
  lemma NotRecordedAtHead(s: State, intent: Intent)
    requires Sound(s) && intent.previous == Head(s.log, intent.contract)
    ensures !Recorded(s.log, intent)
  {
    if Recorded(s.log, intent) {
      var g :| g in History(s.log, intent.contract) && SameIntent(g, intent);
      ReplacedOnce(s.log, intent.contract, g);
    }
  }

  // ------------------------------------------------------------------ one key, two facts

  // A task declared and two workers registered.
  function Opening(): (steps: seq<Step>) {
    var offer := Offer(true, {}, {});
    [Declare("t", {}, {}), Register("a", "1", offer), Register("b", "1", offer)]
  }

  lemma Opened()
    ensures var offer := Offer(true, {}, {});
            var a, b := Record(Registered("a", "1", offer), []), Record(Registered("b", "1", offer), []);
            Run(EMPTY, Opening()) == State([Record(Declared("t", {}, {}), []), a, b], map["a" := a, "b" := b], {}, {})
  {
    var offer := Offer(true, {}, {});
    var declare, ra, rb := Declare("t", {}, {}), Register("a", "1", offer), Register("b", "1", offer);
    assert Opening()[..2] == [declare, ra];
    assert [declare, ra][..1] == [declare];
    assert Run(EMPTY, []) == EMPTY;
    assert [declare][..0] == [];
    var one := Run(EMPTY, [declare]);
    assert one.log == [Record(Declared("t", {}, {}), [])];
    var two := Run(EMPTY, [declare, ra]);
    assert two == Next(one, ra);
    assert two.log == [Record(Declared("t", {}, {}), []), Record(Registered("a", "1", offer), [])];
    assert Run(EMPTY, Opening()) == Next(two, rb);
  }

  // A worker a contract may be handed to, whoever holds it now.
  predicate Assignable(s: State, contract: string, worker: string) {
    Open(s, contract) && worker != "" && Serves(s, contract, worker)
  }

  lemma AssignableNow(s: State, intent: Intent, mode: Mode)
    requires Sound(s) && Assignable(s, intent.contract, intent.worker) && intent.previous == Head(s.log, intent.contract)
    requires intent.worker != CurrentWorker(s.log, intent.contract) && (mode.Assign? <==> intent.previous == NONE)
    ensures Preflight(s, intent, mode) == None && !Recorded(s.log, intent)
  {
    NotRecordedAtHead(s, intent);
  }

  lemma AssignableCommit(s: State, candidate: Candidate, contract: string, worker: string)
    requires Assignable(s, contract, worker)
    ensures Assignable(Commit(s, candidate), contract, worker)
  {
    hide Declaration, Written;
    AddAllExtends(s.log, Written(candidate, Decide(s, candidate)));
    DeclarationLater(s.log, Commit(s, candidate).log, contract);
    NoTerminal(s, candidate, contract);
  }

  // A decision ends no contract.
  lemma NoTerminal(s: State, candidate: Candidate, contract: string)
    ensures Record(Terminal(contract), []) !in Written(candidate, Decide(s, candidate))
  {
    hide Objection, Fact, IsCommitted, Declaration;
    match Decide(s, candidate)
    case Replayed =>
    case Refused(conflict) =>
    case Accepted(fact) => assert fact.Record? && fact.body.Assigned? by { AcceptedKind(s, candidate, fact); }
  }

  lemma AcceptedKind(s: State, candidate: Candidate, fact: Id)
    requires Decide(s, candidate) == Accepted(fact)
    ensures fact.Record? && fact.body.Assigned?
  {
  }

  lemma AssignableStill(s: State, candidate: Candidate, mode: Mode, contract: string, worker: string)
    requires Assignable(s, contract, worker)
    ensures Assignable(Publish(s, candidate, mode).state, contract, worker)
  {
    hide Commit, Decide, Preflight, Assignable, FactOf;
    AssignableCommit(s, candidate, contract, worker);
  }

  // A used key with a changed intent is not always refused: reassigning from the current head
  // under the very key of the first assignment is accepted, and the contract then has two facts
  // of one key.
  lemma KeyAcceptedTwice(s: State, contract: string, a: string, b: string, reason: string, key: string)
    requires Sound(s) && History(s.log, contract) == [] && a != b
    requires Assignable(s, contract, a) && Assignable(s, contract, b)
    ensures var first := Candidate(Intent(contract, a, NONE, reason), key);
            var o := Publish(s, first, Assign);
            && o.verdict.Done?
            && var second := Candidate(Intent(contract, b, o.verdict.fact, reason), key);
               var p := Publish(o.state, second, Reassign);
               p.verdict.Done? && History(p.state.log, contract) == [o.verdict.fact, p.verdict.fact]
  {
    var first := Candidate(Intent(contract, a, NONE, reason), key);
    hide Sound, Preflight, Publish, Caused, FactOf, Recorded, IsCommitted, Distinct;
    AssignableNow(s, first.intent, Assign);
    Fresh(s, first, Assign);
    AssignableStill(s, first, Assign, contract, b);
    var o := Publish(s, first, Assign);
    var fact := o.verdict.fact;
    assert History(o.state.log, contract) == [fact];
    var second := Candidate(Intent(contract, b, fact, reason), key);
    AssignableNow(o.state, second.intent, Reassign);
    Fresh(o.state, second, Reassign);
  }

  lemma KeyAcceptedTwiceInARun()
    ensures var s := Run(EMPTY, Opening());
            Sound(s) && History(s.log, "t") == [] && Assignable(s, "t", "a") && Assignable(s, "t", "b")
  {
    EmptySound();
    RunSound(EMPTY, Opening());
    Opened();
    OpenedHistory();
  }

  lemma {:induction false} NoFacts(log: seq<Id>, contract: string)
    requires forall r | r in log :: !IsFactOf(r, contract)
    ensures History(log, contract) == []
  {
    if log != [] {
      NoFacts(log[..|log| - 1], contract);
    }
  }

  lemma OpenedHistory()
    ensures History(Run(EMPTY, Opening()).log, "t") == []
    ensures Declaration(Run(EMPTY, Opening()).log, "t") == Some(Record(Declared("t", {}, {}), []))
  {
    Opened();
    var log := Run(EMPTY, Opening()).log;
    assert log[..2][..1][..0] == [];
    NoFacts(log, "t");
  }
}
