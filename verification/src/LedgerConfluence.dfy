// Publications for different contracts do not depend on each other: a batch leaves the same
// ledger whatever the order, the interruptions and the repetitions it was published with.

module LedgerConfluence {
  import opened Wrappers
  import opened Ledger
  import opened LedgerProofs
  import opened LedgerGraph
  import opened LedgerOutcomes

  // Two states in which one contract looks the same.
  predicate Alike(s: State, t: State, contract: string) {
    && Declaration(s.log, contract) == Declaration(t.log, contract)
    && History(s.log, contract) == History(t.log, contract)
    && s.registrations == t.registrations
    && (contract in s.claimed <==> contract in t.claimed)
    && (contract in s.satisfied <==> contract in t.satisfied)
    && (Record(Terminal(contract), []) in s.log <==> Record(Terminal(contract), []) in t.log)
  }

  // The records a publication asks the store to write.
  function Writes(s: State, candidate: Candidate, mode: Mode): seq<Id> {
    if Preflight(s, candidate.intent, mode).Some? then [] else Written(candidate, Decide(s, candidate))
  }

  lemma CommittedInHistory(s: State, candidate: Candidate)
    requires Sound(s)
    ensures IsCommitted(s.log, candidate)
       <==> exists f :: f in History(s.log, candidate.intent.contract) && IsFactOfCandidate(f, candidate)
  {
    if IsCommitted(s.log, candidate) {
      CommittedRecorded(s, candidate);
    }
    HistoryMembers(s.log, candidate.intent.contract);
    if f :| f in History(s.log, candidate.intent.contract) && IsFactOfCandidate(f, candidate) {
      HeadsAlone(s.log, candidate, f);
      assert IsHeadOf(HeadRecord(candidate, f), candidate);
    }
  }

  // A publication depends on its own contract only.
  lemma AlikeDecide(s: State, t: State, candidate: Candidate, mode: Mode)
    requires Sound(s) && Sound(t) && Alike(s, t, candidate.intent.contract)
    ensures IsCommitted(s.log, candidate) <==> IsCommitted(t.log, candidate)
    ensures Preflight(s, candidate.intent, mode) == Preflight(t, candidate.intent, mode)
    ensures Decide(s, candidate) == Decide(t, candidate)
  {
    hide Sound, IsCommitted, Declaration, Objection, Fact, Recorded, Head;
    CommittedInHistory(s, candidate);
    CommittedInHistory(t, candidate);
    AlikeRules(s, t, candidate);
  }

  lemma AlikeRules(s: State, t: State, candidate: Candidate)
    requires Alike(s, t, candidate.intent.contract)
    ensures Head(s.log, candidate.intent.contract) == Head(t.log, candidate.intent.contract)
    ensures Recorded(s.log, candidate.intent) == Recorded(t.log, candidate.intent)
    ensures forall d: Body | d.Declared? :: Objection(s, d, candidate.intent) == Objection(t, d, candidate.intent)
    ensures forall d :: Fact(s, d, candidate) == Fact(t, d, candidate)
  {
  }

  lemma WritesState(s: State, candidate: Candidate, mode: Mode)
    ensures Publish(s, candidate, mode).state == s.(log := AddAll(s.log, Writes(s, candidate, mode)))
  {
  }

  // A publication changes only the history of its own contract.
  lemma Elsewhere(s: State, candidate: Candidate, mode: Mode, contract: string)
    requires Sound(s) && contract != candidate.intent.contract
    ensures Alike(Publish(s, candidate, mode).state, s, contract)
  {
    PublishKeeps(s, candidate, mode);
    Standing(s, candidate, mode, contract);
  }

  // Declarations, terminal facts, claims and registrations are not its business.
  lemma Standing(s: State, candidate: Candidate, mode: Mode, contract: string)
    requires Sound(s)
    ensures var t := Publish(s, candidate, mode).state;
            && Declaration(t.log, contract) == Declaration(s.log, contract)
            && t.registrations == s.registrations && t.claimed == s.claimed && t.satisfied == s.satisfied
            && (Record(Terminal(contract), []) in s.log <==> Record(Terminal(contract), []) in t.log)
  {
    WritesState(s, candidate, mode);
    AddAllExtends(s.log, Writes(s, candidate, mode));
    WritesKinds(s, candidate, mode);
    var t := Publish(s, candidate, mode).state;
    hide Writes, Publish, Sound;
    if Declaration(s.log, contract).Some? {
      DeclarationLater(s.log, t.log, contract);
    } else {
      assert forall r | r in t.log :: !IsDeclaration(r, contract);
    }
  }

  lemma WritesKinds(s: State, candidate: Candidate, mode: Mode)
    requires Sound(s)
    ensures forall r | r in Writes(s, candidate, mode) ::
              r.Record? && !r.body.Declared? && !r.body.Terminal? && !r.body.Registered?
  {
  }

  // Where a contract looks alike before a publication, it looks alike after it, with the same
  // answer and the same records asked for.
  lemma AlikePublish(s: State, t: State, candidate: Candidate, mode: Mode)
    requires Sound(s) && Sound(t) && Alike(s, t, candidate.intent.contract)
    ensures Alike(Publish(s, candidate, mode).state, Publish(t, candidate, mode).state, candidate.intent.contract)
    ensures Publish(s, candidate, mode).verdict == Publish(t, candidate, mode).verdict
    ensures Writes(s, candidate, mode) == Writes(t, candidate, mode)
  {
    var contract := candidate.intent.contract;
    AlikeDecide(s, t, candidate, mode);
    Standing(s, candidate, mode, contract);
    Standing(t, candidate, mode, contract);
    if IsCommitted(s.log, candidate) {
      Replay(s, candidate, mode);
      Replay(t, candidate, mode);
      SameFact(s, t, candidate);
    } else if Preflight(s, candidate.intent, mode) == None {
      match Decide(s, candidate)
      case Accepted(fact) =>
        AcceptedStays(s, candidate, fact);
        AcceptedStays(t, candidate, fact);
      case Refused(conflict) =>
        RefusedStays(s, candidate, conflict);
        RefusedStays(t, candidate, conflict);
    }
  }

  lemma SameFact(s: State, t: State, candidate: Candidate)
    requires Sound(s) && Sound(t) && IsCommitted(s.log, candidate)
    requires History(s.log, candidate.intent.contract) == History(t.log, candidate.intent.contract)
    ensures FactOf(s.log, candidate) == FactOf(t.log, candidate)
  {
    CommittedRecorded(s, candidate);
    HistoryMembers(t.log, candidate.intent.contract);
    FactOfFinds(t.log, candidate, FactOf(s.log, candidate).value);
  }

  // ------------------------------------------------------------------ once is enough

  lemma {:induction false} AddAllSame(log: seq<Id>, rs: seq<Id>)
    requires forall r | r in rs :: r in log
    ensures AddAll(log, rs) == log
    decreases |rs|
  {
    if rs != [] {
      AddAllSame(log, rs[1..]);
    }
  }

  // Publishing again at once changes nothing and answers the same.
  lemma PublishTwice(s: State, candidate: Candidate, mode: Mode)
    requires Sound(s)
    ensures var o := Publish(s, candidate, mode);
            && Publish(o.state, candidate, mode) == o
            && forall r | r in Writes(o.state, candidate, mode) :: r in Writes(s, candidate, mode)
  {
    var o := Publish(s, candidate, mode);
    PublishKeeps(s, candidate, mode);
    if o.verdict.Done? {
      Replay(o.state, candidate, mode);
    } else if o.verdict.Reject? {
      RejectTwice(s, candidate, mode);
    }
  }

  lemma RejectTwice(s: State, candidate: Candidate, mode: Mode)
    requires Sound(s) && Publish(s, candidate, mode).verdict.Reject?
    ensures var o := Publish(s, candidate, mode);
            Publish(o.state, candidate, mode) == o && Writes(o.state, candidate, mode) == Writes(s, candidate, mode)
  {
    var o := Publish(s, candidate, mode);
    hide Sound, Decide, Preflight, Commit, FactOf, IsCommitted;
    PublishKeeps(s, candidate, mode);
    Standing(s, candidate, mode, candidate.intent.contract);
    AlikePublish(s, o.state, candidate, mode);
    hide Publish, Writes;
    WritesState(s, candidate, mode);
    WritesState(o.state, candidate, mode);
    AddAllExtends(s.log, Writes(s, candidate, mode));
    AddAllSame(o.state.log, Writes(s, candidate, mode));
  }

  // ------------------------------------------------------------------ batches

  predicate OnePerContract(batch: seq<Candidate>) {
    forall a, b | a in batch && b in batch && a.intent.contract == b.intent.contract :: a == b
  }

  // After any attempts at a batch each attempted contract looks as if published alone, every
  // other as before, and the log holds exactly the records of the separate publications.
  ghost predicate Settled(s: State, attempts: seq<Candidate>, mode: Mode, t: State) {
    && Sound(t) && s.log <= t.log && t == s.(log := t.log)
    && (forall c | c in attempts :: Alike(t, Publish(s, c, mode).state, c.intent.contract))
    && (forall d | !Targeted(attempts, d) :: Alike(t, s, d))
    && (forall r :: r in t.log <==> r in s.log || Asked(s, attempts, mode, r))
  }

  predicate Targeted(attempts: seq<Candidate>, contract: string) {
    exists c :: c in attempts && c.intent.contract == contract
  }

  predicate Asked(s: State, attempts: seq<Candidate>, mode: Mode, r: Id) {
    exists c :: c in attempts && r in Writes(s, c, mode)
  }

  // The next attempt answers as it would have at the start.
  lemma SettledNext(s: State, front: seq<Candidate>, c: Candidate, mode: Mode, t: State)
    requires Sound(s) && Settled(s, front, mode, t) && OnePerContract(front + [c])
    ensures Publish(t, c, mode).verdict == Publish(s, c, mode).verdict
    ensures Alike(Publish(t, c, mode).state, Publish(s, c, mode).state, c.intent.contract)
    ensures forall r :: r in Writes(t, c, mode) ==> r in Writes(s, c, mode)
    ensures c !in front ==> Writes(t, c, mode) == Writes(s, c, mode)
  {
    PublishKeeps(s, c, mode);
    var once := Publish(s, c, mode).state;
    assert c in front + [c];
    if c in front {
      PublishTwice(s, c, mode);
      AlikePublish(t, once, c, mode);
    } else {
      Untargeted(front, c);
      AlikePublish(t, s, c, mode);
    }
  }

  lemma Untargeted(front: seq<Candidate>, c: Candidate)
    requires OnePerContract(front + [c]) && c !in front
    ensures !Targeted(front, c.intent.contract)
  {
    forall b | b in front ensures b.intent.contract != c.intent.contract {
      assert b in front + [c] && c in front + [c];
    }
  }

  lemma TargetedGrows(front: seq<Candidate>, c: Candidate, contract: string)
    ensures Targeted(front + [c], contract) <==> Targeted(front, contract) || c.intent.contract == contract
  {
    if b :| b in front && b.intent.contract == contract {
      assert b in front + [c];
    }
    assert c in front + [c];
  }

  lemma SettledGrows(s: State, front: seq<Candidate>, c: Candidate, mode: Mode, t: State)
    requires Sound(s) && Settled(s, front, mode, t) && OnePerContract(front + [c])
    ensures Settled(s, front + [c], mode, Publish(t, c, mode).state)
  {
    var attempts, next := front + [c], Publish(t, c, mode).state;
    hide Writes, Publish, Sound, Alike, Targeted, Asked;
    PublishKeeps(t, c, mode);
    WritesState(t, c, mode);
    SettledAlike(s, front, c, mode, t);
    SettledRecords(s, front, c, mode, t);
  }

  lemma SettledAlike(s: State, front: seq<Candidate>, c: Candidate, mode: Mode, t: State)
    requires Sound(s) && Settled(s, front, mode, t) && OnePerContract(front + [c])
    ensures var next := Publish(t, c, mode).state;
            && (forall b | b in front + [c] :: Alike(next, Publish(s, b, mode).state, b.intent.contract))
            && (forall d | !Targeted(front + [c], d) :: Alike(next, s, d))
  {
    var next := Publish(t, c, mode).state;
    SettledNext(s, front, c, mode, t);
    hide Writes, Publish, Sound, Targeted, Asked;
    forall b | b in front + [c] ensures Alike(next, Publish(s, b, mode).state, b.intent.contract) {
      if b != c {
        assert b in front && c in front + [c];
        Elsewhere(t, c, mode, b.intent.contract);
      }
    }
    forall d | !Targeted(front + [c], d) ensures Alike(next, s, d) {
      TargetedGrows(front, c, d);
      Elsewhere(t, c, mode, d);
    }
  }

  lemma SettledRecords(s: State, front: seq<Candidate>, c: Candidate, mode: Mode, t: State)
    requires Sound(s) && Settled(s, front, mode, t) && OnePerContract(front + [c])
    ensures forall r :: r in Publish(t, c, mode).state.log <==> r in s.log || Asked(s, front + [c], mode, r)
  {
    SettledNext(s, front, c, mode, t);
    WritesState(t, c, mode);
    AddAllExtends(t.log, Writes(t, c, mode));
    hide Writes, Publish, Sound, Alike;
    forall r ensures r in Publish(t, c, mode).state.log <==> r in s.log || Asked(s, front + [c], mode, r) {
      AskedGrows(s, front, c, mode, r);
    }
  }

  lemma AskedGrows(s: State, front: seq<Candidate>, c: Candidate, mode: Mode, r: Id)
    ensures Asked(s, front + [c], mode, r) <==> Asked(s, front, mode, r) || r in Writes(s, c, mode)
  {
    if b :| b in front && r in Writes(s, b, mode) {
      assert b in front + [c];
    }
    assert c in front + [c];
  }

  lemma {:induction false} BatchSettles(s: State, attempts: seq<Candidate>, mode: Mode)
    requires Sound(s) && OnePerContract(attempts)
    ensures Settled(s, attempts, mode, PublishAll(s, attempts, mode))
    ensures forall k | 0 <= k < |attempts| :: Verdicts(s, attempts, mode)[k] == Publish(s, attempts[k], mode).verdict
  {
    hide Publish, Sound, Alike;
    if attempts == [] {
      SettledAtOnce(s, mode);
    } else {
      var front, c := attempts[..|attempts| - 1], attempts[|attempts| - 1];
      assert attempts == front + [c];
      BatchSettles(s, front, mode);
      SettledNext(s, front, c, mode, PublishAll(s, front, mode));
      SettledGrows(s, front, c, mode, PublishAll(s, front, mode));
    }
  }

  lemma SettledAtOnce(s: State, mode: Mode)
    requires Sound(s)
    ensures Settled(s, [], mode, s)
  {
  }

  // The same Candidates, in another order and with other repetitions: the same histories and the
  // same records.
  lemma Confluence(s: State, a: seq<Candidate>, b: seq<Candidate>, mode: Mode)
    requires Sound(s) && OnePerContract(a) && forall c :: c in a <==> c in b
    ensures var t, u := PublishAll(s, a, mode), PublishAll(s, b, mode);
            && (forall d :: History(t.log, d) == History(u.log, d))
            && multiset(t.log) == multiset(u.log)
  {
    hide Publish, Verdicts, PublishAll, Writes, Alike, OnePerContract;
    BatchSettles(s, a, mode);
    assert OnePerContract(b) by { SameApart(a, b); }
    BatchSettles(s, b, mode);
    var t, u := PublishAll(s, a, mode), PublishAll(s, b, mode);
    forall d ensures History(t.log, d) == History(u.log, d) {
      if Targeted(a, d) {
        var c :| c in a && c.intent.contract == d;
        AlikeHistory(t, u, Publish(s, c, mode).state, d);
      } else {
        assert !Targeted(b, d);
        AlikeHistory(t, u, s, d);
      }
    }
    forall r ensures r in t.log <==> r in u.log {
      assert Asked(s, a, mode, r) <==> Asked(s, b, mode, r);
    }
    GroundedDistinct(t.log);
    GroundedDistinct(u.log);
    SameMembers(t.log, u.log);
  }

  // And for each Candidate the same answer every time.
  lemma ConfluentVerdicts(s: State, a: seq<Candidate>, b: seq<Candidate>, mode: Mode, i: nat, j: nat)
    requires Sound(s) && OnePerContract(a) && (forall c :: c in a <==> c in b)
    requires i < |a| && j < |b| && a[i] == b[j]
    ensures Verdicts(s, a, mode)[i] == Verdicts(s, b, mode)[j]
  {
    hide Publish, Verdicts, OnePerContract;
    SameApart(a, b);
    BatchSettles(s, a, mode);
    BatchSettles(s, b, mode);
  }

  lemma SameApart(a: seq<Candidate>, b: seq<Candidate>)
    requires OnePerContract(a) && forall c :: c in a <==> c in b
    ensures OnePerContract(b)
  {
  }

  lemma AlikeHistory(t: State, u: State, s: State, contract: string)
    requires Alike(t, s, contract) && Alike(u, s, contract)
    ensures History(t.log, contract) == History(u.log, contract)
  {
  }

  lemma SameMembers(a: seq<Id>, b: seq<Id>)
    requires Distinct(a) && Distinct(b) && forall r :: r in a <==> r in b
    ensures multiset(a) == multiset(b)
  {
    DistinctCounts(a);
    DistinctCounts(b);
    forall r ensures multiset(a)[r] == multiset(b)[r] {
    }
  }

  // Attempting again what was already attempted changes nothing and answers the same.
  lemma Reattempt(s: State, attempts: seq<Candidate>, mode: Mode, c: Candidate)
    requires Sound(s) && OnePerContract(attempts) && c in attempts
    ensures var t := PublishAll(s, attempts, mode);
            Publish(t, c, mode) == Outcome(t, Publish(s, c, mode).verdict)
  {
    BatchSettles(s, attempts, mode);
    var t := PublishAll(s, attempts, mode);
    assert OnePerContract(attempts + [c]);
    SettledNext(s, attempts, c, mode, t);
    hide Publish, Writes, PublishAll;
    WritesState(t, c, mode);
    forall r | r in Writes(t, c, mode) ensures r in t.log {
      assert Asked(s, attempts, mode, r);
    }
    AddAllSame(t.log, Writes(t, c, mode));
  }

  lemma {:induction false} ReattemptAll(s: State, attempts: seq<Candidate>, mode: Mode, again: seq<Candidate>)
    requires Sound(s) && OnePerContract(attempts) && forall c | c in again :: c in attempts
    ensures var t := PublishAll(s, attempts, mode);
            && PublishAll(t, again, mode) == t
            && forall k | 0 <= k < |again| :: Verdicts(t, again, mode)[k] == Publish(s, again[k], mode).verdict
  {
    hide Publish, Sound;
    if again != [] {
      var front, c := again[..|again| - 1], again[|again| - 1];
      ReattemptAll(s, attempts, mode, front);
      Reattempt(s, attempts, mode, c);
    }
  }
}
