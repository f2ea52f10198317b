// The causal parents the provenance script asks of every assignment fact.

module LedgerProvenance {
  import opened Wrappers
  import opened Ledger
  import opened LedgerProofs
  import opened LedgerGraph

  function DeclarationOf(contract: string): Id -> bool {
    r => IsDeclaration(r, contract)
  }

  function RegistrationOf(worker: string): Id -> bool {
    r => IsRegistration(r, worker)
  }

  // The assertions of the provenance script about one direct assignment fact.
  predicate Provenance(s: State, f: Id)
    requires f.Record? && f.body.Assigned?
  {
    var Assigned(candidate, contract, previous, _, worker) := f.body;
    var receipts := Matching(f.parents, AnyReceipt());
    var heads := Matching(s.log, HeadOf(candidate));
    var registrations := Matching(f.parents, RegistrationOf(worker));
    && (forall p | p in f.parents :: p in s.log)
    && |receipts| == 1 && receipts[0] == Receipt(candidate)
    && |Matching(f.parents, DeclarationOf(contract))| == 1
    && (previous != NONE ==> previous in f.parents && IsFactOf(previous, contract))
    && (worker != "" ==>
          && |registrations| == 1
          && worker in s.registrations && registrations[0] == s.registrations[worker])
    && |heads| == 1 && heads[0].Record? && heads[0].body.Committed?
    && f in heads[0].body.members && receipts[0] in heads[0].parents
  }

  // Exactly one element has the property.
  ghost predicate Once(rs: seq<Id>, p: Id -> bool) {
    exists i :: 0 <= i < |rs| && p(rs[i]) && forall j | 0 <= j < |rs| && p(rs[j]) :: j == i
  }

  lemma OnceMore(front: seq<Id>, last: Id, p: Id -> bool)
    ensures Once(front + [last], p) <==> if p(last) then forall r | r in front :: !p(r) else Once(front, p)
  {
    if p(last) {
      OnceLast(front, last, p);
    } else {
      OnceBefore(front, last, p);
    }
  }

  lemma OnceLast(front: seq<Id>, last: Id, p: Id -> bool)
    requires p(last)
    ensures Once(front + [last], p) <==> forall r | r in front :: !p(r)
  {
    var rs, n := front + [last], |front|;
    assert p(rs[n]);
    if Once(rs, p) {
      forall r | r in front ensures !p(r) {
        var j :| 0 <= j < n && front[j] == r;
        assert rs[j] == r;
      }
    }
    if forall r | r in front :: !p(r) {
      assert forall j | 0 <= j < n :: rs[j] in front;
    }
  }

  lemma OnceBefore(front: seq<Id>, last: Id, p: Id -> bool)
    requires !p(last)
    ensures Once(front + [last], p) <==> Once(front, p)
  {
    var rs, n := front + [last], |front|;
    assert forall j | 0 <= j < n :: rs[j] == front[j];
    if Once(rs, p) {
      var i :| 0 <= i < |rs| && p(rs[i]) && forall j | 0 <= j < |rs| && p(rs[j]) :: j == i;
      assert p(front[i]) && forall j | 0 <= j < n && p(front[j]) :: p(rs[j]);
    }
    if Once(front, p) {
      var i :| 0 <= i < n && p(front[i]) && forall j | 0 <= j < n && p(front[j]) :: j == i;
      assert p(rs[i]) && forall j | 0 <= j < |rs| && p(rs[j]) :: j < n && p(front[j]);
    }
  }

  lemma {:induction false} MatchingOnce(rs: seq<Id>, p: Id -> bool)
    ensures |Matching(rs, p)| == 1 <==> Once(rs, p)
  {
    hide Once;
    if rs == [] {
      assert !Once(rs, p) by { NotOnce(p); }
    } else {
      var n := |rs| - 1;
      MatchingOnce(rs[..n], p);
      MatchingMembers(rs[..n], p);
      OnceMore(rs[..n], rs[n], p);
      assert rs == rs[..n] + [rs[n]];
      if Matching(rs[..n], p) != [] {
        assert Matching(rs[..n], p)[0] in Matching(rs[..n], p);
      }
    }
  }

  lemma NotOnce(p: Id -> bool)
    ensures !Once([], p)
  {
  }

  // The script accepts a fact, in any state at all, exactly when all its parents are logged; among
  // them are one receipt, its Candidate's, and one declaration of its contract; the predecessor it
  // names is among them and a fact of the contract; if it names a worker, one registration of that
  // worker, the current one; and the log has one head of the Candidate, with the fact as a member
  // and the receipt as a parent.
  lemma ProvenanceExactly(s: State, f: Id)
    requires f.Record? && f.body.Assigned?
    ensures Provenance(s, f)
       <==> var Assigned(candidate, contract, previous, _, worker) := f.body;
            && (forall p | p in f.parents :: p in s.log)
            && Once(f.parents, (p: Id) => p.Record? && p.body.Received?) && Receipt(candidate) in f.parents
            && Once(f.parents, (p: Id) => p.Record? && p.body.Declared? && p.body.contract == contract)
            && (previous != Text("") ==>
                  previous in f.parents && previous.Record? && previous.body.Assigned? && previous.body.contract == contract)
            && (worker != "" ==>
                  && Once(f.parents, (p: Id) => p.Record? && p.body.Registered? && p.body.worker == worker)
                  && worker in s.registrations && s.registrations[worker] in f.parents
                  && s.registrations[worker].Record? && s.registrations[worker].body.Registered?
                  && s.registrations[worker].body.worker == worker)
            && Once(s.log, (r: Id) => r.Record? && r.body.Committed? && r.body.candidate == candidate)
            && exists h :: h in s.log && h.Record? && h.body.Committed? && h.body.candidate == candidate
                           && f in h.body.members && Receipt(candidate) in h.parents
  {
    var Assigned(candidate, contract, previous, _, worker) := f.body;
    SameOnce(f.parents, AnyReceipt(), (p: Id) => p.Record? && p.body.Received?);
    SameOnce(f.parents, DeclarationOf(contract), (p: Id) => p.Record? && p.body.Declared? && p.body.contract == contract);
    SameOnce(f.parents, RegistrationOf(worker), (p: Id) => p.Record? && p.body.Registered? && p.body.worker == worker);
    SameOnce(s.log, HeadOf(candidate), (r: Id) => r.Record? && r.body.Committed? && r.body.candidate == candidate);
    OnlyOf(f.parents, AnyReceipt());
    OnlyOf(f.parents, RegistrationOf(worker));
    OnlyOf(s.log, HeadOf(candidate));
    hide Matching, Once;
  }

  lemma SameOnce(rs: seq<Id>, p: Id -> bool, q: Id -> bool)
    requires forall r :: p(r) <==> q(r)
    ensures Once(rs, p) <==> Once(rs, q)
    ensures |Matching(rs, p)| == 1 <==> Once(rs, q)
  {
    MatchingOnce(rs, p);
  }

  // The one element is the one.
  lemma OnlyOf(rs: seq<Id>, p: Id -> bool)
    ensures |Matching(rs, p)| == 1 ==> Matching(rs, p)[0] in rs && p(Matching(rs, p)[0])
    ensures forall r | |Matching(rs, p)| == 1 && r in rs && p(r) :: Matching(rs, p)[0] == r
  {
    MatchingMembers(rs, p);
    hide Matching;
    assert |Matching(rs, p)| == 1 ==> Matching(rs, p)[0] in Matching(rs, p);
  }

  // Every fact passes, except that one naming a worker fails once that worker has been
  // registered anew: the script compares with the current registration.
  lemma FactProvenance(s: State, f: Id)
    requires Sound(s) && f in s.log && f.Record? && f.body.Assigned?
    ensures Provenance(s, f)
       <==> (f.body.worker != "" ==> f.body.worker in s.registrations && s.registrations[f.body.worker] in f.parents)
  {
    var Assigned(candidate, contract, previous, _, worker) := f.body;
    FactCaused(s, f);
    ParentsLogged(s.log, f);
    HeadsAlone(s.log, candidate, f);
    MatchingOne(s.log, HeadOf(candidate), HeadRecord(candidate, f));
    hide Kept, Caused, Matching, Distinct;
    ParentsOnce(f);
    if worker != "" && worker in s.registrations {
      assert IsRegistration(s.registrations[worker], worker);
    }
  }

  // Among a fact's parents: one receipt, one declaration, one registration if it names a worker.
  lemma ParentsOnce(f: Id)
    requires f.Record? && f.body.Assigned? && Caused(f)
    ensures Matching(f.parents, AnyReceipt()) == [Receipt(f.body.candidate)]
    ensures Matching(f.parents, DeclarationOf(f.body.contract)) == [f.parents[1]]
    ensures f.body.worker != "" ==> Matching(f.parents, RegistrationOf(f.body.worker)) == [f.parents[|f.parents| - 1]]
    ensures f.body.worker != "" ==>
              forall r | IsRegistration(r, f.body.worker) && r in f.parents :: r == f.parents[|f.parents| - 1]
    ensures f.body.previous != NONE ==> f.body.previous in f.parents && IsFactOf(f.body.previous, f.body.contract)
    ensures f.body.worker != "" ==> f.parents[|f.parents| - 1] in f.parents
    ensures forall p | p in f.parents :: p.Record?
  {
    var Assigned(candidate, contract, previous, _, worker) := f.body;
    var last := f.parents[|f.parents| - 1];
    ParentKinds(f);
    assert f.parents[0] in f.parents && f.parents[1] in f.parents && last in f.parents;
    hide Caused;
    MatchingOne(f.parents, AnyReceipt(), Receipt(candidate));
    MatchingOne(f.parents, DeclarationOf(contract), f.parents[1]);
    if worker != "" {
      MatchingOne(f.parents, RegistrationOf(worker), last);
    }
  }

  lemma ParentKinds(f: Id)
    requires f.Record? && f.body.Assigned? && Caused(f)
    ensures |f.parents| >= 2 && f.parents[0] == Receipt(f.body.candidate) && Distinct(f.parents)
    ensures forall p | p in f.parents :: p.Record?
    ensures forall p | p in f.parents :: IsReceipt(p) <==> p == f.parents[0]
    ensures forall p | p in f.parents :: IsDeclaration(p, f.body.contract) <==> p == f.parents[1]
    ensures f.body.worker != "" ==>
              forall p | p in f.parents :: IsRegistration(p, f.body.worker) <==> p == f.parents[|f.parents| - 1]
    ensures f.body.previous != NONE ==> f.body.previous in f.parents && IsFactOf(f.body.previous, f.body.contract)
  {
    var previous, last := f.body.previous, f.parents[|f.parents| - 1];
    hide Compatible, IsFactOf;
    if previous != NONE {
      assert previous.Record? && previous.body.Assigned? by { FactKind(previous, f.body.contract); }
      assert f.parents[2] == previous;
    }
  }

  lemma FactKind(f: Id, contract: string)
    requires IsFactOf(f, contract)
    ensures f.Record? && f.body.Assigned?
  {
  }

  // In every run from the empty store, every assignment fact has exactly those parents.
  lemma RunProvenance(steps: seq<Step>, f: Id)
    requires f in Run(EMPTY, steps).log && f.Record? && f.body.Assigned?
    ensures var s := Run(EMPTY, steps);
            && Caused(f)
            && (Provenance(s, f)
                <==> (f.body.worker != "" ==> f.body.worker in s.registrations && s.registrations[f.body.worker] in f.parents))
  {
    EmptySound();
    RunSound(EMPTY, steps);
    FactProvenance(Run(EMPTY, steps), f);
    FactCaused(Run(EMPTY, steps), f);
  }
}
