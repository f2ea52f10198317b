// What every run of the ledger keeps: the shape of the record graph, one receipt and one head
// per committed Candidate, and assignment histories that are chains.

module LedgerProofs {
  import opened Wrappers
  import opened Ledger

  // ------------------------------------------------------------------ what is kept

  predicate IsRegistration(r: Id, worker: string) {
    r.Record? && r.body.Registered? && r.body.worker == worker
  }

  // The parents of an assignment fact: its receipt, a declaration of its own contract, the
  // predecessor it names, and a registration under which its worker may serve the contract.
  predicate Caused(r: Id)
    requires r.Record? && r.body.Assigned?
  {
    var Assigned(candidate, contract, previous, reason, worker) := r.body;
    && |r.parents| >= 2
    && var declaration, last := r.parents[1], r.parents[|r.parents| - 1];
    && candidate.intent == Intent(contract, worker, previous, reason)
    && IsDeclaration(declaration, contract)
    && (previous != NONE ==> IsFactOf(previous, contract))
    && (worker != "" ==> IsRegistration(last, worker) && Compatible(declaration.body, last.body.offer))
    && r.parents == [Receipt(candidate), declaration]
                    + (if previous == NONE then [] else [previous])
                    + (if worker == "" then [] else [last])
  }

  predicate Shaped(r: Id) {
    && r.Record?
    && match r.body
       case Received(candidate) => r == Receipt(candidate)
       case Assigned(_, _, _, _, _) => Caused(r)
       case Committed(candidate, members) =>
         |members| == 1 && IsFactOfCandidate(members[0], candidate) && r == HeadRecord(candidate, members[0])
       case Rejected(candidate, _) => r.parents == [Receipt(candidate)]
       case _ => r.parents == []
  }

  predicate Follows(r: Id, earlier: seq<Id>) {
    r.Record? && forall p | p in r.parents && p.Record? :: p in earlier
  }

  // No record twice, every record of a known shape, and after its parents.
  predicate Grounded(log: seq<Id>) {
    forall i {:trigger Shaped(log[i])} {:trigger Follows(log[i], log[..i])} | 0 <= i < |log| ::
      Shaped(log[i]) && Follows(log[i], log[..i]) && log[i] !in log[..i]
  }

  // A fact lies in the log with its Candidate's head, and is that Candidate's only fact.
  ghost predicate Owned(log: seq<Id>) {
    && (forall f {:trigger Logged(log, f)} | Logged(log, f) :: HeadRecord(f.body.candidate, f) in log)
    && (forall f, g {:trigger Logged(log, f), Logged(log, g)} |
          Logged(log, f) && Logged(log, g) && f.body.candidate == g.body.candidate :: f == g)
  }

  // An assignment fact of the log.
  predicate Logged(log: seq<Id>, f: Id) {
    f in log && f.Record? && f.body.Assigned?
  }

  ghost predicate Unambiguous(log: seq<Id>) {
    forall c, d {:trigger Declares(log, c), Declares(log, d)} |
      Declares(log, c) && Declares(log, d) && c.body.contract == d.body.contract :: c == d
  }

  // A declaration of the log.
  predicate Declares(log: seq<Id>, d: Id) {
    d in log && d.Record? && d.body.Declared?
  }

  // The first fact replaces nothing; each later one replaces the fact before it.
  predicate Chain(h: seq<Id>) {
    forall k | 0 <= k < |h| :: Linked(h, k)
  }

  predicate Linked(h: seq<Id>, k: nat)
    requires k < |h|
  {
    h[k].Record? && h[k].body.Assigned? && h[k].body.previous == if k == 0 then NONE else h[k - 1]
  }

  ghost predicate Chained(log: seq<Id>) {
    forall contract {:trigger Chain(History(log, contract))} :: Chain(History(log, contract))
  }

  // What the log alone keeps.
  ghost predicate Kept(log: seq<Id>) {
    Grounded(log) && Owned(log) && Unambiguous(log) && Chained(log)
  }

  predicate Enrolled(s: State) {
    forall w | w in s.registrations :: w != "" && s.registrations[w] in s.log && IsRegistration(s.registrations[w], w)
  }

  ghost predicate Sound(s: State) {
    Kept(s.log) && Enrolled(s)
  }

  lemma GroundedDistinct(log: seq<Id>)
    requires Grounded(log)
    ensures Distinct(log)
  {
    forall i, j | 0 <= i < j < |log| ensures log[i] != log[j] {
      assert Shaped(log[j]) && log[j] !in log[..j] && log[..j][i] == log[i];
    }
  }

  // ------------------------------------------------------------------ one record at a time

  lemma GroundedAdd(log: seq<Id>, r: Id)
    requires Grounded(log) && Shaped(r) && Follows(r, log)
    ensures Grounded(Add(log, r))
  {
    hide Shaped;
    if r !in log {
      var next := log + [r];
      forall i | 0 <= i < |next| ensures Shaped(next[i]) && Follows(next[i], next[..i]) && next[i] !in next[..i] {
        if i < |log| {
          assert Shaped(log[i]) && next[..i] == log[..i];
        } else {
          assert next[..i] == log;
        }
      }
    }
  }

  lemma HistoryAdd(log: seq<Id>, r: Id, contract: string)
    ensures History(Add(log, r), contract)
         == if r !in log && IsFactOf(r, contract) then History(log, contract) + [r] else History(log, contract)
  {
    if r !in log {
      assert (log + [r])[..|log|] == log;
    }
  }

  lemma {:induction false} HistoryMembers(log: seq<Id>, contract: string)
    ensures forall r :: r in History(log, contract) <==> r in log && IsFactOf(r, contract)
  {
    if log != [] {
      HistoryMembers(log[..|log| - 1], contract);
      assert log == log[..|log| - 1] + [log[|log| - 1]];
    }
  }

  lemma {:induction false} HistoryPrefix(a: seq<Id>, b: seq<Id>, contract: string)
    requires a <= b
    ensures History(a, contract) <= History(b, contract)
    decreases |b|
  {
    if a == b {
    } else {
      HistoryPrefix(a, b[..|b| - 1], contract);
    }
  }

  // A record that is no assignment fact changes no history.
  lemma PlainAdd(log: seq<Id>, r: Id)
    requires Kept(log)
    requires Shaped(r) && Follows(r, log) && !r.body.Assigned?
    requires r.body.Declared? ==> Declaration(log, r.body.contract).None?
    ensures Kept(Add(log, r))
    ensures forall c :: History(Add(log, r), c) == History(log, c)
  {
    GroundedAdd(log, r);
    PlainOwned(log, r);
    PlainUnambiguous(log, r);
    forall c ensures History(Add(log, r), c) == History(log, c) && Chain(History(Add(log, r), c)) {
      HistoryAdd(log, r, c);
      assert Chain(History(log, c));
    }
  }

  lemma PlainOwned(log: seq<Id>, r: Id)
    requires Owned(log) && r.Record? && !r.body.Assigned?
    ensures Owned(Add(log, r))
  {
    var next := Add(log, r);
    forall f | Logged(next, f) ensures Logged(log, f) && HeadRecord(f.body.candidate, f) in next {
      assert Logged(log, f);
    }
    forall f, g | Logged(next, f) && Logged(next, g) && f.body.candidate == g.body.candidate ensures f == g {
      assert Logged(log, f) && Logged(log, g);
    }
  }

  lemma PlainUnambiguous(log: seq<Id>, r: Id)
    requires Unambiguous(log) && r.Record? && (r.body.Declared? ==> Declaration(log, r.body.contract).None?)
    ensures Unambiguous(Add(log, r))
  {
    var next := Add(log, r);
    forall c, d | Declares(next, c) && Declares(next, d) && c.body.contract == d.body.contract ensures c == d {
      if c in log && d in log {
        assert Declares(log, c) && Declares(log, d);
      }
    }
  }

  // The head of a logged fact is logged, and the fact is the only one of its Candidate.
  lemma OnlyFact(log: seq<Id>, f: Id)
    requires Owned(log) && Logged(log, f)
    ensures HeadRecord(f.body.candidate, f) in log
    ensures forall g: Id | g in log && g.Record? && g.body.Assigned? && g.body.candidate == f.body.candidate :: g == f
  {
    forall g: Id | g in log && g.Record? && g.body.Assigned? && g.body.candidate == f.body.candidate ensures g == f {
      assert Logged(log, g);
    }
  }

  lemma ParentsLogged(log: seq<Id>, r: Id)
    requires Grounded(log) && r in log
    ensures r.Record? && forall p | p in r.parents && p.Record? :: p in log
  {
    var k :| 0 <= k < |log| && log[k] == r;
    assert Shaped(log[k]) && Follows(log[k], log[..k]);
  }

  lemma ChainGrow(h: seq<Id>, f: Id)
    requires Chain(h) && f.Record? && f.body.Assigned?
    requires f.body.previous == if h == [] then NONE else h[|h| - 1]
    ensures Chain(h + [f])
  {
    var next := h + [f];
    forall k | 0 <= k < |next| ensures Linked(next, k) {
      if k < |h| {
        assert Linked(h, k);
      }
    }
  }

  // A fact that names the head extends its own chain and no other history.
  lemma ChainAdd(log: seq<Id>, f: Id)
    requires Chained(log) && f !in log && f.Record? && f.body.Assigned?
    requires f.body.previous == Head(log, f.body.contract)
    ensures Chained(log + [f])
    ensures forall c :: History(log + [f], c) == if c == f.body.contract then History(log, c) + [f] else History(log, c)
  {
    forall c
      ensures History(log + [f], c) == if c == f.body.contract then History(log, c) + [f] else History(log, c)
      ensures Chain(History(log + [f], c))
    {
      HistoryAdd(log, f, c);
      assert Chain(History(log, c));
      if c == f.body.contract {
        ChainGrow(History(log, c), f);
      }
    }
  }

  // A new fact's head is new too, and of the right shape after the fact.
  lemma HeadFits(log: seq<Id>, f: Id)
    requires Grounded(log) && f !in log
    requires Shaped(f) && Follows(f, log) && f.body.Assigned?
    ensures var head := HeadRecord(f.body.candidate, f);
            Shaped(head) && head !in log && Follows(head, log + [f])
  {
    var head := HeadRecord(f.body.candidate, f);
    assert f.parents[0] == Receipt(f.body.candidate);
    assert f.parents[0] in f.parents;
    if head in log {
      ParentsLogged(log, head);
    }
  }

  // A Candidate's head is no assignment fact.
  lemma FactChained(log: seq<Id>, f: Id, head: Id)
    requires Chained(log) && f !in log && f.Record? && f.body.Assigned?
    requires f.body.previous == Head(log, f.body.contract)
    requires head == HeadRecord(f.body.candidate, f) && head !in log
    ensures Chained(log + [f, head])
    ensures forall c :: History(log + [f, head], c) == if c == f.body.contract then History(log, c) + [f] else History(log, c)
  {
    ChainAdd(log, f);
    var next := log + [f, head];
    assert next == Add(log + [f], head);
    hide Chain, Head;
    forall c ensures History(next, c) == History(log + [f], c) && Chain(History(next, c)) {
      HistoryAdd(log + [f], head, c);
      assert Chain(History(log + [f], c));
    }
  }

  lemma FactOwned(log: seq<Id>, f: Id)
    requires Owned(log) && Unambiguous(log) && f.Record? && f.body.Assigned?
    requires forall g: Id | g in log && g.Record? && g.body.Assigned? :: g.body.candidate != f.body.candidate
    ensures f !in log
    ensures Owned(log + [f, HeadRecord(f.body.candidate, f)]) && Unambiguous(log + [f, HeadRecord(f.body.candidate, f)])
  {
    var next := log + [f, HeadRecord(f.body.candidate, f)];
    forall g | Logged(next, g) ensures (g == f || Logged(log, g)) && HeadRecord(g.body.candidate, g) in next {
      if g != f {
        assert Logged(log, g);
      }
    }
    forall c, d | Declares(next, c) && Declares(next, d) && c.body.contract == d.body.contract ensures c == d {
      assert Declares(log, c) && Declares(log, d);
    }
    forall g, h | Logged(next, g) && Logged(next, h) && g.body.candidate == h.body.candidate ensures g == h {
      assert (g == f || Logged(log, g)) && (h == f || Logged(log, h));
    }
  }

  // A Candidate's fact enters together with its head.
  lemma FactAdd(log: seq<Id>, f: Id)
    requires Kept(log)
    requires Shaped(f) && Follows(f, log) && f.body.Assigned?
    requires f.body.previous == Head(log, f.body.contract)
    requires forall g: Id | g in log && g.Record? && g.body.Assigned? :: g.body.candidate != f.body.candidate
    ensures var next := log + [f, HeadRecord(f.body.candidate, f)];
            && Kept(next)
            && forall c :: History(next, c) == if c == f.body.contract then History(log, c) + [f] else History(log, c)
  {
    var head := HeadRecord(f.body.candidate, f);
    hide Grounded, Owned, Unambiguous, Chained, Shaped, Caused, Follows, Head, History;
    FactOwned(log, f);
    HeadFits(log, f);
    GroundedAdd(log, f);
    GroundedAdd(log + [f], head);
    assert log + [f, head] == Add(Add(log, f), head);
    FactChained(log, f, head);
  }

  // ------------------------------------------------------------------ one step at a time

  lemma AddThree(log: seq<Id>, a: Id, b: Id, c: Id)
    ensures AddAll(log, [a, b, c]) == Add(Add(Add(log, a), b), c)
  {
    assert [a, b, c][1..] == [b, c];
    assert [b, c][1..] == [c];
    assert AddAll(Add(Add(log, a), b), [c]) == Add(Add(Add(log, a), b), c);
  }

  lemma {:induction false} AddAllExtends(log: seq<Id>, rs: seq<Id>)
    ensures log <= AddAll(log, rs)
    ensures forall r :: r in AddAll(log, rs) <==> r in log || r in rs
    decreases |rs|
  {
    if rs != [] {
      AddAllExtends(Add(log, rs[0]), rs[1..]);
      assert rs == [rs[0]] + rs[1..];
    }
  }

  lemma AddFour(log: seq<Id>, a: Id, b: Id, c: Id, d: Id)
    ensures AddAll(log, [a, b, c, d]) == Add(Add(Add(Add(log, a), b), c), d)
  {
    assert [a, b, c, d][1..] == [b, c, d];
    AddThree(Add(log, a), b, c, d);
  }

  // The fact an admitted Candidate projects to fits the log it is projected from.
  lemma FactFits(s: State, candidate: Candidate, declaration: Id)
    requires Sound(s) && Declaration(s.log, candidate.intent.contract) == Some(declaration)
    requires Objection(s, declaration.body, candidate.intent) == None
    ensures var fact := Fact(s, declaration, candidate);
            && Caused(fact) && fact.body.previous == Head(s.log, candidate.intent.contract)
            && Follows(fact, s.log + [Receipt(candidate)])
  {
    var contract, fact := candidate.intent.contract, Fact(s, declaration, candidate);
    HistoryMembers(s.log, contract);
    var h := History(s.log, contract);
    if h != [] {
      assert h[|h| - 1] in h;
    }
    assert Receipt(candidate) in s.log + [Receipt(candidate)];
  }

  lemma Uncommitted(log: seq<Id>, candidate: Candidate)
    requires Owned(log) && !IsCommitted(log, candidate)
    ensures forall g: Id | g in log && g.Record? && g.body.Assigned? :: g.body.candidate != candidate
  {
    forall g: Id | g in log && g.Record? && g.body.Assigned? ensures g.body.candidate != candidate {
      OnlyFact(log, g);
      assert IsHeadOf(HeadRecord(g.body.candidate, g), g.body.candidate);
    }
  }

  // Acceptance appends the fact to its contract's history, after the receipt and with the head.
  lemma CommitAccepted(s: State, candidate: Candidate, fact: Id)
    requires Sound(s) && Decide(s, candidate) == Accepted(fact)
    ensures Sound(Commit(s, candidate))
    ensures Commit(s, candidate).log
         == Add(Add(s.log, Receipt(candidate)) + [fact, HeadRecord(candidate, fact)], Record(Traced(candidate, true), []))
    ensures History(Commit(s, candidate).log, candidate.intent.contract) == History(s.log, candidate.intent.contract) + [fact]
    ensures forall c | c != candidate.intent.contract :: History(Commit(s, candidate).log, c) == History(s.log, c)
  {
    var contract, receipt := candidate.intent.contract, Receipt(candidate);
    var log, trace := Add(s.log, receipt), Record(Traced(candidate, true), []);
    hide Kept, Shaped, Caused, Follows, History, Head, Decide, Commit, Enrolled, IsCommitted;
    AcceptedReady(s, candidate, fact);
    AcceptedFact(s, candidate, fact);
    CommitLog(s, candidate, fact);
    AcceptedAdd(log, candidate, fact, trace);
    EnrolledLater(s, Commit(s, candidate));
  }

  lemma CommitLog(s: State, candidate: Candidate, fact: Id)
    requires Decide(s, candidate) == Accepted(fact)
    ensures Commit(s, candidate).log
         == Add(Add(Add(Add(s.log, Receipt(candidate)), fact), HeadRecord(candidate, fact)), Record(Traced(candidate, true), []))
    ensures Commit(s, candidate).registrations == s.registrations
  {
    AddFour(s.log, Receipt(candidate), fact, HeadRecord(candidate, fact), Record(Traced(candidate, true), []));
  }

  lemma EnrolledLater(s: State, t: State)
    requires Enrolled(s) && s.log <= t.log && t.registrations == s.registrations
    ensures Enrolled(t)
  {
  }

  lemma AcceptedFact(s: State, candidate: Candidate, fact: Id)
    requires Sound(s) && Decide(s, candidate) == Accepted(fact)
    ensures Shaped(fact) && fact.body.Assigned?
    ensures fact.body.candidate == candidate && fact.body.contract == candidate.intent.contract
    ensures fact.body.previous == Head(s.log, candidate.intent.contract)
    ensures Follows(fact, s.log + [Receipt(candidate)])
    ensures !IsCommitted(s.log, candidate)
  {
    FactFits(s, candidate, Declaration(s.log, candidate.intent.contract).value);
  }

  // Once the receipt is logged, everything the accepted fact needs is in place.
  lemma AcceptedReady(s: State, candidate: Candidate, fact: Id)
    requires Sound(s) && Decide(s, candidate) == Accepted(fact)
    ensures var log := Add(s.log, Receipt(candidate));
            && Kept(log)
            && (forall c :: History(log, c) == History(s.log, c) && Head(log, c) == Head(s.log, c))
            && Follows(fact, log)
            && forall g: Id | g in log && g.Record? && g.body.Assigned? :: g.body.candidate != candidate
  {
    hide Decide, Grounded, Owned, Unambiguous, Chained, Shaped, Caused, History, Follows, IsCommitted;
    AcceptedFact(s, candidate, fact);
    Uncommitted(s.log, candidate);
    ReceiptFits(candidate, s.log);
    PlainAdd(s.log, Receipt(candidate));
    FollowsAdd(fact, s.log, Receipt(candidate));
  }

  lemma FollowsAdd(r: Id, log: seq<Id>, x: Id)
    requires Follows(r, log + [x])
    ensures Follows(r, Add(log, x))
  {
  }

  lemma ReceiptFits(candidate: Candidate, log: seq<Id>)
    ensures Shaped(Receipt(candidate)) && Follows(Receipt(candidate), log)
  {
  }

  lemma FactNew(log: seq<Id>, f: Id)
    requires Kept(log) && Shaped(f) && Follows(f, log) && f.body.Assigned?
    requires forall g: Id | g in log && g.Record? && g.body.Assigned? :: g.body.candidate != f.body.candidate
    ensures f !in log && HeadRecord(f.body.candidate, f) !in log
  {
    assert f !in log;
    HeadFits(log, f);
  }

  lemma AcceptedAdd(log: seq<Id>, candidate: Candidate, fact: Id, trace: Id)
    requires Kept(log)
    requires trace == Record(Traced(candidate, true), [])
    requires fact.Record? && fact.body.Assigned? && fact.body.candidate == candidate
    requires Shaped(fact) && Follows(fact, log)
    requires fact.body.previous == Head(log, fact.body.contract)
    requires forall g: Id | g in log && g.Record? && g.body.Assigned? :: g.body.candidate != candidate
    ensures var next := Add(Add(Add(log, fact), HeadRecord(candidate, fact)), trace);
            && next == Add(log + [fact, HeadRecord(candidate, fact)], trace)
            && Kept(next)
            && forall c :: History(next, c) == if c == fact.body.contract then History(log, c) + [fact] else History(log, c)
  {
    var head := HeadRecord(candidate, fact);
    hide Kept, Caused, Shaped, Follows, History, Head, Declaration;
    FactAdd(log, fact);
    FactNew(log, fact);
    assert Add(log, fact) == log + [fact];
    assert Add(log + [fact], head) == log + [fact, head];
    PlainFits(Traced(candidate, true), log + [fact, head]);
    PlainAdd(log + [fact, head], trace);
  }

  lemma PlainFits(body: Body, log: seq<Id>)
    requires body.Declared? || body.Registered? || body.Terminal? || body.Traced?
    ensures Shaped(Record(body, [])) && Follows(Record(body, []), log)
  {
  }

  // A refusal writes its own records and changes no history.
  lemma CommitRefused(s: State, candidate: Candidate, conflict: Conflict)
    requires Sound(s) && Decide(s, candidate) == Refused(conflict)
    ensures Sound(Commit(s, candidate))
    ensures forall c :: History(Commit(s, candidate).log, c) == History(s.log, c)
  {
    hide Kept, Decide, Caused, History, Enrolled;
    var receipt, trace := Receipt(candidate), Record(Traced(candidate, false), []);
    var rejection := Record(Rejected(candidate, conflict), [receipt]);
    AddThree(s.log, receipt, rejection, trace);
    PlainAdd(s.log, receipt);
    var log := Add(s.log, receipt);
    PlainAdd(log, rejection);
    PlainFits(Traced(candidate, false), Add(log, rejection));
    PlainAdd(Add(log, rejection), trace);
    EnrolledLater(s, Commit(s, candidate));
  }

  lemma SoundNext(s: State, step: Step)
    requires Sound(s)
    ensures Sound(Next(s, step)) && s.log <= Next(s, step).log
  {
    hide Grounded, Owned, Chained, Shaped, Caused;
    match step
    case Declare(contract, capabilities, pools) =>
      if Declaration(s.log, contract).None? {
        var r := Record(Declared(contract, capabilities, pools), []);
        PlainFits(r.body, s.log);
        PlainAdd(s.log, r);
      }
    case Register(worker, version, offer) =>
      var r := Record(Registered(worker, version, offer), []);
      PlainFits(r.body, s.log);
      PlainAdd(s.log, r);
    case Claim(contract) =>
    case Terminate(contract) =>
      var r := Record(Terminal(contract), []);
      PlainFits(r.body, s.log);
      PlainAdd(s.log, r);
    case Satisfy(contract) =>
    case Submit(candidate) => CommitSound(s, candidate);
  }

  lemma CommitSound(s: State, candidate: Candidate)
    requires Sound(s)
    ensures Sound(Commit(s, candidate)) && s.log <= Commit(s, candidate).log
  {
    AddAllExtends(s.log, Written(candidate, Decide(s, candidate)));
    hide Sound;
    match Decide(s, candidate)
    case Replayed =>
    case Accepted(fact) => CommitAccepted(s, candidate, fact);
    case Refused(conflict) => CommitRefused(s, candidate, conflict);
  }

  // Every run from the empty store is sound, and only ever appends to the log.
  lemma {:induction false} RunSound(s: State, steps: seq<Step>)
    requires Sound(s)
    ensures Sound(Run(s, steps)) && s.log <= Run(s, steps).log
  {
    if steps != [] {
      RunSound(s, steps[..|steps| - 1]);
      SoundNext(Run(s, steps[..|steps| - 1]), steps[|steps| - 1]);
    }
  }

  lemma EmptySound()
    ensures Sound(EMPTY)
  {
  }
}
