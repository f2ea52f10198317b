// The record graph of a sound ledger: one receipt and one head per committed Candidate, and
// parents before children.

module LedgerGraph {
  import opened Wrappers
  import opened Ledger
  import opened LedgerProofs

  function Matching(rs: seq<Id>, p: Id -> bool): seq<Id> {
    if rs == [] then []
    else Matching(rs[..|rs| - 1], p) + if p(rs[|rs| - 1]) then [rs[|rs| - 1]] else []
  }

  lemma {:induction false} MatchingNone(rs: seq<Id>, p: Id -> bool)
    requires forall y | y in rs :: !p(y)
    ensures Matching(rs, p) == []
  {
    if rs != [] {
      MatchingNone(rs[..|rs| - 1], p);
    }
  }

  lemma {:induction false} MatchingOne(rs: seq<Id>, p: Id -> bool, x: Id)
    requires Distinct(rs) && x in rs && p(x)
    requires forall y | y in rs && p(y) :: y == x
    ensures Matching(rs, p) == [x]
  {
    var front, last := rs[..|rs| - 1], rs[|rs| - 1];
    assert rs == front + [last];
    if last == x {
      MatchingNone(front, p);
    } else {
      MatchingOne(front, p, x);
    }
  }

  // ------------------------------------------------------------------ one receipt, one head

  predicate IsReceipt(r: Id) {
    r.Record? && r.body.Received?
  }

  predicate IsReceiptOf(r: Id, candidate: Candidate) {
    IsReceipt(r) && r.body.candidate == candidate
  }

  function ReceiptOf(candidate: Candidate): Id -> bool {
    r => IsReceiptOf(r, candidate)
  }

  function AnyReceipt(): Id -> bool {
    r => IsReceipt(r)
  }

  function HeadOf(candidate: Candidate): Id -> bool {
    r => IsHeadOf(r, candidate)
  }

  function FactsOf(candidate: Candidate): Id -> bool {
    r => IsFactOfCandidate(r, candidate)
  }

  // What replaying a committed Candidate checks before it returns the original projection.
  predicate ReplayChecks(log: seq<Id>, candidate: Candidate) {
    var heads, receipts := Matching(log, HeadOf(candidate)), Matching(log, ReceiptOf(candidate));
    && |heads| == 1 && |receipts| == 1
    && heads[0].Record? && heads[0].body.Committed?
    && var head := heads[0];
       var facts := Matching(head.body.members, FactsOf(candidate));
       && Distinct(head.body.members)
       && (forall m | m in head.body.members :: m in log && m in head.parents)
       && |facts| == 1
       && facts[0].Record? && facts[0].body.Assigned?
       && facts[0].body.contract == candidate.intent.contract
       && receipts[0] in head.parents
  }

  lemma FactOfFinds(log: seq<Id>, candidate: Candidate, fact: Id)
    requires Owned(log) && fact in log && IsFactOfCandidate(fact, candidate)
    ensures FactOf(log, candidate) == Some(fact)
  {
    OnlyFact(log, fact);
    FactOfFirst(log, candidate, fact);
  }

  lemma {:induction false} FactOfFirst(log: seq<Id>, candidate: Candidate, fact: Id)
    requires fact in log && IsFactOfCandidate(fact, candidate)
    requires forall g | g in log && IsFactOfCandidate(g, candidate) :: g == fact
    ensures FactOf(log, candidate) == Some(fact)
  {
    if !IsFactOfCandidate(log[0], candidate) {
      FactOfFirst(log[1..], candidate, fact);
    }
  }

  // A committed Candidate has one receipt, one head and one fact; the head's parents are the
  // receipt and then its members, and the fact is its only member.
  lemma CommittedOnce(s: State, candidate: Candidate)
    requires Sound(s) && IsCommitted(s.log, candidate)
    ensures FactOf(s.log, candidate).Some?
    ensures var fact := FactOf(s.log, candidate).value;
            && Matching(s.log, ReceiptOf(candidate)) == [Receipt(candidate)]
            && Matching(s.log, HeadOf(candidate)) == [HeadRecord(candidate, fact)]
            && Matching(s.log, FactsOf(candidate)) == [fact]
            && HeadRecord(candidate, fact).parents == [Receipt(candidate)] + HeadRecord(candidate, fact).body.members
            && fact.Record? && fact.body.Assigned? && Caused(fact) && fact.body.candidate == candidate
  {
    CommittedFact(s, candidate);
    var fact := FactOf(s.log, candidate).value;
    HeadsAlone(s.log, candidate, fact);
    hide Sound, Kept, Caused, FactOf, Matching;
    MatchingOne(s.log, ReceiptOf(candidate), Receipt(candidate));
    MatchingOne(s.log, HeadOf(candidate), HeadRecord(candidate, fact));
    MatchingOne(s.log, FactsOf(candidate), fact);
  }

  lemma FactCaused(s: State, f: Id)
    requires Sound(s) && f in s.log && f.Record? && f.body.Assigned?
    ensures Caused(f)
  {
    var k :| 0 <= k < |s.log| && s.log[k] == f;
    assert Shaped(s.log[k]);
  }

  lemma CommittedFact(s: State, candidate: Candidate)
    requires Sound(s) && IsCommitted(s.log, candidate)
    ensures FactOf(s.log, candidate).Some?
    ensures var fact := FactOf(s.log, candidate).value;
            && fact in s.log && IsFactOfCandidate(fact, candidate) && Caused(fact) && Receipt(candidate) in s.log
            && forall g | g in s.log && IsFactOfCandidate(g, candidate) :: g == fact
  {
    var head :| head in s.log && IsHeadOf(head, candidate);
    ParentsLogged(s.log, head);
    assert Shaped(head);
    var fact := head.body.members[0];
    assert head.parents[0] in head.parents && head.parents[1] in head.parents;
    FactCaused(s, fact);
    OnlyFact(s.log, fact);
    FactOfFinds(s.log, candidate, fact);
  }

  lemma HeadsAlone(log: seq<Id>, candidate: Candidate, fact: Id)
    requires Kept(log) && fact in log && IsFactOfCandidate(fact, candidate)
    ensures forall r | r in log && IsHeadOf(r, candidate) :: r == HeadRecord(candidate, fact)
    ensures forall r | r in log && IsReceiptOf(r, candidate) :: r == Receipt(candidate)
    ensures HeadRecord(candidate, fact) in log && Distinct(log)
  {
    OnlyFact(log, fact);
    GroundedDistinct(log);
    forall r | r in log && IsReceiptOf(r, candidate) ensures r == Receipt(candidate) {
      ParentsLogged(log, r);
      assert Shaped(r);
    }
    forall r | r in log && IsHeadOf(r, candidate) ensures r == HeadRecord(candidate, fact) {
      ParentsLogged(log, r);
      assert Shaped(r);
      assert r.body.members[0] in r.parents;
      assert r.body.members[0] in log;
    }
  }

  lemma CommittedReplays(s: State, candidate: Candidate)
    requires Sound(s) && IsCommitted(s.log, candidate)
    ensures ReplayChecks(s.log, candidate)
  {
    hide Sound, Caused, FactOf, Matching, IsCommitted;
    CommittedOnce(s, candidate);
    CommittedFact(s, candidate);
    var fact := FactOf(s.log, candidate).value;
    var head := HeadRecord(candidate, fact);
    assert head.body.members[0] in head.body.members;
    MatchingOne(head.body.members, FactsOf(candidate), fact);
  }

  lemma {:induction false} MatchingMembers(rs: seq<Id>, p: Id -> bool)
    ensures forall r :: r in Matching(rs, p) <==> r in rs && p(r)
  {
    if rs != [] {
      MatchingMembers(rs[..|rs| - 1], p);
      assert rs == rs[..|rs| - 1] + [rs[|rs| - 1]];
    }
  }

  // ------------------------------------------------------------------ no cycles

  // a is a causal ancestor of r.
  predicate Ancestor(r: Id, a: Id) {
    r.Record? && exists p | p in r.parents :: p == a || Ancestor(p, a)
  }

  // Every recorded ancestor stands earlier in the log.
  lemma {:induction false} AncestorsPrecede(log: seq<Id>, i: nat, a: Id)
    requires Grounded(log) && i < |log| && Ancestor(log[i], a) && a.Record?
    ensures exists j | 0 <= j < i :: log[j] == a
    decreases i
  {
    assert Shaped(log[i]) && Follows(log[i], log[..i]);
    var p :| p in log[i].parents && (p == a || Ancestor(p, a));
    assert p in log[..i];
    var k :| 0 <= k < i && log[k] == p;
    if p != a {
      AncestorsPrecede(log, k, a);
      var j :| 0 <= j < k && log[j] == a;
    }
  }

  // As the store has it, a record cites its parents by their text, and what it cites is whatever
  // record has that text. Revisions are places in the log.
  predicate Cites(log: seq<Id>, name: Id -> string, i: nat, j: nat) {
    && i < |log| && j < |log| && log[i].Record?
    && exists p :: p in log[i].parents && name(p) == name(log[j])
  }

  // A walk from record to cited record.
  predicate Walk(log: seq<Id>, name: Id -> string, path: seq<nat>) {
    && (forall k | 0 <= k < |path| :: path[k] < |log|)
    && forall k | 0 < k < |path| :: Cites(log, name, path[k - 1], path[k])
  }

  // A logged record shares its text with another parent.
  predicate Mistaken(log: seq<Id>, name: Id -> string, i: nat, p: Id) {
    && i < |log| && p != log[i] && name(p) == name(log[i])
    && exists r :: r in log && r.Record? && p in r.parents
  }

  lemma CitesEarlier(log: seq<Id>, name: Id -> string, i: nat, j: nat)
    requires Grounded(log) && Cites(log, name, i, j)
    ensures j < i || exists p :: Mistaken(log, name, j, p)
  {
    var p :| p in log[i].parents && name(p) == name(log[j]);
    if p != log[j] {
      assert log[i] in log;
      assert Mistaken(log, name, j, p);
    } else {
      assert Shaped(log[i]) && Follows(log[i], log[..i]) && Shaped(log[j]);
      assert p in log[..i];
      GroundedDistinct(log);
    }
  }

  // Along any walk the revisions fall, so that it never returns and is no longer than the revision
  // it starts from, unless two different ids have one text.
  lemma {:induction false} RevisionsFall(log: seq<Id>, name: Id -> string, path: seq<nat>)
    requires Grounded(log) && Walk(log, name, path)
    ensures (exists i, p :: Mistaken(log, name, i, p))
         || ((forall k, l | 0 <= k < l < |path| :: path[l] < path[k]) && (path != [] ==> |path| <= path[0] + 1))
  {
    if |path| >= 2 {
      var n := |path| - 1;
      assert Cites(log, name, path[n - 1], path[n]);
      RevisionsFall(log, name, path[..n]);
      CitesEarlier(log, name, path[n - 1], path[n]);
      if !exists i, p :: Mistaken(log, name, i, p) {
        assert path[n] < path[n - 1];
        assert forall k, l | 0 <= k < l < n :: path[..n][l] < path[..n][k];
        WalkLength(path);
      }
    }
  }

  lemma {:induction false} WalkLength(path: seq<nat>)
    requires forall k, l | 0 <= k < l < |path| :: path[l] < path[k]
    ensures path != [] ==> |path| + path[|path| - 1] <= path[0] + 1
  {
    if |path| >= 2 {
      WalkLength(path[..|path| - 1]);
    }
  }
}
