// The append-only record log behind task assignment: content-addressed records, the exact-head
// rule, Candidate commitment, and publication as the CLI performs it.

module Ledger {
  import opened Wrappers

  // ------------------------------------------------------------------ records

  // A record is its own identity: ids are digests of canonical content, and digests are taken
  // to be injective. Text is any other string a caller may pass where an id is expected.
  datatype Id =
    | Text(text: string)
    | Record(body: Body, parents: seq<Id>)

  datatype Body =
    | Declared(contract: string, capabilities: set<string>, pools: set<string>)
    | Registered(worker: string, version: string, offer: Offer)
    | Received(candidate: Candidate)
    | Assigned(candidate: Candidate, contract: string, previous: Id, reason: string, worker: string)
    | Committed(candidate: Candidate, members: seq<Id>)
    | Rejected(candidate: Candidate, conflict: Conflict)
    | Traced(candidate: Candidate, accepted: bool)
    | Terminal(contract: string)

  datatype Offer = Offer(enabled: bool, capabilities: set<string>, pools: set<string>)

  // One signed task.assign effect and its idempotency key, any text. An empty worker is a clear.
  datatype Intent = Intent(contract: string, worker: string, previous: Id, reason: string)
  datatype Candidate = Candidate(intent: Intent, key: string)

  datatype Conflict = UnknownContract | Stale | Unchanged | HasClaims | Ended | Satisfied | NoWorker | Incompatible

  // The empty predecessor of a first assignment.
  const NONE: Id := Text("")

  // The record log, and the tables materialized beside it.
  datatype State = State(
    log: seq<Id>,
    registrations: map<string, Id>,
    claimed: set<string>,
    satisfied: set<string>)

  const EMPTY := State([], map[], {}, {})

  // ------------------------------------------------------------------ reading the log

  predicate IsFactOf(r: Id, contract: string) {
    r.Record? && r.body.Assigned? && r.body.contract == contract
  }

  function History(log: seq<Id>, contract: string): (h: seq<Id>)
    ensures forall f | f in h :: IsFactOf(f, contract)
  {
    if log == [] then []
    else
      var before := History(log[..|log| - 1], contract);
      if IsFactOf(log[|log| - 1], contract) then before + [log[|log| - 1]] else before
  }

  function Head(log: seq<Id>, contract: string): Id {
    var h := History(log, contract);
    if h == [] then NONE else h[|h| - 1]
  }

  // The worker named by the head fact; empty without a head and after a clear.
  function CurrentWorker(log: seq<Id>, contract: string): string {
    var h := History(log, contract);
    if h == [] then ""
    else
      var last := h[|h| - 1];
      assert last in h;
      last.body.worker
  }

  predicate IsDeclaration(r: Id, contract: string) {
    r.Record? && r.body.Declared? && r.body.contract == contract
  }

  function Declaration(log: seq<Id>, contract: string): (d: Option<Id>)
    ensures d.Some? ==> d.value in log && IsDeclaration(d.value, contract)
    ensures d.None? ==> forall r | r in log :: !IsDeclaration(r, contract)
  {
    if log == [] then None
    else if IsDeclaration(log[0], contract) then Some(log[0])
    else Declaration(log[1..], contract)
  }

  function HeadRecord(candidate: Candidate, fact: Id): Id {
    Record(Committed(candidate, [fact]), [Receipt(candidate), fact])
  }

  predicate IsHeadOf(r: Id, candidate: Candidate) {
    r.Record? && r.body.Committed? && r.body.candidate == candidate
  }

  predicate IsCommitted(log: seq<Id>, candidate: Candidate) {
    exists r :: r in log && IsHeadOf(r, candidate)
  }

  // ------------------------------------------------------------------ the exact-head rule

  const EXCLUSIVE: set<string> := {"tool-execution", "mcp-execution"}

  predicate Compatible(declaration: Body, offer: Offer)
    requires declaration.Declared?
  {
    && offer.enabled
    && (offer.capabilities * EXCLUSIVE != {} ==> offer.capabilities * EXCLUSIVE * declaration.capabilities != {})
    && declaration.capabilities <= offer.capabilities
    && (declaration.pools == {} || declaration.pools * offer.pools != {})
  }

  // validate_assignment_request for a declared contract: the first reason to refuse, if any.
  function Objection(s: State, declaration: Body, intent: Intent): Option<Conflict>
    requires declaration.Declared?
  {
    var c := intent.contract;
    if intent.previous != Head(s.log, c) then Some(Stale)
    else if intent.worker == CurrentWorker(s.log, c) then Some(Unchanged)
    else if c in s.claimed then Some(HasClaims)
    else if Record(Terminal(c), []) in s.log then Some(Ended)
    else if c in s.satisfied then Some(Satisfied)
    else if intent.worker == "" then None
    else if intent.worker !in s.registrations then Some(NoWorker)
    else match s.registrations[intent.worker]
      case Record(Registered(_, _, offer), _) =>
        if !offer.enabled then Some(NoWorker)
        else if !Compatible(declaration, offer) then Some(Incompatible)
        else None
      case _ => Some(NoWorker)
  }

  // ------------------------------------------------------------------ commitment

  function Receipt(candidate: Candidate): Id {
    Record(Received(candidate), [Text(candidate.intent.contract)])
  }

  // The assignment fact a Candidate projects to: its receipt, the declaration, the head it
  // replaces and the registration it relies on are its parents.
  function Fact(s: State, declaration: Id, candidate: Candidate): Id {
    var i := candidate.intent;
    var head := Head(s.log, i.contract);
    Record(Assigned(candidate, i.contract, head, i.reason, i.worker),
           [Receipt(candidate), declaration]
           + (if head == NONE then [] else [head])
           + (if i.worker in s.registrations && i.worker != "" then [s.registrations[i.worker]] else []))
  }

  // A record already in the log is not written again.
  function Add(log: seq<Id>, r: Id): seq<Id> {
    if r in log then log else log + [r]
  }

  function AddAll(log: seq<Id>, rs: seq<Id>): seq<Id>
    decreases |rs|
  {
    if rs == [] then log else AddAll(Add(log, rs[0]), rs[1..])
  }

  datatype Decision =
    | Replayed
    | Accepted(fact: Id)
    | Refused(conflict: Conflict)

  // CandidateCommitter.commit
  function Decide(s: State, candidate: Candidate): Decision {
    if IsCommitted(s.log, candidate) then Replayed
    else match Declaration(s.log, candidate.intent.contract)
      case None => Refused(UnknownContract)
      case Some(declaration) =>
        match Objection(s, declaration.body, candidate.intent)
        case Some(conflict) => Refused(conflict)
        case None => Accepted(Fact(s, declaration, candidate))
  }

  // The records one decision writes, in order.
  function Written(candidate: Candidate, decision: Decision): seq<Id> {
    match decision
    case Replayed => []
    case Accepted(fact) =>
      [Receipt(candidate), fact, HeadRecord(candidate, fact), Record(Traced(candidate, true), [])]
    case Refused(conflict) =>
      [Receipt(candidate), Record(Rejected(candidate, conflict), [Receipt(candidate)]), Record(Traced(candidate, false), [])]
  }

  function Commit(s: State, candidate: Candidate): State {
    s.(log := AddAll(s.log, Written(candidate, Decide(s, candidate))))
  }

  // ------------------------------------------------------------------ publication

  datatype Mode = Assign | Reassign

  datatype Refusal = NotFound | AlreadyAssigned | NeverAssigned | HeadMoved | Objected(conflict: Conflict)

  predicate SameIntent(f: Id, intent: Intent)
    requires f.Record? && f.body.Assigned?
  {
    f.body.worker == intent.worker && f.body.reason == intent.reason && f.body.previous == intent.previous
  }

  // Some fact of the contract's history already records this very transition.
  predicate Recorded(log: seq<Id>, intent: Intent) {
    exists f :: f in History(log, intent.contract) && SameIntent(f, intent)
  }

  // validate_task_assignment: why a publication is refused before anything is signed.
  function Preflight(s: State, intent: Intent, mode: Mode): Option<Refusal> {
    match Declaration(s.log, intent.contract)
    case None => Some(NotFound)
    case Some(declaration) =>
      var head, recorded := Head(s.log, intent.contract), Recorded(s.log, intent);
      if mode.Assign? && head != NONE && !recorded then Some(AlreadyAssigned)
      else if mode.Reassign? && head == NONE then Some(NeverAssigned)
      else if intent.previous != head && !recorded then Some(HeadMoved)
      else if recorded then None
      else match Objection(s, declaration.body, intent)
        case Some(conflict) => Some(Objected(conflict))
        case None => None
  }

  // The committed fact of a Candidate.
  predicate IsFactOfCandidate(r: Id, candidate: Candidate) {
    r.Record? && r.body.Assigned? && r.body.candidate == candidate
  }

  // What a publication reports. Lost stands for the internal error raised when an accepted
  // Candidate has no fact in the log.
  datatype Verdict =
    | Done(fact: Id)
    | Refuse(refusal: Refusal)
    | Reject(conflict: Conflict)
    | Lost

  datatype Outcome = Outcome(state: State, verdict: Verdict)

  // The accepted fact of a committed Candidate, found in the log.
  function FactOf(log: seq<Id>, candidate: Candidate): Option<Id> {
    if log == [] then None
    else if IsFactOfCandidate(log[0], candidate) then Some(log[0])
    else FactOf(log[1..], candidate)
  }

  // publish_task_assignment, synchronization aside: the state afterwards and what the caller
  // is told.
  function Publish(s: State, candidate: Candidate, mode: Mode): Outcome {
    match Preflight(s, candidate.intent, mode)
    case Some(refusal) => Outcome(s, Refuse(refusal))
    case None =>
      var next := Commit(s, candidate);
      match Decide(s, candidate)
      case Refused(conflict) => Outcome(next, Reject(conflict))
      case _ =>
        match FactOf(next.log, candidate)
        case Some(fact) => Outcome(next, Done(fact))
        case None => Outcome(next, Lost)
  }

  // Publications one after another: the final state, and the verdicts in order.
  function PublishAll(s: State, candidates: seq<Candidate>, mode: Mode): State {
    if candidates == [] then s
    else Publish(PublishAll(s, candidates[..|candidates| - 1], mode), candidates[|candidates| - 1], mode).state
  }

  function Verdicts(s: State, candidates: seq<Candidate>, mode: Mode): (vs: seq<Verdict>)
    ensures |vs| == |candidates|
  {
    if candidates == [] then []
    else
      var front, last := candidates[..|candidates| - 1], candidates[|candidates| - 1];
      Verdicts(s, front, mode) + [Publish(PublishAll(s, front, mode), last, mode).verdict]
  }

  // ------------------------------------------------------------------ runs

  // What else happens in the store between two publications. Commit covers every signed
  // Candidate, including one whose preflight ran against an older snapshot.
  datatype Step =
    | Declare(contract: string, capabilities: set<string>, pools: set<string>)
    | Register(worker: string, version: string, offer: Offer)
    | Claim(contract: string)
    | Terminate(contract: string)
    | Satisfy(contract: string)
    | Submit(candidate: Candidate)

  // A worker version stands for one description only.
  predicate VersionFree(log: seq<Id>, worker: string, version: string, offer: Offer) {
    forall r | r in log && r.Record? && r.body.Registered? && r.body.worker == worker && r.body.version == version ::
      r.body.offer == offer
  }

  function Next(s: State, step: Step): State {
    match step
    case Declare(contract, capabilities, pools) =>
      if Declaration(s.log, contract).Some? then s
      else s.(log := Add(s.log, Record(Declared(contract, capabilities, pools), [])))
    case Register(worker, version, offer) =>
      var r := Record(Registered(worker, version, offer), []);
      if worker == "" || !VersionFree(s.log, worker, version, offer) then s
      else s.(log := Add(s.log, r), registrations := s.registrations[worker := r])
    case Claim(contract) => s.(claimed := s.claimed + {contract})
    case Terminate(contract) => s.(log := Add(s.log, Record(Terminal(contract), [])))
    case Satisfy(contract) => s.(satisfied := s.satisfied + {contract})
    case Submit(candidate) => Commit(s, candidate)
  }

  function Run(s: State, steps: seq<Step>): State {
    if steps == [] then s else Next(Run(s, steps[..|steps| - 1]), steps[|steps| - 1])
  }
}
