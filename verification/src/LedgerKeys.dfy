// The keys a batch derives for its targets. A key is text: a caller may pass any, that of a
// derived key included, and then names the very Candidate the batch does.

module LedgerKeys {
  import opened Wrappers
  import opened Ledger
  import opened LedgerProofs
  import opened LedgerOutcomes
  import TargetKeys

  // The digest of a text, and the text of an id. Nothing is assumed of either.
  datatype Naming = Naming(hash: string -> string, name: Id -> string)

  // The tuple a derived key digests
  function KeyText(n: Naming, base: string, contract: string, previous: Id): string {
    TargetKeys.TupleText([TargetKeys.VERSION, "reassign"] + [base, contract, n.name(previous)])
  }

  // _reassign_target_key
  function ReassignKey(n: Naming, base: string, contract: string, previous: Id): string {
    TargetKeys.ReassignTargetKey(n.hash, base, contract, n.name(previous))
  }

  // Derived keys meet exactly when their texts have one digest: for one base, one contract and
  // one predecessor by name, or else by a collision.
  lemma ReassignKeysMeet(
    n: Naming, base: string, contract: string, previous: Id, base': string, contract': string, previous': Id)
    ensures var a, b := KeyText(n, base, contract, previous), KeyText(n, base', contract', previous');
            ReassignKey(n, base, contract, previous) == ReassignKey(n, base', contract', previous')
            <==> (base == base' && contract == contract' && n.name(previous) == n.name(previous')) || Collide(n.hash, a, b)
  {
    var parts, parts' := [base, contract, n.name(previous)], [base', contract', n.name(previous')];
    var tuple, tuple' := [TargetKeys.VERSION, "reassign"] + parts, [TargetKeys.VERSION, "reassign"] + parts';
    TargetKeys.TupleTexts(tuple, tuple');
    TargetKeys.SameActionKeys(n.hash, "reassign", parts, parts');
    assert tuple[2..] == parts && tuple'[2..] == parts';
    assert parts == parts' <==> base == base' && contract == contract' && n.name(previous) == n.name(previous');
  }

  // The same batch base with the new head as predecessor is a new key, unless two ids have one
  // text or two texts one digest; and unless something objects, it appends exactly one fact after
  // the old one.
  lemma SameBaseNewHead(s: State, n: Naming, base: string, first: Candidate, worker: string, reason: string)
    requires Sound(s) && IsCommitted(s.log, first)
    requires first.key == ReassignKey(n, base, first.intent.contract, first.intent.previous)
    ensures var contract, previous := first.intent.contract, first.intent.previous;
            var head := Head(s.log, contract);
            var next := Candidate(Intent(contract, worker, head, reason), ReassignKey(n, base, contract, head));
            && head != previous
            && (next.key == first.key
                <==> n.name(head) == n.name(previous)
                     || Collide(n.hash, KeyText(n, base, contract, head), KeyText(n, base, contract, previous)))
            && (Preflight(s, next.intent, Reassign) == None ==>
                  var o := Publish(s, next, Reassign);
                  && o.verdict.Done? && o.verdict.fact.Record?
                  && o.verdict.fact.body.Assigned? && o.verdict.fact.body.previous == head
                  && History(o.state.log, contract) == History(s.log, contract) + [o.verdict.fact])
  {
    var contract := first.intent.contract;
    var head := Head(s.log, contract);
    var next := Candidate(Intent(contract, worker, head, reason), ReassignKey(n, base, contract, head));
    hide KeyText, ReassignKey;
    CommittedRecorded(s, first);
    ReplacedOnce(s.log, contract, FactOf(s.log, first).value);
    NotRecordedAtHead(s, next.intent);
    Fresh(s, next, Reassign);
    ReassignKeysMeet(n, base, contract, head, base, contract, first.intent.previous);
  }
}
