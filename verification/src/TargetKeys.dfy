// Per-target idempotency keys: a digest of the canonical JSON of the batch base and the target.

module TargetKeys {
  import opened Wrappers
  import opened Json
  import opened JsonProofs

  const VERSION := "task-bulk-v1"

  // canonical_json of a tuple of strings
  function TupleText(parts: seq<string>): string {
    Encode(Arr(Strings(parts)))
  }

  function KeyOf(hash: string -> string, action: string, parts: seq<string>): string {
    VERSION + ":" + action + ":" + hash(TupleText([VERSION, action] + parts))
  }

  // target_key
  function TargetKey(hash: string -> string, action: string, base: string, contract: string): string {
    KeyOf(hash, action, [base, contract])
  }

  // _reassign_target_key
  function ReassignTargetKey(hash: string -> string, base: string, contract: string, previous: string): string {
    KeyOf(hash, "reassign", [base, contract, previous])
  }

  // Tuples of any lengths have one text only if they are one tuple.
  lemma TupleTexts(a: seq<string>, b: seq<string>)
    ensures TupleText(a) == TupleText(b) <==> a == b
  {
    if TupleText(a) == TupleText(b) {
      CanonicalText(Arr(Strings(a)), Arr(Strings(b)));
      forall i | 0 <= i < |a| ensures a[i] == b[i] {
        assert SameValue(Strings(a)[i], Strings(b)[i]);
      }
    }
  }

  // Keys of one action are equal exactly when the digests are.
  lemma SameActionKeys(hash: string -> string, action: string, parts: seq<string>, others: seq<string>)
    ensures KeyOf(hash, action, parts) == KeyOf(hash, action, others)
       <==> hash(TupleText([VERSION, action] + parts)) == hash(TupleText([VERSION, action] + others))
  {
    var front := VERSION + ":" + action + ":";
    var x, y := KeyOf(hash, action, parts), KeyOf(hash, action, others);
    assert x[|front|..] == hash(TupleText([VERSION, action] + parts));
    assert y[|front|..] == hash(TupleText([VERSION, action] + others));
  }

  // Digests of one length: equal keys come from equal tuples, or from two texts of one digest.
  lemma KeysApart(hash: string -> string, action: string, parts: seq<string>, other: string, others: seq<string>)
    requires |hash(TupleText([VERSION, action] + parts))| == |hash(TupleText([VERSION, other] + others))|
    requires KeyOf(hash, action, parts) == KeyOf(hash, other, others)
    ensures action == other
    ensures parts == others || Collide(hash, TupleText([VERSION, action] + parts), TupleText([VERSION, other] + others))
  {
    var a, b := [VERSION, action] + parts, [VERSION, other] + others;
    var p, q := VERSION + ":" + action + ":", VERSION + ":" + other + ":";
    var x, y := KeyOf(hash, action, parts), KeyOf(hash, other, others);
    assert x == p + hash(TupleText(a)) && y == q + hash(TupleText(b));
    assert x[..|p|] == p && y[..|q|] == q && x[|p|..] == hash(TupleText(a)) && y[|q|..] == hash(TupleText(b));
    assert p[|VERSION| + 1..|p| - 1] == action && q[|VERSION| + 1..|q| - 1] == other;
    TupleTexts(a, b);
    if a == b {
      assert a[2..] == parts && b[2..] == others;
    }
  }

  // A target key is the version, the action and the digest of the four or five parts, with colons.
  lemma KeysSpelled(hash: string -> string, action: string, base: string, contract: string, previous: string)
    ensures TargetKey(hash, action, base, contract)
         == "task-bulk-v1" + ":" + action + ":"
            + hash(Encode(Arr([Str("task-bulk-v1"), Str(action), Str(base), Str(contract)])))
    ensures ReassignTargetKey(hash, base, contract, previous)
         == "task-bulk-v1" + ":" + "reassign" + ":"
            + hash(Encode(Arr([Str("task-bulk-v1"), Str("reassign"), Str(base), Str(contract), Str(previous)])))
  {
    hide Encode;
    assert [VERSION, action] + [base, contract] == [VERSION, action, base, contract];
    assert [VERSION, "reassign"] + [base, contract, previous] == [VERSION, "reassign", base, contract, previous];
    assert Strings([VERSION, action, base, contract]) == [Str(VERSION), Str(action), Str(base), Str(contract)];
    assert Strings([VERSION, "reassign", base, contract, previous])
        == [Str(VERSION), Str("reassign"), Str(base), Str(contract), Str(previous)];
  }
}
