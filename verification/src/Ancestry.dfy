// How deep a contract lies below its root, and what a cyclic ancestry does to the count.

module Ancestry {
  import opened Wrappers

  // Every known contract, with its parent if it names one. A parent need not be known.
  type Parents = map<string, Option<string>>

  // One step up; nothing above a root or an unknown contract.
  function Parent(parents: Parents, id: string): Option<string> {
    if id in parents then parents[id] else None
  }

  // The n-th ancestor.
  function Ancestor(parents: Parents, id: string, n: nat): Option<string> {
    if n == 0 then Some(id)
    else
      match Ancestor(parents, id, n - 1)
      case None => None
      case Some(a) => Parent(parents, a)
  }

  // Going up from the contract comes back to where it was.
  ghost predicate Cyclic(parents: Parents, id: string) {
    exists i: nat, j: nat :: i < j && Ancestor(parents, id, i).Some? && Ancestor(parents, id, j) == Ancestor(parents, id, i)
  }

  // The ancestry ends after exactly d steps.
  predicate EndsAt(parents: Parents, id: string, d: nat) {
    Ancestor(parents, id, d).Some? && Ancestor(parents, id, d + 1).None?
  }

  // After d steps up: where we are, and what has been passed.
  ghost predicate Walked(parents: Parents, id: string, d: nat, seen: set<string>, current: string) {
    && Ancestor(parents, id, d) == Some(current) && seen <= parents.Keys
    && forall a | a in seen :: exists i: nat :: i < d && Ancestor(parents, id, i) == Some(a)
  }

  // contract_depth; None stands for the error it raises.
  method ContractDepth(parents: Parents, id: string) returns (depth: Option<nat>)
    ensures depth.Some? ==> EndsAt(parents, id, depth.value)
    ensures depth.None? <==> Cyclic(parents, id)
  {
    assert Walked(parents, id, 0, {}, id);
    hide Ancestor, Cyclic, EndsAt, Walked;
    var d: nat, seen: set<string>, current := 0, {}, id;
    while Parent(parents, current).Some?
      invariant Walked(parents, id, d, seen, current)
      decreases |parents.Keys - seen|
    {
      if current in seen {
        WalkedBack(parents, id, d, seen, current);
        return None;
      }
      WalkedOn(parents, id, d, seen, current);
      seen := seen + {current};
      current := Parent(parents, current).value;
      d := d + 1;
    }
    WalkedOut(parents, id, d, seen, current);
    EndsOnce(parents, id, d);
    return Some(d);
  }

  lemma Smaller<T>(a: set<T>, b: set<T>)
    requires a < b
    ensures |a| < |b|
  {
    assert b == a + (b - a);
    assert b - a != {};
  }

  lemma WalkedBack(parents: Parents, id: string, d: nat, seen: set<string>, current: string)
    requires Walked(parents, id, d, seen, current) && current in seen
    ensures Cyclic(parents, id)
  {
  }

  lemma WalkedOn(parents: Parents, id: string, d: nat, seen: set<string>, current: string)
    requires Walked(parents, id, d, seen, current) && current !in seen && Parent(parents, current).Some?
    ensures Walked(parents, id, d + 1, seen + {current}, Parent(parents, current).value)
    ensures |parents.Keys - (seen + {current})| < |parents.Keys - seen|
  {
    AncestorStep(parents, id, d, current);
    Smaller(parents.Keys - (seen + {current}), parents.Keys - seen);
    forall a | a in seen + {current} ensures exists i: nat :: i < d + 1 && Ancestor(parents, id, i) == Some(a) {
      if a in seen {
        var i: nat :| i < d && Ancestor(parents, id, i) == Some(a);
      }
    }
  }

  lemma WalkedOut(parents: Parents, id: string, d: nat, seen: set<string>, current: string)
    requires Walked(parents, id, d, seen, current) && Parent(parents, current).None?
    ensures EndsAt(parents, id, d)
  {
    AncestorStep(parents, id, d, current);
  }

  lemma AncestorStep(parents: Parents, id: string, n: nat, a: string)
    requires Ancestor(parents, id, n) == Some(a)
    ensures Ancestor(parents, id, n + 1) == Parent(parents, a)
  {
  }

  lemma {:induction false} NothingAbove(parents: Parents, id: string, d: nat, n: nat)
    requires Ancestor(parents, id, d).None? && d <= n
    ensures Ancestor(parents, id, n).None?
  {
    if d < n {
      NothingAbove(parents, id, d, n - 1);
    }
  }

  // Two equal ancestors repeat: the same steps follow each of them.
  lemma {:induction false} Repeats(parents: Parents, id: string, i: nat, j: nat, n: nat)
    requires Ancestor(parents, id, i) == Ancestor(parents, id, j)
    ensures Ancestor(parents, id, i + n) == Ancestor(parents, id, j + n)
  {
    if n > 0 {
      Repeats(parents, id, i, j, n - 1);
    }
  }

  lemma EndsOnce(parents: Parents, id: string, d: nat)
    requires EndsAt(parents, id, d)
    ensures !Cyclic(parents, id)
    ensures forall e: nat :: EndsAt(parents, id, e) <==> e == d
  {
    if i: nat, j: nat :| i < j && Ancestor(parents, id, i).Some? && Ancestor(parents, id, j) == Ancestor(parents, id, i) {
      if d < j {
        NothingAbove(parents, id, d + 1, j);
      } else {
        Repeats(parents, id, i, j, d - j + 1);
        assert Ancestor(parents, id, i + (d - j + 1)).None?;
        NothingAbove(parents, id, i + (d - j + 1), d);
      }
      assert false;
    }
    forall e: nat ensures EndsAt(parents, id, e) <==> e == d {
      if EndsAt(parents, id, e) && e < d {
        NothingAbove(parents, id, e + 1, d);
      } else if EndsAt(parents, id, e) && d < e {
        NothingAbove(parents, id, d + 1, e);
      }
    }
  }

  lemma {:induction false} AncestorAbove(parents: Parents, id: string, n: nat)
    requires Parent(parents, id).Some?
    ensures Ancestor(parents, id, n + 1) == Ancestor(parents, Parent(parents, id).value, n)
  {
    if n == 0 {
      assert Ancestor(parents, id, 0) == Some(id);
    } else {
      AncestorAbove(parents, id, n - 1);
    }
  }

  // A contract is one deeper than its parent; a root or an unknown contract is at depth zero.
  lemma DepthSteps(parents: Parents, id: string, d: nat)
    ensures id !in parents || parents[id] == None ==> (EndsAt(parents, id, d) <==> d == 0)
    ensures forall parent | id in parents && parents[id] == Some(parent) ::
              !EndsAt(parents, id, 0) && (EndsAt(parents, id, d + 1) <==> EndsAt(parents, parent, d))
  {
    assert Ancestor(parents, id, 0) == Some(id) && Ancestor(parents, id, 1) == Parent(parents, id);
    if Parent(parents, id).Some? {
      AncestorAbove(parents, id, d);
      AncestorAbove(parents, id, d + 1);
    } else if EndsAt(parents, id, d) && d > 0 {
      NothingAbove(parents, id, 1, d);
    }
  }
}
