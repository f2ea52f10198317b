// sorted(): stable insertion into order, and why the result is determined by the elements.

module Sorting {
  import opened Wrappers

  ghost predicate TotalOrder<T(!new)>(leq: (T, T) -> bool) {
    && (forall x, y :: leq(x, y) || leq(y, x))
    && (forall x, y, z :: leq(x, y) && leq(y, z) ==> leq(x, z))
  }

  function Insert<T>(leq: (T, T) -> bool, x: T, s: seq<T>): (r: seq<T>)
    ensures multiset(r) == multiset{x} + multiset(s) && |r| == |s| + 1
  {
    if s == [] || leq(x, s[0]) then [x] + s
    else
      assert s == [s[0]] + s[1..];
      [s[0]] + Insert(leq, x, s[1..])
  }

  function Sorted<T>(leq: (T, T) -> bool, s: seq<T>): (r: seq<T>)
    ensures multiset(r) == multiset(s) && |r| == |s|
  {
    if s == [] then []
    else
      assert s == [s[0]] + s[1..];
      Insert(leq, s[0], Sorted(leq, s[1..]))
  }

  ghost predicate Ascending<T>(leq: (T, T) -> bool, s: seq<T>) {
    forall i, j :: 0 <= i < j < |s| ==> leq(s[i], s[j])
  }

  lemma {:induction false} InsertAscends<T(!new)>(leq: (T, T) -> bool, x: T, s: seq<T>)
    requires TotalOrder(leq) && Ascending(leq, s)
    ensures Ascending(leq, Insert(leq, x, s))
  {
    if s != [] && !leq(x, s[0]) {
      var later := Insert(leq, x, s[1..]);
      InsertAscends(leq, x, s[1..]);
      forall j | 0 <= j < |later|
        ensures leq(s[0], later[j])
      {
        assert later[j] in multiset(later);
        assert later[j] == x || later[j] in s[1..];
      }
    }
  }

  lemma {:induction false} SortedAscends<T(!new)>(leq: (T, T) -> bool, s: seq<T>)
    requires TotalOrder(leq)
    ensures Ascending(leq, Sorted(leq, s))
  {
    if s != [] {
      SortedAscends(leq, s[1..]);
      InsertAscends(leq, s[0], Sorted(leq, s[1..]));
    }
  }

  // The order tells the elements apart.
  ghost predicate Strict<T>(leq: (T, T) -> bool, s: seq<T>) {
    forall x, y | x in s && y in s && leq(x, y) && leq(y, x) :: x == y
  }

  lemma SameHead<T(!new)>(leq: (T, T) -> bool, a: seq<T>, b: seq<T>)
    requires Ascending(leq, a) && Ascending(leq, b) && a != [] && b != []
    requires multiset(a) == multiset(b) && Strict(leq, a)
    ensures a[0] == b[0]
  {
    assert a[0] in multiset(b) && b[0] in multiset(a);
    var i :| 0 <= i < |b| && b[i] == a[0];
    var j :| 0 <= j < |a| && a[j] == b[0];
    if i > 0 && j > 0 {
      assert leq(b[0], b[i]) && leq(a[0], a[j]);
    }
  }

  lemma SameSizes<T>(a: seq<T>, b: seq<T>)
    requires multiset(a) == multiset(b)
    ensures |a| == |b|
  {
    assert |a| == |multiset(a)| && |b| == |multiset(b)|;
  }

  lemma SameTails<T>(a: seq<T>, b: seq<T>)
    requires a != [] && b != [] && a[0] == b[0] && multiset(a) == multiset(b)
    ensures multiset(a[1..]) == multiset(b[1..])
    ensures a[1..] == b[1..] ==> a == b
  {
    assert a == [a[0]] + a[1..] && b == [b[0]] + b[1..];
    assert multiset(a[1..]) == multiset(a) - multiset{a[0]};
  }

  lemma AscendingRest<T>(leq: (T, T) -> bool, s: seq<T>)
    requires s != [] && Ascending(leq, s)
    ensures Ascending(leq, s[1..]) && (Strict(leq, s) ==> Strict(leq, s[1..]))
  {
  }

  // Two ascending sequences of the same elements are the same sequence, as long as the order
  // tells those elements apart.
  lemma {:induction false} AscendingUnique<T(!new)>(leq: (T, T) -> bool, a: seq<T>, b: seq<T>)
    requires Ascending(leq, a) && Ascending(leq, b) && Strict(leq, a)
    requires multiset(a) == multiset(b)
    ensures a == b
  {
    hide Ascending, Strict;
    SameSizes(a, b);
    if a != [] {
      SameHead(leq, a, b);
      SameTails(a, b);
      AscendingRest(leq, a);
      AscendingRest(leq, b);
      AscendingUnique(leq, a[1..], b[1..]);
    }
  }

  // Sorting forgets the original order and nothing else.
  lemma SortedSame<T(!new)>(leq: (T, T) -> bool, a: seq<T>, b: seq<T>)
    requires TotalOrder(leq) && Strict(leq, a)
    ensures Sorted(leq, a) == Sorted(leq, b) <==> multiset(a) == multiset(b)
  {
    if multiset(a) == multiset(b) {
      SortedAscends(leq, a);
      SortedAscends(leq, b);
      forall x | x in Sorted(leq, a)
        ensures x in a
      {
        assert x in multiset(a);
      }
      AscendingUnique(leq, Sorted(leq, a), Sorted(leq, b));
    }
  }

  // ------------------------------------------------------------------ text order

  // Lexicographic order by Unicode scalar value, as Python orders strings.
  predicate TextLeq(a: string, b: string) {
    if a == [] then true
    else if b == [] then false
    else a[0] < b[0] || (a[0] == b[0] && TextLeq(a[1..], b[1..]))
  }

  // a is a proper prefix of b, or has the smaller code point where they first differ.
  ghost predicate Precedes(a: string, b: string) {
    a < b || exists k :: 0 <= k < |a| && k < |b| && a[..k] == b[..k] && a[k] < b[k]
  }

  lemma {:induction false} TextLeqExactly(a: string, b: string)
    ensures TextLeq(a, b) <==> a == b || Precedes(a, b)
  {
    if a != [] && b != [] {
      assert a == [a[0]] + a[1..] && b == [b[0]] + b[1..];
      if a[0] == b[0] {
        TextLeqExactly(a[1..], b[1..]);
        PrecedesRest(a, b);
      } else if a[0] < b[0] {
        assert a[..0] == b[..0];
      }
    }
  }

  lemma PrecedesRest(a: string, b: string)
    requires a != [] && b != [] && a[0] == b[0]
    ensures Precedes(a, b) <==> Precedes(a[1..], b[1..])
  {
    var x, y := a[1..], b[1..];
    assert a == [a[0]] + x && b == [b[0]] + y;
    if k :| 0 <= k < |a| && k < |b| && a[..k] == b[..k] && a[k] < b[k] {
      assert k > 0 && x[..k - 1] == a[..k][1..] && y[..k - 1] == b[..k][1..] && x[k - 1] < y[k - 1];
    }
    if k :| 0 <= k < |x| && k < |y| && x[..k] == y[..k] && x[k] < y[k] {
      assert a[..k + 1] == [a[0]] + x[..k] && b[..k + 1] == [b[0]] + y[..k] && a[k + 1] < b[k + 1];
    }
  }

  lemma {:induction false} TextLeqTotal(a: string, b: string)
    ensures TextLeq(a, b) || TextLeq(b, a)
    ensures TextLeq(a, b) && TextLeq(b, a) ==> a == b
  {
    if a != [] && b != [] {
      TextLeqTotal(a[1..], b[1..]);
      assert a == [a[0]] + a[1..] && b == [b[0]] + b[1..];
    }
  }

  lemma {:induction false} TextLeqTransitive(a: string, b: string, c: string)
    requires TextLeq(a, b) && TextLeq(b, c)
    ensures TextLeq(a, c)
  {
    if a != [] && a[0] == b[0] == c[0] {
      TextLeqTransitive(a[1..], b[1..], c[1..]);
    }
  }

  lemma TextOrder()
    ensures TotalOrder(TextLeq)
  {
    forall x, y
      ensures TextLeq(x, y) || TextLeq(y, x)
    {
      TextLeqTotal(x, y);
    }
    forall x, y, z | TextLeq(x, y) && TextLeq(y, z)
      ensures TextLeq(x, z)
    {
      TextLeqTransitive(x, y, z);
    }
  }

  // ------------------------------------------------------------------ elementwise images

  function Map<A, B>(f: A -> B, xs: seq<A>): (r: seq<B>)
    ensures |r| == |xs| && forall i | 0 <= i < |r| :: r[i] == f(xs[i])
  {
    seq(|xs|, i requires 0 <= i < |xs| => f(xs[i]))
  }

  function Without<T>(s: seq<T>, j: nat): (r: seq<T>)
    requires j < |s|
    ensures |r| == |s| - 1
  {
    s[..j] + s[j + 1..]
  }

  lemma Remove<T>(s: seq<T>, j: nat)
    requires j < |s|
    ensures multiset(s) == multiset(Without(s, j)) + multiset{s[j]}
  {
    assert s == s[..j] + [s[j]] + s[j + 1..];
  }

  lemma Cancel<T>(m: multiset<T>, n: multiset<T>, x: T)
    requires m + multiset{x} == n + multiset{x}
    ensures m == n
  {
    assert m == (m + multiset{x}) - multiset{x};
  }

  // Permutations of each other both hold an element, and are permutations without it.
  lemma Partner<T>(a: seq<T>, b: seq<T>, i: nat) returns (j: nat)
    requires i < |a| && multiset(a) == multiset(b)
    ensures j < |b| && b[j] == a[i] && multiset(Without(a, i)) == multiset(Without(b, j))
  {
    hide Without;
    assert a[i] in multiset(b);
    j :| 0 <= j < |b| && b[j] == a[i];
    Remove(a, i);
    Remove(b, j);
    Cancel(multiset(Without(a, i)), multiset(Without(b, j)), a[i]);
  }

  lemma MapWithout<A, B>(f: A -> B, s: seq<A>, j: nat)
    requires j < |s|
    ensures Map(f, Without(s, j)) == Without(Map(f, s), j)
  {
  }

  lemma {:induction false} MapPermutes<A, B>(f: A -> B, a: seq<A>, b: seq<A>)
    requires multiset(a) == multiset(b)
    ensures multiset(Map(f, a)) == multiset(Map(f, b))
    decreases |a|
  {
    SameSizes(a, b);
    if a == [] {
      assert a == b;
    } else {
      hide Without;
      var j := Partner(a, b, 0);
      MapPermutes(f, Without(a, 0), Without(b, j));
      MapWithout(f, a, 0);
      MapWithout(f, b, j);
      Remove(Map(f, a), 0);
      Remove(Map(f, b), j);
    }
  }

  // The image tells the elements apart.
  ghost predicate Tells<A, B>(f: A -> B, a: seq<A>, b: seq<A>) {
    forall x, y | x in a && y in b && f(x) == f(y) :: x == y
  }

  lemma TellsWithout<A, B>(f: A -> B, a: seq<A>, i: nat, b: seq<A>, j: nat)
    requires Tells(f, a, b) && i < |a| && j < |b|
    ensures Tells(f, Without(a, i), Without(b, j)) && (f(a[i]) == f(b[j]) ==> a[i] == b[j])
  {
    assert a[i] in a && b[j] in b;
  }

  // An image that tells the elements apart permutes only with them.
  lemma {:induction false} MapReflects<A, B>(f: A -> B, a: seq<A>, b: seq<A>)
    requires Tells(f, a, b) && multiset(Map(f, a)) == multiset(Map(f, b))
    ensures multiset(a) == multiset(b)
    decreases |a|
  {
    SameSizes(Map(f, a), Map(f, b));
    if a == [] {
      assert a == b;
    } else {
      hide Without, Tells;
      var j := Partner(Map(f, a), Map(f, b), 0);
      TellsWithout(f, a, 0, b, j);
      MapWithout(f, a, 0);
      MapWithout(f, b, j);
      MapReflects(f, Without(a, 0), Without(b, j));
      Remove(a, 0);
      Remove(b, j);
    }
  }

  lemma DistinctPermutes<T>(a: seq<T>, b: seq<T>)
    requires Distinct(a) && multiset(a) == multiset(b)
    ensures Distinct(b)
  {
    DistinctCounts(a);
    forall i, j | 0 <= i < j < |b| ensures b[i] != b[j] {
      Remove(b, i);
      assert Without(b, i)[j - 1] == b[j];
      assert multiset(b)[b[j]] >= 1;
    }
  }
}
