// Order statistics of benchmark samples, over the reals.

module Statistics {
  import opened Sorting

  predicate Leq(a: real, b: real) {
    a <= b
  }

  function Ordered(values: seq<real>): (r: seq<real>)
    ensures |r| == |values|
  {
    Sorted(Leq, values)
  }

  lemma OrderedRises(values: seq<real>)
    ensures forall i, j | 0 <= i <= j < |values| :: Ordered(values)[i] <= Ordered(values)[j]
    ensures multiset(Ordered(values)) == multiset(values)
  {
    assert TotalOrder(Leq);
    SortedAscends(Leq, values);
    var r := Ordered(values);
    forall i, j | 0 <= i <= j < |values| ensures r[i] <= r[j] {
      if i < j {
        assert Leq(r[i], r[j]);
      }
    }
  }

  lemma OrderIrrelevant(a: seq<real>, b: seq<real>)
    requires multiset(a) == multiset(b)
    ensures Ordered(a) == Ordered(b)
  {
    assert TotalOrder(Leq);
    SortedSame(Leq, a, b);
  }

  // ------------------------------------------------------------------ nearest rank

  // How many of the values are at most v.
  function AtMost(values: seq<real>, v: real): (n: nat)
    ensures n <= |values|
  {
    if values == [] then 0
    else AtMost(values[..|values| - 1], v) + if values[|values| - 1] <= v then 1 else 0
  }

  function Rank(n: nat): int {
    (95 * n + 99) / 100 - 1
  }

  // _nearest_rank_p95
  function NearestRank(values: seq<real>): real
    requires values != []
  {
    Ordered(values)[Rank(|values|)]
  }

  lemma {:induction false} AtMostRemove(values: seq<real>, j: nat, v: real)
    requires j < |values|
    ensures AtMost(values, v) == AtMost(Without(values, j), v) + if values[j] <= v then 1 else 0
  {
    var n := |values| - 1;
    if j == n {
      assert Without(values, j) == values[..n];
    } else {
      AtMostRemove(values[..n], j, v);
      var rest := Without(values, j);
      assert rest[..n - 1] == Without(values[..n], j);
      assert rest[n - 1] == values[n];
    }
  }

  lemma {:induction false} AtMostSame(a: seq<real>, b: seq<real>, v: real)
    requires multiset(a) == multiset(b)
    ensures AtMost(a, v) == AtMost(b, v)
    decreases |a|
  {
    SameSizes(a, b);
    if a == [] {
      assert a == b;
    } else {
      hide Without;
      var j := Partner(a, b, 0);
      AtMostSame(Without(a, 0), Without(b, j), v);
      AtMostRemove(a, 0, v);
      AtMostRemove(b, j, v);
    }
  }

  // In rising values, those at most v are the first ones.
  lemma {:induction false} AtMostRising(r: seq<real>, k: nat, v: real)
    requires k <= |r| && (forall i | 0 <= i < k :: r[i] <= v) && forall i | k <= i < |r| :: v < r[i]
    ensures AtMost(r, v) == k
  {
    if r != [] {
      AtMostRising(r[..|r| - 1], if k == |r| then k - 1 else k, v);
    }
  }

  lemma {:induction false} AtMostAtLeast(r: seq<real>, k: nat, v: real)
    requires k <= |r| && forall i | 0 <= i < k :: r[i] <= v
    ensures AtMost(r, v) >= k
  {
    if k > 0 {
      AtMostAtLeast(r[..|r| - 1], if k == |r| then k - 1 else k, v);
    }
  }

  lemma {:induction false} AtMostFewer(r: seq<real>, k: nat, v: real)
    requires k <= |r| && forall i | k <= i < |r| :: v < r[i]
    ensures AtMost(r, v) <= k
  {
    if k < |r| {
      AtMostFewer(r[..|r| - 1], k, v);
    }
  }

  // The rank is always in range, and the result one of the values.
  lemma NearestRankInside(values: seq<real>)
    requires values != []
    ensures 0 <= Rank(|values|) < |values| && NearestRank(values) in values
  {
    OrderedRises(values);
    assert Ordered(values)[Rank(|values|)] in multiset(values);
  }

  // At least 95 per cent of the values do not exceed it, and it is the least such number: fewer
  // than 95 per cent stay within any smaller one.
  lemma NearestRankLeast(values: seq<real>, w: real)
    requires values != []
    ensures w < NearestRank(values) <==> 100 * AtMost(values, w) < 95 * |values|
  {
    var r, k := Ordered(values), Rank(|values|);
    OrderedRises(values);
    AtMostSame(r, values, w);
    if w < r[k] {
      AtMostFewer(r, k, w);
    } else {
      AtMostAtLeast(r, k + 1, w);
    }
  }

  lemma NearestRankOrder(a: seq<real>, b: seq<real>)
    requires a != [] && multiset(a) == multiset(b)
    ensures b != [] && NearestRank(a) == NearestRank(b)
  {
    assert |multiset(a)| == |a| && |multiset(b)| == |b|;
    OrderIrrelevant(a, b);
  }

  // ------------------------------------------------------------------ interpolated percentile

  function Ceiling(x: real): int {
    if x.Floor as real == x then x.Floor else x.Floor + 1
  }

  function Times(a: real, b: real): real {
    a * b
  }

  lemma TimesEnds(m: real)
    ensures Times(m, 0.0) == 0.0 && Times(m, 1.0) == m
  {
  }

  lemma TimesBelow(m: real, a: real, b: real)
    requires m >= 0.0 && a <= b
    ensures Times(m, a) <= Times(m, b)
  {
    var d := b - a;
    assert m * d >= 0.0;
    assert m * b == m * a + m * d;
  }

  // The rising values at a position between two indices.
  function Between(r: seq<real>, position: real): real
    requires 0.0 <= position <= (|r| - 1) as real
  {
    var lower, upper := position.Floor, Ceiling(position);
    if lower == upper then r[lower]
    else
      var weight := position - lower as real;
      r[lower] + Times(r[upper] - r[lower], weight)
  }

  function Position(n: nat, fraction: real): real {
    Times((n - 1) as real, fraction)
  }

  lemma PositionInside(n: nat, fraction: real)
    requires n >= 1 && 0.0 <= fraction <= 1.0
    ensures 0.0 <= Position(n, fraction) <= (n - 1) as real
  {
    hide Times;
    var m := (n - 1) as real;
    TimesEnds(m);
    TimesBelow(m, 0.0, fraction);
    TimesBelow(m, fraction, 1.0);
  }

  // _percentile of both benchmark scripts
  function Percentile(values: seq<real>, fraction: real): real
    requires values != [] && 0.0 <= fraction <= 1.0
  {
    var ordered := Ordered(values);
    if |ordered| == 1 then ordered[0]
    else
      PositionInside(|ordered|, fraction);
      Between(ordered, Position(|ordered|, fraction))
  }

  predicate Rising(r: seq<real>) {
    forall i, j | 0 <= i <= j < |r| :: r[i] <= r[j]
  }

  lemma Inside(low: real, high: real, weight: real)
    requires low <= high && 0.0 <= weight <= 1.0
    ensures low <= low + Times(high - low, weight) <= high
  {
    hide Times;
    TimesEnds(high - low);
    TimesBelow(high - low, 0.0, weight);
    TimesBelow(high - low, weight, 1.0);
  }

  // A position between two indices has a value between theirs.
  lemma BetweenNeighbours(r: seq<real>, position: real)
    requires Rising(r) && 0.0 <= position <= (|r| - 1) as real
    ensures r[position.Floor] <= Between(r, position)
    ensures position.Floor + 1 < |r| ==> Between(r, position) <= r[position.Floor + 1]
    ensures position.Floor + 1 >= |r| ==> Between(r, position) == r[position.Floor]
  {
    hide Times;
    var lower := position.Floor;
    if lower as real != position {
      Inside(r[lower], r[lower + 1], position - lower as real);
    }
  }

  // The value rises with the position, also from one interval to another.
  lemma BetweenRises(r: seq<real>, a: real, b: real)
    requires Rising(r) && 0.0 <= a <= b <= (|r| - 1) as real
    ensures Between(r, a) <= Between(r, b)
  {
    hide Times, Between, Rising;
    BetweenNeighbours(r, a);
    BetweenNeighbours(r, b);
    var p, q := a.Floor, b.Floor;
    if p < q {
      RisingAt(r, p + 1, q);
    } else if a == p as real {
      BetweenAt(r, a);
    } else {
      RisingAt(r, p, p + 1);
      TimesBelow(r[p + 1] - r[p], a - p as real, b - p as real);
      BetweenInside(r, a);
      BetweenInside(r, b);
    }
  }

  lemma RisingAt(r: seq<real>, i: nat, j: nat)
    requires Rising(r) && i <= j < |r|
    ensures r[i] <= r[j]
  {
  }

  lemma BetweenAt(r: seq<real>, position: real)
    requires 0.0 <= position <= (|r| - 1) as real && position == position.Floor as real
    ensures Between(r, position) == r[position.Floor]
  {
  }

  lemma BetweenInside(r: seq<real>, position: real)
    requires 0.0 <= position <= (|r| - 1) as real && position != position.Floor as real
    ensures position.Floor + 1 < |r|
    ensures Between(r, position)
         == r[position.Floor] + Times(r[position.Floor + 1] - r[position.Floor], position - position.Floor as real)
  {
    hide Times;
  }

  // Between two neighbours of the ordered values the percentile moves in a straight line: at
  // (k + w) / (n - 1) it is w of the way from the k-th of them to the next.
  lemma PercentileAt(values: seq<real>, ordered: seq<real>, k: nat, w: real)
    requires |values| >= 2 && multiset(ordered) == multiset(values)
    requires forall i, j | 0 <= i <= j < |ordered| :: ordered[i] <= ordered[j]
    requires k + 1 < |values| && 0.0 <= w <= 1.0
    ensures |ordered| == |values|
    ensures var fraction := (k as real + w) / (|values| - 1) as real;
            && 0.0 <= fraction <= 1.0
            && Percentile(values, fraction) == (1.0 - w) * ordered[k] + w * ordered[k + 1]
  {
    hide Ordered, Times, Between;
    OrderedOnce(values, ordered);
    var m := (|values| - 1) as real;
    var fraction := (k as real + w) / m;
    FractionBack(m, k as real + w);
    PositionInside(|values|, fraction);
    BetweenAlong(ordered, k, w);
  }

  lemma OrderedOnce(values: seq<real>, ordered: seq<real>)
    requires multiset(ordered) == multiset(values)
    requires forall i, j | 0 <= i <= j < |ordered| :: ordered[i] <= ordered[j]
    ensures Ordered(values) == ordered && |ordered| == |values|
  {
    assert TotalOrder(Leq);
    SortedAscends(Leq, values);
    AscendingUnique(Leq, ordered, Ordered(values));
  }

  // Division undone
  lemma FractionBack(m: real, x: real)
    requires m >= 1.0 && 0.0 <= x <= m
    ensures 0.0 <= x / m <= 1.0 && Times(m, x / m) == x
  {
    assert m * (x / m) == x;
  }

  lemma BetweenAlong(r: seq<real>, k: nat, w: real)
    requires k + 1 < |r| && 0.0 <= w <= 1.0
    ensures Between(r, k as real + w) == (1.0 - w) * r[k] + w * r[k + 1]
  {
    var position := k as real + w;
    if w == 0.0 {
      BetweenAt(r, position);
    } else if w == 1.0 {
      assert position.Floor == k + 1;
      BetweenAt(r, position);
    } else {
      assert position.Floor == k;
      BetweenInside(r, position);
      assert r[k] + (r[k + 1] - r[k]) * w == (1.0 - w) * r[k] + w * r[k + 1];
    }
  }

  // A single value is every percentile.
  lemma PercentileOfOne(value: real, fraction: real)
    requires 0.0 <= fraction <= 1.0
    ensures Percentile([value], fraction) == value
  {
    OrderedOnce([value], [value]);
  }

  lemma PercentileEnds(values: seq<real>)
    requires values != []
    ensures Percentile(values, 0.0) == Ordered(values)[0]
    ensures Percentile(values, 1.0) == Ordered(values)[|values| - 1]
  {
    hide Ordered, Times;
    var n := |values|;
    TimesEnds((n - 1) as real);
    assert Position(n, 0.0) == 0.0 && Position(n, 1.0) == (n - 1) as real;
    assert ((n - 1) as real).Floor == n - 1;
  }

  lemma Extremes(values: seq<real>)
    requires values != []
    ensures Ordered(values)[0] in values && Ordered(values)[|values| - 1] in values
    ensures forall v | v in values :: Ordered(values)[0] <= v <= Ordered(values)[|values| - 1]
  {
    var r := Ordered(values);
    OrderedRises(values);
    assert r[0] in multiset(r) && r[|r| - 1] in multiset(r);
    forall v | v in values ensures r[0] <= v <= r[|r| - 1] {
      assert v in multiset(r);
      var i :| 0 <= i < |r| && r[i] == v;
    }
  }

  // Every percentile lies between those at 0 and at 1, which are the least and the greatest value.
  lemma PercentileBounds(values: seq<real>, fraction: real)
    requires values != [] && 0.0 <= fraction <= 1.0
    ensures var low, high := Percentile(values, 0.0), Percentile(values, 1.0);
            && low in values && high in values && (forall v | v in values :: low <= v <= high)
            && low <= Percentile(values, fraction) <= high
  {
    hide Ordered, Percentile;
    PercentileEnds(values);
    Extremes(values);
    PercentileRises(values, 0.0, fraction);
    PercentileRises(values, fraction, 1.0);
  }

  lemma PercentileRises(values: seq<real>, a: real, b: real)
    requires values != [] && 0.0 <= a <= b <= 1.0
    ensures Percentile(values, a) <= Percentile(values, b)
  {
    hide Ordered, Between, Times;
    OrderedRises(values);
    var n := |values|;
    PositionInside(n, a);
    PositionInside(n, b);
    TimesBelow((n - 1) as real, a, b);
    BetweenRises(Ordered(values), Position(n, a), Position(n, b));
  }

  lemma PercentileOrder(a: seq<real>, b: seq<real>, fraction: real)
    requires a != [] && multiset(a) == multiset(b) && 0.0 <= fraction <= 1.0
    ensures b != [] && Percentile(a, fraction) == Percentile(b, fraction)
  {
    assert |multiset(a)| == |a| && |multiset(b)| == |b|;
    OrderIrrelevant(a, b);
  }

  // statistics.median
  function Median(values: seq<real>): real
    requires values != []
  {
    var r, n := Ordered(values), |values|;
    if n % 2 == 1 then r[n / 2] else (r[n / 2 - 1] + r[n / 2]) / 2.0
  }

  lemma HalfIsMedian(values: seq<real>)
    requires values != []
    ensures Percentile(values, 0.5) == Median(values)
  {
    var r, n := Ordered(values), |values|;
    var position := Position(n, 0.5);
    assert position == (n - 1) as real / 2.0;
    if n % 2 == 1 {
      assert position == (n / 2) as real;
    } else {
      assert position == (n / 2 - 1) as real + 0.5;
      assert position.Floor == n / 2 - 1;
    }
  }
}
