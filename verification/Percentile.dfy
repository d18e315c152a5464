/** Linear-interpolation percentiles: of one list, and of the raw points of many shards in a
    database that hands out one value at a time by its offset in sorted order. */
module Percentile {
  import opened Wrappers
  import opened Sorting

  function Leq(): (real, real) -> bool {
    (x: real, y: real) => x <= y
  }

  lemma {:induction false} LeqIsTotal()
    ensures TotalOrder(Leq())
  {
  }

  function Floor(x: real): int {
    x.Floor
  }

  function Ceil(x: real): int {
    -((-x).Floor)
  }

  function Blend(a: real, b: real, t: real): real {
    a + (b - a) * t
  }

  /** The value at a fractional position of a sorted list. */
  function Interpolate(s: seq<real>, position: real): real
    requires 0.0 <= position <= (|s| - 1) as real
  {
    var low, high := Floor(position), Ceil(position);
    Blend(s[low], s[high], position - low as real)
  }

  function PositionOf(n: nat, p: real): (position: real)
    requires n > 0 && 0.0 <= p <= 1.0
    ensures 0.0 <= position <= (n - 1) as real
  {
    (n - 1) as real * p
  }

  function Percentile(values: seq<real>, p: real): Option<real>
    requires 0.0 <= p <= 1.0
  {
    LeqIsTotal();
    SortSorts(Leq(), values);
    if values == [] then None else Some(Interpolate(Sort(Leq(), values), PositionOf(|values|, p)))
  }

  // ----- Order statistics without sorting ---------------------------------------------------------------

  function CountBelow(s: seq<real>, v: real): nat {
    if s == [] then 0 else (if s[0] < v then 1 else 0) + CountBelow(s[1..], v)
  }

  function CountAtMost(s: seq<real>, v: real): nat {
    if s == [] then 0 else (if s[0] <= v then 1 else 0) + CountAtMost(s[1..], v)
  }

  /** v is what a query ordered by value returns at offset k. */
  predicate IsAtOffset(s: seq<real>, k: int, v: real) {
    CountBelow(s, v) <= k < CountAtMost(s, v)
  }

  lemma {:induction false} CountsAreOrdered(s: seq<real>, v: real, w: real)
    requires v < w
    ensures CountAtMost(s, v) <= CountBelow(s, w)
  {
    if s != [] {
      CountsAreOrdered(s[1..], v, w);
    }
  }

  lemma {:induction false} OffsetIsUnique(s: seq<real>, k: int, v: real, w: real)
    requires IsAtOffset(s, k, v) && IsAtOffset(s, k, w)
    ensures v == w
  {
    if v < w {
      CountsAreOrdered(s, v, w);
    } else if w < v {
      CountsAreOrdered(s, w, v);
    }
  }

  lemma {:induction false} InsertCounts(x: real, s: seq<real>, v: real)
    ensures CountBelow(Insert(Leq(), x, s), v) == CountBelow(s, v) + if x < v then 1 else 0
    ensures CountAtMost(Insert(Leq(), x, s), v) == CountAtMost(s, v) + if x <= v then 1 else 0
  {
    if s == [] || Leq()(x, s[0]) {
      assert ([x] + s)[1..] == s;
    } else {
      InsertCounts(x, s[1..], v);
      var rest := Insert(Leq(), x, s[1..]);
      assert ([s[0]] + rest)[1..] == rest;
    }
  }

  lemma {:induction false} SortCounts(s: seq<real>, v: real)
    ensures CountBelow(Sort(Leq(), s), v) == CountBelow(s, v)
    ensures CountAtMost(Sort(Leq(), s), v) == CountAtMost(s, v)
  {
    if s != [] {
      SortCounts(s[1..], v);
      InsertCounts(s[0], Sort(Leq(), s[1..]), v);
    }
  }

  lemma {:induction false} SortedOffset(s: seq<real>, k: nat, v: real)
    requires SortedBy(Leq(), s)
    ensures k < |s| && s[k] <= v ==> CountAtMost(s, v) > k
    ensures k < |s| && s[k] >= v ==> CountBelow(s, v) <= k
  {
    if s != [] {
      assert forall i, j :: 0 <= i < j < |s| ==> Leq()(s[i], s[j]);
      assert SortedBy(Leq(), s[1..]) by {
        forall i, j | 0 <= i < j < |s[1..]| ensures Leq()(s[1..][i], s[1..][j]) {
          assert Leq()(s[i + 1], s[j + 1]);
        }
      }
      if k == 0 {
        if s[0] >= v {
          NoneBelow(s, v);
        }
      } else if k < |s| {
        SortedOffset(s[1..], k - 1, v);
        assert Leq()(s[0], s[k]);
      }
    }
  }

  lemma {:induction false} NoneBelow(s: seq<real>, v: real)
    requires SortedBy(Leq(), s) && s != [] && s[0] >= v
    ensures CountBelow(s, v) == 0
  {
    if |s| > 1 {
      assert Leq()(s[0], s[1]);
      assert SortedBy(Leq(), s[1..]) by {
        forall i, j | 0 <= i < j < |s[1..]| ensures Leq()(s[1..][i], s[1..][j]) {
          assert Leq()(s[i + 1], s[j + 1]);
        }
      }
      NoneBelow(s[1..], v);
    }
  }

  /** Sorting and indexing answers the offset query. */
  lemma {:induction false} SortedIndexIsAtOffset(s: seq<real>, k: nat)
    requires k < |s|
    ensures |Sort(Leq(), s)| == |s| && IsAtOffset(s, k, Sort(Leq(), s)[k])
  {
    LeqIsTotal();
    SortSorts(Leq(), s);
    var sorted := Sort(Leq(), s);
    SortedOffset(sorted, k, sorted[k]);
    SortCounts(s, sorted[k]);
  }

  lemma {:induction false} OffsetIgnoresOrder(a: seq<real>, b: seq<real>, k: int, v: real)
    requires multiset(a) == multiset(b)
    ensures IsAtOffset(a, k, v) <==> IsAtOffset(b, k, v)
  {
    LeqIsTotal();
    SortIgnoresOrder(Leq(), a, b);
    SortCounts(a, v);
    SortCounts(b, v);
  }

  // ----- Shards ---------------------------------------------------------------------------------------------

  datatype Point = Point(group: string, value: real)

  datatype Trend = Trend(count: nat, p50: real, p95: real, p99: real, max: real)

  function Flatten<T>(shards: seq<seq<T>>): seq<T> {
    if shards == [] then [] else shards[0] + Flatten(shards[1..])
  }

  function ValuesOf(points: seq<Point>, group: string): seq<real> {
    if points == [] then []
    else (if points[0].group == group then [points[0].value] else []) + ValuesOf(points[1..], group)
  }

  lemma {:induction false} Regroup<T>(a: seq<T>, b: seq<T>, c: seq<T>)
    ensures a + (b + c) == a + b + c
  {
  }

  lemma {:induction false} ValuesOfConcat(a: seq<Point>, b: seq<Point>, group: string)
    ensures ValuesOf(a + b, group) == ValuesOf(a, group) + ValuesOf(b, group)
  {
    if a == [] {
      assert a + b == b;
    } else {
      ValuesOfConcat(a[1..], b, group);
      assert (a + b)[1..] == a[1..] + b;
      var first := if a[0].group == group then [a[0].value] else [];
      Regroup(first, ValuesOf(a[1..], group), ValuesOf(b, group));
    }
  }

  lemma {:induction false} FlattenConcat<T>(a: seq<seq<T>>, b: seq<seq<T>>)
    ensures Flatten(a + b) == Flatten(a) + Flatten(b)
  {
    if a == [] {
      assert a + b == b;
    } else {
      FlattenConcat(a[1..], b);
      assert (a + b)[1..] == a[1..] + b;
      Regroup(a[0], Flatten(a[1..]), Flatten(b));
    }
  }

  /** The points table, filled shard by shard; a query sees the values of one group. */
  class PointTable {
    var points: seq<Point>
    var groups: set<string>

    ghost predicate Valid()
      reads this
    {
      forall g :: g in groups <==> ValuesOf(points, g) != []
    }

    constructor ()
      ensures Valid() && points == []
    {
      points, groups := [], {};
    }

    method Add(p: Point)
      requires Valid()
      modifies this
      ensures Valid() && points == old(points) + [p]
    {
      forall g ensures ValuesOf(points + [p], g) == ValuesOf(points, g) + (if p.group == g then [p.value] else []) {
        ValuesOfConcat(points, [p], g);
      }
      points := points + [p];
      groups := groups + {p.group};
    }

    method ValueAt(group: string, offset: nat) returns (v: real)
      requires offset < |ValuesOf(points, group)|
      ensures IsAtOffset(ValuesOf(points, group), offset, v)
    {
      SortedIndexIsAtOffset(ValuesOf(points, group), offset);
      v := Sort(Leq(), ValuesOf(points, group))[offset];
    }

    method Quantile(group: string, p: real) returns (q: real)
      requires 0.0 <= p <= 1.0 && ValuesOf(points, group) != []
      ensures Percentile(ValuesOf(points, group), p) == Some(q)
    {
      var n := |ValuesOf(points, group)|;
      var position := PositionOf(n, p);
      var low, high := Floor(position), Ceil(position);
      var a := ValueAt(group, low);
      var b := ValueAt(group, high);
      q := Blend(a, b, position - low as real);
      QuantileFits(ValuesOf(points, group), p, a, b);
    }
  }

  lemma {:induction false} OffsetsInterpolate(values: seq<real>, position: real, a: real, b: real)
    requires 0.0 <= position <= (|values| - 1) as real
    requires IsAtOffset(values, Floor(position), a) && IsAtOffset(values, Ceil(position), b)
    ensures |Sort(Leq(), values)| == |values|
    ensures Interpolate(Sort(Leq(), values), position) == Blend(a, b, position - Floor(position) as real)
  {
    var low, high := Floor(position), Ceil(position);
    SortedIndexIsAtOffset(values, low);
    SortedIndexIsAtOffset(values, high);
    OffsetIsUnique(values, low, a, Sort(Leq(), values)[low]);
    OffsetIsUnique(values, high, b, Sort(Leq(), values)[high]);
  }

  lemma {:induction false} QuantileFits(values: seq<real>, p: real, a: real, b: real)
    requires 0.0 <= p <= 1.0 && values != []
    requires IsAtOffset(values, Floor(PositionOf(|values|, p)), a)
    requires IsAtOffset(values, Ceil(PositionOf(|values|, p)), b)
    ensures var position := PositionOf(|values|, p);
            Percentile(values, p) == Some(Blend(a, b, position - Floor(position) as real))
  {
    OffsetsInterpolate(values, PositionOf(|values|, p), a, b);
  }

  /** What the report says about one group: the percentiles of the concatenation of all shards. */
  predicate TrendFits(values: seq<real>, t: Trend) {
    && t.count == |values| > 0
    && Percentile(values, 0.5) == Some(t.p50)
    && Percentile(values, 0.95) == Some(t.p95)
    && Percentile(values, 0.99) == Some(t.p99)
    && IsAtOffset(values, |values| - 1, t.max)
  }

  method Aggregate(shards: seq<seq<Point>>) returns (trends: map<string, Trend>)
    ensures forall g :: g in trends <==> ValuesOf(Flatten(shards), g) != []
    ensures forall g :: g in trends ==> TrendFits(ValuesOf(Flatten(shards), g), trends[g])
  {
    var table := new PointTable();
    var i := 0;
    while i < |shards|
      invariant i <= |shards| && table.Valid() && fresh(table)
      invariant table.points == Flatten(shards[..i])
    {
      var k := 0;
      while k < |shards[i]|
        invariant k <= |shards[i]| && table.Valid() && fresh(table)
        invariant table.points == Flatten(shards[..i]) + shards[i][..k]
      {
        table.Add(shards[i][k]);
        k := k + 1;
        assert shards[i][..k] == shards[i][..k - 1] + [shards[i][k - 1]];
      }
      i := i + 1;
      assert shards[..i] == shards[..i - 1] + [shards[i - 1]];
      FlattenConcat(shards[..i - 1], [shards[i - 1]]);
      assert Flatten([shards[i - 1]]) == shards[i - 1] == shards[i - 1][..|shards[i - 1]|];
    }
    assert shards[..|shards|] == shards;
    trends := map[];
    var todo := table.groups;
    while todo != {}
      invariant table.Valid() && fresh(table) && table.points == Flatten(shards)
      invariant todo <= table.groups && trends.Keys == table.groups - todo
      invariant forall g :: g in trends ==> TrendFits(ValuesOf(table.points, g), trends[g])
      decreases |todo|
    {
      var g :| g in todo;
      var p50 := table.Quantile(g, 0.5);
      var p95 := table.Quantile(g, 0.95);
      var p99 := table.Quantile(g, 0.99);
      var n := |ValuesOf(table.points, g)|;
      var max := table.ValueAt(g, n - 1);
      trends := trends[g := Trend(n, p50, p95, p99, max)];
      todo := todo - {g};
    }
  }

  /** Neither the assignment of points to shards nor their order of arrival matters. */
  lemma {:induction false} ShardingIsIrrelevant(shards: seq<seq<real>>, arrivals: seq<real>, p: real)
    requires 0.0 <= p <= 1.0 && multiset(Flatten(shards)) == multiset(arrivals)
    ensures Percentile(Flatten(shards), p) == Percentile(arrivals, p)
  {
    LeqIsTotal();
    SortIgnoresOrder(Leq(), Flatten(shards), arrivals);
    assert |Flatten(shards)| == |multiset(Flatten(shards))| == |multiset(arrivals)| == |arrivals|;
  }

  // ----- Ranks ----------------------------------------------------------------------------------------------

  lemma {:induction false} BlendIsMix(a: real, b: real, w: real)
    ensures Blend(a, b, w) == (1.0 - w) * a + w * b
    ensures Blend(a, a, 0.0) == Blend(a, b, 0.0) == a && Blend(b, b, 0.0) == Blend(a, b, 1.0) == b
  {
  }

  lemma {:induction false} PositionWithin(position: real, k: nat)
    requires k as real <= position <= (k + 1) as real
    ensures || (position == k as real && Floor(position) == Ceil(position) == k)
            || (position == (k + 1) as real && Floor(position) == Ceil(position) == k + 1)
            || (Floor(position) == k && Ceil(position) == k + 1)
  {
  }

  lemma {:induction false} QuantileBlends(values: seq<real>, p: real, position: real, k: nat, a: real, b: real)
    requires 0.0 <= p <= 1.0 && k + 1 < |values| && position == PositionOf(|values|, p)
    requires k as real <= position <= (k + 1) as real
    requires IsAtOffset(values, k, a) && IsAtOffset(values, k + 1, b)
    ensures Percentile(values, p) == Some(Blend(a, b, position - k as real))
  {
    PositionWithin(position, k);
    BlendIsMix(a, b, 0.0);
    if Ceil(position) == k {
      QuantileFits(values, p, a, a);
    } else if Floor(position) == k + 1 {
      QuantileFits(values, p, b, b);
    } else {
      QuantileFits(values, p, a, b);
    }
  }

  /** Between two neighbouring ranks the percentile is the linear mix of the values there: p lies
      `w` of the way from rank k to rank k + 1 of n values if p(n - 1) is k + w. */
  lemma {:induction false} PercentileMixesNeighbours(values: seq<real>, p: real, k: nat, w: real, a: real, b: real)
    requires 0.0 <= p <= 1.0 && k + 1 < |values|
    requires 0.0 <= w <= 1.0 && p * (|values| - 1) as real == k as real + w
    requires IsAtOffset(values, k, a) && IsAtOffset(values, k + 1, b)
    ensures Percentile(values, p) == Some((1.0 - w) * a + w * b)
  {
    var position := PositionOf(|values|, p);
    assert position == k as real + w;
    QuantileBlends(values, p, position, k, a, b);
    BlendIsMix(a, b, w);
  }

  /** The percentile at k / (n - 1) is the value of rank k, so 0 gives the least value, 1/2 the
      middle one of an odd number, and 1 the largest. */
  lemma {:induction false} PercentileAtRank(values: seq<real>, k: nat, p: real)
    requires k < |values| && 0.0 <= p <= 1.0 && p * (|values| - 1) as real == k as real
    ensures Percentile(values, p).Some? && IsAtOffset(values, k, Percentile(values, p).value)
  {
    SortedIndexIsAtOffset(values, k);
    var v := Sort(Leq(), values)[k];
    QuantileFits(values, p, v, v);
  }

  lemma {:induction false} FractionTimesWhole(k: nat, n: nat)
    requires 0 < n && k <= n
    ensures 0.0 <= k as real / n as real <= 1.0 && k as real / n as real * n as real == k as real
  {
  }

  lemma {:induction false} PercentileOfFraction(values: seq<real>, k: nat)
    requires k < |values| && |values| > 1
    ensures 0.0 <= k as real / (|values| - 1) as real <= 1.0
    ensures var q := Percentile(values, k as real / (|values| - 1) as real);
            q.Some? && IsAtOffset(values, k, q.value)
  {
    FractionTimesWhole(k, |values| - 1);
    PercentileAtRank(values, k, k as real / (|values| - 1) as real);
  }

  // ----- Bounds and monotonicity ----------------------------------------------------------------------------

  lemma {:induction false} BlendIsMonotone(a: real, b: real, t: real, u: real)
    requires a <= b && t <= u
    ensures Blend(a, b, t) <= Blend(a, b, u)
    ensures Blend(a, b, 0.0) == a && Blend(a, b, 1.0) == b
  {
    assert (b - a) * (u - t) >= 0.0;
  }

  lemma {:induction false} InterpolateBetween(s: seq<real>, position: real)
    requires SortedBy(Leq(), s) && 0.0 <= position <= (|s| - 1) as real
    ensures s[Floor(position)] <= Interpolate(s, position) <= s[Ceil(position)]
    ensures s[0] <= Interpolate(s, position) <= s[|s| - 1]
  {
    var low, high := Floor(position), Ceil(position);
    assert low == high || Leq()(s[low], s[high]);
    BlendIsMonotone(s[low], s[high], 0.0, position - low as real);
    BlendIsMonotone(s[low], s[high], position - low as real, 1.0);
    assert low == 0 || Leq()(s[0], s[low]);
    assert high == |s| - 1 || Leq()(s[high], s[|s| - 1]);
  }

  lemma {:induction false} InterpolateIsMonotone(s: seq<real>, x: real, y: real)
    requires SortedBy(Leq(), s) && 0.0 <= x <= y <= (|s| - 1) as real
    ensures Interpolate(s, x) <= Interpolate(s, y)
  {
    InterpolateBetween(s, x);
    InterpolateBetween(s, y);
    var i, j := Floor(x), Floor(y);
    if i < j {
      assert Ceil(x) == j || Leq()(s[Ceil(x)], s[j]);
    } else if i as real < x {
      assert Ceil(x) == Ceil(y);
      assert Leq()(s[i], s[Ceil(y)]);
      BlendIsMonotone(s[i], s[Ceil(y)], x - i as real, y - i as real);
    } else {
      BlendIsMonotone(s[i], s[i], 0.0, 0.0);
    }
  }

  lemma {:induction false} PositionGrows(n: nat, p: real, q: real)
    requires n > 0 && 0.0 <= p <= q <= 1.0
    ensures PositionOf(n, p) <= PositionOf(n, q)
  {
    assert ((n - 1) as real) * (q - p) >= 0.0;
  }

  /** Percentiles never decrease in p, across the boundaries between positions. */
  lemma {:induction false} PercentileIsMonotone(values: seq<real>, p: real, q: real)
    requires values != [] && 0.0 <= p <= q <= 1.0
    ensures Percentile(values, p).Some? && Percentile(values, q).Some?
    ensures Percentile(values, p).value <= Percentile(values, q).value
  {
    LeqIsTotal();
    SortSorts(Leq(), values);
    PositionGrows(|values|, p, q);
    InterpolateIsMonotone(Sort(Leq(), values), PositionOf(|values|, p), PositionOf(|values|, q));
  }

  /** Every bound on the values is a bound on their percentiles. */
  lemma {:induction false} PercentileIsBounded(values: seq<real>, p: real, low: real, high: real)
    requires values != [] && 0.0 <= p <= 1.0 && forall k :: 0 <= k < |values| ==> low <= values[k] <= high
    ensures Percentile(values, p).Some? && low <= Percentile(values, p).value <= high
  {
    LeqIsTotal();
    SortSorts(Leq(), values);
    var s := Sort(Leq(), values);
    InterpolateBetween(s, PositionOf(|values|, p));
    assert s[0] in multiset(s) && s[|s| - 1] in multiset(s);
    assert s[0] in values && s[|s| - 1] in values;
  }
}
