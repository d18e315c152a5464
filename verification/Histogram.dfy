/** Quantiles of a classic cumulative histogram, interpolated inside the selected bucket. */
module Histogram {
  import opened Sorting

  /** The upper edge of a bucket; the last bucket of a scrape is unbounded. */
  datatype Edge = At(x: real) | Infinite

  datatype Bucket = Bucket(upper: Edge, count: real)

  datatype Answer = Quantile(value: real) | Nothing | DivisionByZero

  predicate EdgeLeq(a: Edge, b: Edge) {
    b.Infinite? || (a.At? && a.x <= b.x)
  }

  /** Python compares the (edge, count) pairs lexicographically. */
  predicate Leq(a: Bucket, b: Bucket) {
    EdgeLeq(a.upper, b.upper) && (a.upper == b.upper ==> a.count <= b.count)
  }

  lemma {:induction false} LeqIsTotal()
    ensures TotalOrder(Leq)
  {
  }

  function Ordered(buckets: seq<Bucket>): seq<Bucket> {
    Sort(Leq, buckets)
  }

  lemma {:induction false} OrderedIsSorted(buckets: seq<Bucket>)
    ensures SortedBy(Leq, Ordered(buckets)) && |Ordered(buckets)| == |buckets|
  {
    LeqIsTotal();
    SortSorts(Leq, buckets);
  }

  function Total(s: seq<Bucket>): real {
    if s == [] then 0.0 else s[|s| - 1].count
  }

  /** k is the first bucket that reaches the target. */
  predicate Selects(s: seq<Bucket>, target: real, k: int) {
    0 <= k < |s| && s[k].count >= target && forall i :: 0 <= i < k ==> s[i].count < target
  }

  function Interpolate(lower: real, upper: real, target: real, previous: real, count: real): real
    requires count != previous
  {
    lower + (upper - lower) * (target - previous) / (count - previous)
  }

  function PreviousCount(s: seq<Bucket>, k: int): real
    requires 0 <= k <= |s|
  {
    if k == 0 then 0.0 else s[k - 1].count
  }

  function LowerEdge(s: seq<Bucket>, k: int): Edge
    requires 0 <= k <= |s|
  {
    if k == 0 then At(0.0) else s[k - 1].upper
  }

  /** What bucket k answers once it is selected. */
  function AnswerIn(s: seq<Bucket>, target: real, k: int): Answer
    requires 0 <= k < |s|
  {
    if s[k].upper.Infinite? || LowerEdge(s, k).Infinite? then Nothing
    else if s[k].count == PreviousCount(s, k) then DivisionByZero
    else Quantile(Interpolate(LowerEdge(s, k).x, s[k].upper.x, target, PreviousCount(s, k), s[k].count))
  }

  function Target(s: seq<Bucket>, fraction: real): real {
    Total(s) * fraction
  }

  ghost predicate AnswersAt(s: seq<Bucket>, target: real, a: Answer) {
    || (exists k :: Selects(s, target, k) && a == AnswerIn(s, target, k))
    || (a == Nothing && forall k :: !Selects(s, target, k))
  }

  /** The answer of the first bucket to reach the target, and none for an empty histogram. */
  ghost predicate Answers(s: seq<Bucket>, fraction: real, a: Answer) {
    if Total(s) == 0.0 then a == Nothing else AnswersAt(s, Target(s, fraction), a)
  }

  method QuantileOf(buckets: seq<Bucket>, fraction: real) returns (a: Answer)
    ensures Answers(Ordered(buckets), fraction, a)
  {
    var s := Ordered(buckets);
    OrderedIsSorted(buckets);
    var total := Total(s);
    if total == 0.0 {
      return Nothing;
    }
    var target := Target(s, fraction);
    var lower, previous := At(0.0), 0.0;
    var k := 0;
    while k < |s|
      invariant k <= |s|
      invariant lower == LowerEdge(s, k) && previous == PreviousCount(s, k)
      invariant forall i :: 0 <= i < k ==> s[i].count < target
    {
      var upper, count := s[k].upper, s[k].count;
      if count >= target {
        assert Selects(s, target, k);
        if upper.Infinite? {
          return Nothing;
        }
        FiniteBelowFinite(s, k);
        if count == previous {
          return DivisionByZero;
        }
        return Quantile(Interpolate(lower.x, upper.x, target, previous, count));
      }
      lower, previous := upper, count;
      k := k + 1;
    }
    return Nothing;
  }

  lemma {:induction false} FiniteBelowFinite(s: seq<Bucket>, k: int)
    requires SortedBy(Leq, s) && 0 <= k < |s| && s[k].upper.At?
    ensures LowerEdge(s, k).At?
    ensures k > 0 ==> LowerEdge(s, k).x <= s[k].upper.x
  {
    if k > 0 {
      assert Leq(s[k - 1], s[k]);
    }
  }

  lemma {:induction false} FirstToReach(s: seq<Bucket>, target: real, n: int) returns (k: int)
    requires 0 <= n < |s| && s[n].count >= target
    ensures Selects(s, target, k) && k <= n
    decreases n
  {
    if i :| 0 <= i < n && s[i].count >= target {
      k := FirstToReach(s, target, i);
    } else {
      k := n;
    }
  }

  // ----- Division by zero ------------------------------------------------------------------------------

  /** The division fails exactly when the target is not positive and the first bucket is an empty
      bounded one that already reaches it. */
  lemma {:induction false} DividesByZeroExactlyWhen(buckets: seq<Bucket>, fraction: real, a: Answer)
    requires Answers(Ordered(buckets), fraction, a)
    ensures var s := Ordered(buckets);
            a == DivisionByZero <==>
              Total(s) != 0.0 && s[0].upper.At? && s[0].count == 0.0 && Target(s, fraction) <= 0.0
  {
    var s := Ordered(buckets);
    OrderedIsSorted(buckets);
    var target := Target(s, fraction);
    if Total(s) != 0.0 {
      if s[0].count >= target {
        assert Selects(s, target, 0);
      }
      if k :| Selects(s, target, k) && a == AnswerIn(s, target, k) {
        assert forall j :: Selects(s, target, j) ==> j == k;
      }
    }
  }

  // ----- The answer lies in the selected bucket --------------------------------------------------------

  lemma {:induction false} Share(x: real, part: real, whole: real)
    requires 0.0 < part <= whole
    ensures x >= 0.0 ==> 0.0 <= x * part / whole <= x
    ensures x <= 0.0 ==> x <= x * part / whole <= 0.0
  {
    var w := part / whole;
    assert x * part / whole == x * w;
    assert 0.0 <= w <= 1.0;
  }

  lemma {:induction false} InterpolateStaysBetween(lower: real, upper: real, target: real, previous: real, count: real)
    requires previous < target <= count
    ensures lower <= upper ==> lower <= Interpolate(lower, upper, target, previous, count) <= upper
    ensures upper <= lower ==> upper <= Interpolate(lower, upper, target, previous, count) <= lower
  {
    Share(upper - lower, target - previous, count - previous);
  }

  predicate Between(x: real, a: real, b: real) {
    a <= x <= b || b <= x <= a
  }

  lemma {:induction false} TargetIsReached(s: seq<Bucket>, fraction: real)
    requires Total(s) > 0.0 && 0.0 < fraction <= 1.0
    ensures 0.0 < Target(s, fraction) <= Total(s)
  {
    assert Total(s) * (1.0 - fraction) >= 0.0;
  }

  lemma {:induction false} TargetsGrow(s: seq<Bucket>, f: real, g: real)
    requires Total(s) > 0.0 && f <= g
    ensures Target(s, f) <= Target(s, g)
  {
    assert Total(s) * (g - f) >= 0.0;
  }

  /** A proper fraction of a non-empty histogram selects a bucket; the answer lies between its
      edges, and is missing only for the unbounded bucket. */
  lemma {:induction false} AnswerLiesInItsBucket(buckets: seq<Bucket>, fraction: real, a: Answer) returns (k: int)
    requires Answers(Ordered(buckets), fraction, a) && Total(Ordered(buckets)) > 0.0 && 0.0 < fraction <= 1.0
    ensures var s := Ordered(buckets);
            && Selects(s, Target(s, fraction), k)
            && a == AnswerIn(s, Target(s, fraction), k)
            && a != DivisionByZero
            && (a == Nothing <==> s[k].upper.Infinite?)
            && (a.Quantile? ==> LowerEdge(s, k).At? && Between(a.value, LowerEdge(s, k).x, s[k].upper.x)
                                && (k > 0 || s[0].upper.x >= 0.0 ==> LowerEdge(s, k).x <= a.value <= s[k].upper.x))
  {
    var s := Ordered(buckets);
    OrderedIsSorted(buckets);
    var target := Target(s, fraction);
    TargetIsReached(s, fraction);
    k := FirstToReach(s, target, |s| - 1);
    var j :| Selects(s, target, j) && a == AnswerIn(s, target, j);
    if s[k].upper.At? {
      FiniteBelowFinite(s, k);
      InterpolateStaysBetween(LowerEdge(s, k).x, s[k].upper.x, target, PreviousCount(s, k), s[k].count);
    }
  }

  /** The answer divides the selected bucket as the target divides its count: the point lies on the
      line from the lower edge at the count before to the upper edge at the count of the bucket. */
  lemma {:induction false} AnswerIsLinear(
      buckets: seq<Bucket>, fraction: real, s: seq<Bucket>, target: real, a: Answer)
    returns (k: int, lower: real, previous: real)
    requires Answers(Ordered(buckets), fraction, a) && a.Quantile?
    requires s == Ordered(buckets) && s != [] && target == s[|s| - 1].count * fraction
    ensures 0 <= k < |s| == |buckets|
    ensures s[k].count >= target && forall i :: 0 <= i < k ==> s[i].count < target
    ensures if k == 0 then lower == 0.0 == previous else s[k - 1] == Bucket(At(lower), previous)
    ensures s[k].upper.At? && s[k].count != previous
    ensures (a.value - lower) * (s[k].count - previous) == (s[k].upper.x - lower) * (target - previous)
  {
    k, lower, previous := SelectedBucket(buckets, fraction, s, target, a);
    AnswerInIsLinear(s, target, k, a.value, lower, previous);
  }

  lemma {:induction false} SelectedBucket(
      buckets: seq<Bucket>, fraction: real, s: seq<Bucket>, target: real, a: Answer)
    returns (k: int, lower: real, previous: real)
    requires Answers(Ordered(buckets), fraction, a) && a.Quantile?
    requires s == Ordered(buckets) && s != [] && target == s[|s| - 1].count * fraction
    ensures |s| == |buckets| && Selects(s, target, k) && a == AnswerIn(s, target, k)
    ensures LowerEdge(s, k) == At(lower) && PreviousCount(s, k) == previous
  {
    OrderedIsSorted(buckets);
    TargetIsShareOfLast(s, fraction, target);
    assert AnswersAt(s, target, a);
    k :| Selects(s, target, k) && a == AnswerIn(s, target, k);
    lower, previous := LowerEdge(s, k).x, PreviousCount(s, k);
  }

  lemma {:induction false} TargetIsShareOfLast(s: seq<Bucket>, fraction: real, target: real)
    requires s != [] && target == s[|s| - 1].count * fraction
    ensures target == Target(s, fraction)
  {
  }

  lemma {:induction false} AnswerInIsLinear(
      s: seq<Bucket>, target: real, k: int, value: real, lower: real, previous: real)
    requires 0 <= k < |s| && AnswerIn(s, target, k) == Quantile(value)
    requires LowerEdge(s, k) == At(lower) && PreviousCount(s, k) == previous
    ensures s[k].upper.At? && s[k].count != previous
    ensures (value - lower) * (s[k].count - previous) == (s[k].upper.x - lower) * (target - previous)
  {
    InterpolateIsLinear(lower, s[k].upper.x, target, previous, s[k].count);
  }

  lemma {:induction false} InterpolateIsLinear(lower: real, upper: real, target: real, previous: real, count: real)
    requires count != previous
    ensures (Interpolate(lower, upper, target, previous, count) - lower) * (count - previous)
         == (upper - lower) * (target - previous)
  {
    TimesUndoesDivision((upper - lower) * (target - previous), count - previous);
  }

  lemma {:induction false} TimesUndoesDivision(x: real, d: real)
    requires d != 0.0
    ensures x / d * d == x
  {
  }

  /** There is no answer exactly when no bounded bucket reaches the target. */
  lemma {:induction false} NothingMeansTailOnly(buckets: seq<Bucket>, fraction: real, a: Answer)
    requires Answers(Ordered(buckets), fraction, a) && Total(Ordered(buckets)) > 0.0 && 0.0 < fraction <= 1.0
    ensures var s := Ordered(buckets);
            a == Nothing <==> forall i :: 0 <= i < |s| && s[i].upper.At? ==> s[i].count < Target(s, fraction)
  {
    var s := Ordered(buckets);
    OrderedIsSorted(buckets);
    var k := AnswerLiesInItsBucket(buckets, fraction, a);
    forall i | k <= i < |s| && s[k].upper.Infinite? ensures s[i].upper.Infinite? {
      assert i > k ==> Leq(s[k], s[i]);
    }
  }

  // ----- Monotone in the fraction ------------------------------------------------------------------------

  lemma {:induction false} InterpolateGrows(lower: real, upper: real, t: real, u: real, previous: real, count: real)
    requires previous < count && t <= u
    ensures lower <= upper ==>
              Interpolate(lower, upper, t, previous, count) <= Interpolate(lower, upper, u, previous, count)
    ensures upper < lower && t < u ==>
              Interpolate(lower, upper, t, previous, count) > Interpolate(lower, upper, u, previous, count)
  {
    var slope := (upper - lower) / (count - previous);
    assert (upper - lower) * (t - previous) / (count - previous) == slope * (t - previous);
    assert (upper - lower) * (u - previous) / (count - previous) == slope * (u - previous);
    assert slope * (u - previous) - slope * (t - previous) == slope * (u - t);
  }

  lemma {:induction false} LaterEdges(s: seq<Bucket>, j: int, k: int)
    requires SortedBy(Leq, s) && 0 <= j < k < |s| && s[k].upper.At?
    ensures s[j].upper.At? && LowerEdge(s, k).At? && s[j].upper.x <= LowerEdge(s, k).x
  {
    FiniteBelowFinite(s, k);
    if j < k - 1 {
      assert Leq(s[j], s[k - 1]);
    }
  }

  /** The first bucket can be selected and lies below the implicit lower edge zero. */
  predicate NegativeStart(s: seq<Bucket>) {
    s != [] && s[0].upper.At? && s[0].upper.x < 0.0 && s[0].count > 0.0
  }

  /** Larger fractions give larger answers. */
  lemma {:induction false} QuantileGrows(buckets: seq<Bucket>, f: real, g: real, a: Answer, b: Answer)
    requires Total(Ordered(buckets)) > 0.0 && !NegativeStart(Ordered(buckets)) && 0.0 < f <= g <= 1.0
    requires Answers(Ordered(buckets), f, a) && Answers(Ordered(buckets), g, b) && b.Quantile?
    ensures a.Quantile? && a.value <= b.value
  {
    var s := Ordered(buckets);
    OrderedIsSorted(buckets);
    var j := AnswerLiesInItsBucket(buckets, f, a);
    var k := AnswerLiesInItsBucket(buckets, g, b);
    TargetsGrow(s, f, g);
    TargetIsReached(s, f);
    assert j <= k;
    FiniteBelowFinite(s, k);
    if j < k {
      LaterEdges(s, j, k);
    } else {
      InterpolateGrows(LowerEdge(s, k).x, s[k].upper.x, Target(s, f), Target(s, g), PreviousCount(s, k), s[k].count);
    }
  }

  /** A histogram that starts below zero gives a smaller answer to a larger fraction. */
  lemma {:induction false} NegativeStartShrinks(buckets: seq<Bucket>) returns (f: real, g: real, a: Answer, b: Answer)
    requires Total(Ordered(buckets)) > 0.0 && NegativeStart(Ordered(buckets))
    ensures 0.0 < f < g <= 1.0 && Answers(Ordered(buckets), f, a) && Answers(Ordered(buckets), g, b)
    ensures a.Quantile? && b.Quantile? && a.value > b.value
  {
    var s := Ordered(buckets);
    f, g := ReachFirst(s);
    assert Selects(s, Target(s, f), 0) && Selects(s, Target(s, g), 0);
    a, b := AnswerIn(s, Target(s, f), 0), AnswerIn(s, Target(s, g), 0);
    InterpolateGrows(0.0, s[0].upper.x, Target(s, f), Target(s, g), 0.0, s[0].count);
  }

  lemma {:induction false} ReachFirst(s: seq<Bucket>) returns (f: real, g: real)
    requires s != [] && Total(s) > 0.0 && s[0].count > 0.0
    ensures 0.0 < f < g <= 1.0 && Target(s, f) < Target(s, g) <= s[0].count
  {
    var total, first := Total(s), s[0].count;
    var least := if first < total then first else total;
    g := least / total;
    f := g / 2.0;
    assert total * g == least;
    assert total * f == total * g / 2.0;
  }

  ghost predicate Ascends(s: seq<Bucket>, f: real, g: real, a: Answer, b: Answer) {
    0.0 < f <= g <= 1.0 && Answers(s, f, a) && Answers(s, g, b) && a.Quantile? && b.Quantile? ==> a.value <= b.value
  }

  /** Answers are monotone in the fraction if and only if the histogram does not start below zero. */
  lemma {:induction false} MonotoneIffNotNegativeStart(buckets: seq<Bucket>)
    requires Total(Ordered(buckets)) > 0.0
    ensures (forall f, g, a, b :: Ascends(Ordered(buckets), f, g, a, b)) <==> !NegativeStart(Ordered(buckets))
  {
    var s := Ordered(buckets);
    if NegativeStart(s) {
      var f, g, a, b := NegativeStartShrinks(buckets);
      assert !Ascends(s, f, g, a, b);
    } else {
      forall f, g, a, b ensures Ascends(s, f, g, a, b) {
        if 0.0 < f <= g <= 1.0 && Answers(s, f, a) && Answers(s, g, b) && a.Quantile? && b.Quantile? {
          QuantileGrows(buckets, f, g, a, b);
        }
      }
    }
  }
}
