/** The one-pass search for a long enough stretch of good samples after a stop. */
module Recovery {
  import opened Wrappers

  /** A sample, with the value of the predicate under test. */
  datatype Sample = Sample(time: real, good: bool)

  datatype Search = Search(stop: real, duration: real, maxGap: real, deadline: Option<real>)

  predicate TimeOrdered(samples: seq<Sample>) {
    forall i, j :: 0 <= i < j < |samples| ==> samples[i].time <= samples[j].time
  }

  /** Samples i to j are good, come after the stop, and leave no gap. */
  predicate Unbroken(q: Search, samples: seq<Sample>, i: nat, j: nat) {
    && i <= j < |samples|
    && (forall k :: i <= k <= j ==> samples[k].good && samples[k].time >= q.stop)
    && (forall k :: i < k <= j ==> samples[k].time - samples[k - 1].time <= q.maxGap)
  }

  predicate LongEnough(q: Search, begin: real, end: real) {
    && end - begin >= q.duration
    && (q.deadline.None? || begin <= q.stop + q.deadline.value)
  }

  /** What recovery asks for: some unbroken stretch that is long enough and starts in time. */
  ghost predicate HasWindow(q: Search, samples: seq<Sample>) {
    exists i: nat, j: nat :: Unbroken(q, samples, i, j) && LongEnough(q, samples[i].time, samples[j].time)
  }

  /** Sample by sample. */
  lemma {:induction false} HasWindowMeans(q: Search, samples: seq<Sample>)
    ensures (forall i, j :: 0 <= i < j < |samples| ==> samples[i].time <= samples[j].time) <==> TimeOrdered(samples)
    ensures HasWindow(q, samples) <==>
            exists i: nat, j: nat ::
              && Unbroken(q, samples, i, j) && i <= j < |samples|
              && (forall k :: i <= k <= j ==> samples[k].good && samples[k].time >= q.stop)
              && (forall k :: i < k <= j ==> samples[k].time - samples[k - 1].time <= q.maxGap)
              && samples[j].time - samples[i].time >= q.duration
              && (q.deadline.None? || samples[i].time - q.stop <= q.deadline.value)
  {
    if HasWindow(q, samples) {
      var i: nat, j: nat :| Unbroken(q, samples, i, j) && LongEnough(q, samples[i].time, samples[j].time);
      assert Unbroken(q, samples, i, j) && samples[j].time - samples[i].time >= q.duration;
    }
  }

  // ----- The state of the pass ------------------------------------------------------------------------

  /** `began` is the start of the current stretch, `previous` the last sample after the stop. */
  datatype Scan = Scan(began: Option<real>, previous: Option<real>)

  function Advance(q: Search, scan: Scan, x: Sample): Scan {
    if x.time < q.stop then
      scan
    else
      var kept := if scan.previous.Some? && x.time - scan.previous.value > q.maxGap then None else scan.began;
      Scan(if !x.good then None else if kept.None? then Some(x.time) else kept, Some(x.time))
  }

  function ScanOf(q: Search, samples: seq<Sample>): Scan {
    if samples == [] then Scan(None, None)
    else Advance(q, ScanOf(q, samples[..|samples| - 1]), samples[|samples| - 1])
  }

  /** The pass stops at a sample that completes a stretch. */
  predicate Hit(q: Search, samples: seq<Sample>, n: nat)
    requires n < |samples|
  {
    var scan := ScanOf(q, samples[..n + 1]);
    samples[n].time >= q.stop && scan.began.Some? && LongEnough(q, scan.began.value, samples[n].time)
  }

  method Window(q: Search, samples: seq<Sample>) returns (r: bool)
    ensures r <==> exists n :: 0 <= n < |samples| && Hit(q, samples, n)
    ensures TimeOrdered(samples) ==> (r <==> HasWindow(q, samples))
  {
    if TimeOrdered(samples) {
      HitsAreWindows(q, samples);
    }
    var began: Option<real>, previous: Option<real> := None, None;
    var n := 0;
    while n < |samples|
      invariant n <= |samples|
      invariant Scan(began, previous) == ScanOf(q, samples[..n])
      invariant forall k :: 0 <= k < n ==> !Hit(q, samples, k)
    {
      var x := samples[n];
      assert samples[..n + 1][..n] == samples[..n];
      n := n + 1;
      if x.time < q.stop {
        continue;
      }
      if previous.Some? && x.time - previous.value > q.maxGap {
        began := None;
      }
      if x.good {
        if began.None? {
          began := Some(x.time);
        }
        if x.time - began.value >= q.duration && (q.deadline.None? || began.value <= q.stop + q.deadline.value) {
          assert Hit(q, samples, n - 1);
          return true;
        }
      } else {
        began := None;
      }
      previous := Some(x.time);
    }
    return false;
  }

  // ----- The pass against the definition ----------------------------------------------------------------

  /** After a time-ordered prefix, `began` is the time of the first sample of the longest unbroken
      stretch that ends the prefix. */
  ghost predicate ScanFits(q: Search, samples: seq<Sample>) {
    var scan := ScanOf(q, samples);
    var n := |samples|;
    && (scan.previous == if n > 0 && samples[n - 1].time >= q.stop then Some(samples[n - 1].time) else None)
    && (scan.began.Some? <==> n > 0 && samples[n - 1].good && samples[n - 1].time >= q.stop)
    && (scan.began.Some? ==> exists i: nat :: StartsAt(q, samples, i) && samples[i].time == scan.began.value)
  }

  /** The unbroken stretch from i to the end cannot be extended to the left. */
  predicate StartsAt(q: Search, samples: seq<Sample>, i: nat) {
    && samples != [] && Unbroken(q, samples, i, |samples| - 1)
    && (i > 0 ==>
          || !samples[i - 1].good || samples[i - 1].time < q.stop
          || samples[i].time - samples[i - 1].time > q.maxGap)
  }

  lemma {:induction false} StretchGrows(q: Search, samples: seq<Sample>, i: nat)
    requires |samples| > 1 && StartsAt(q, samples[..|samples| - 1], i)
    requires var n := |samples| - 1;
             samples[n].good && samples[n].time >= q.stop && samples[n].time - samples[n - 1].time <= q.maxGap
    ensures StartsAt(q, samples, i) && samples[i] == samples[..|samples| - 1][i]
  {
    assert forall k :: 0 <= k < |samples| - 1 ==> samples[..|samples| - 1][k] == samples[k];
  }

  lemma {:induction false} OrderedScanFits(q: Search, samples: seq<Sample>)
    requires TimeOrdered(samples)
    ensures ScanFits(q, samples)
  {
    if samples != [] {
      var n := |samples| - 1;
      var init := samples[..n];
      OrderedScanFits(q, init);
      var scan, x := ScanOf(q, init), samples[n];
      assert n > 0 ==> init[n - 1] == samples[n - 1];
      if x.time >= q.stop && x.good {
        if scan.began.None? || x.time - scan.previous.value > q.maxGap {
          assert StartsAt(q, samples, n);
        } else {
          var i: nat :| StartsAt(q, init, i) && init[i].time == scan.began.value;
          StretchGrows(q, samples, i);
        }
      }
    }
  }

  lemma {:induction false} StretchStartsFirst(q: Search, samples: seq<Sample>, i: nat, start: nat)
    requires StartsAt(q, samples, start) && Unbroken(q, samples, i, |samples| - 1)
    ensures start <= i
  {
  }

  lemma {:induction false} PrefixUnbroken(q: Search, samples: seq<Sample>, i: nat, j: nat)
    requires j < |samples|
    ensures Unbroken(q, samples[..j + 1], i, j) <==> Unbroken(q, samples, i, j)
    ensures TimeOrdered(samples) ==> TimeOrdered(samples[..j + 1])
  {
    assert forall k :: 0 <= k <= j ==> samples[..j + 1][k] == samples[k];
  }

  lemma {:induction false} HitIsWindow(q: Search, samples: seq<Sample>, n: nat)
    requires TimeOrdered(samples) && n < |samples| && Hit(q, samples, n)
    ensures HasWindow(q, samples)
  {
    var prefix := samples[..n + 1];
    PrefixUnbroken(q, samples, 0, n);
    OrderedScanFits(q, prefix);
    var i: nat :| StartsAt(q, prefix, i) && prefix[i].time == ScanOf(q, prefix).began.value;
    PrefixUnbroken(q, samples, i, n);
    assert samples[i] == prefix[i];
  }

  /** The remembered beginning of the stretch that ends at j is not later than any sample of it. */
  lemma {:induction false} BeganByThen(q: Search, samples: seq<Sample>, i: nat, j: nat)
    requires TimeOrdered(samples) && j < |samples| && Unbroken(q, samples, i, j)
    ensures ScanOf(q, samples[..j + 1]).began.Some?
    ensures ScanOf(q, samples[..j + 1]).began.value <= samples[i].time
  {
    var prefix := samples[..j + 1];
    PrefixUnbroken(q, samples, i, j);
    OrderedScanFits(q, prefix);
    var start: nat :| StartsAt(q, prefix, start) && prefix[start].time == ScanOf(q, prefix).began.value;
    StretchStartsFirst(q, prefix, i, start);
    assert start == i || prefix[start].time <= prefix[i].time;
  }

  lemma {:induction false} WindowIsHit(q: Search, samples: seq<Sample>, i: nat, j: nat)
    requires TimeOrdered(samples)
    requires Unbroken(q, samples, i, j) && LongEnough(q, samples[i].time, samples[j].time)
    ensures Hit(q, samples, j)
  {
    BeganByThen(q, samples, i, j);
  }

  /** On time-ordered samples the pass finds a window exactly when there is one. */
  lemma {:induction false} HitsAreWindows(q: Search, samples: seq<Sample>)
    requires TimeOrdered(samples)
    ensures HasWindow(q, samples) <==> exists n :: 0 <= n < |samples| && Hit(q, samples, n)
  {
    if n :| 0 <= n < |samples| && Hit(q, samples, n) {
      HitIsWindow(q, samples, n);
    }
    if i: nat, j: nat :| Unbroken(q, samples, i, j) && LongEnough(q, samples[i].time, samples[j].time) {
      WindowIsHit(q, samples, i, j);
    }
  }
}
