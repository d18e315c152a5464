/** Stop rules over monotonic samples: a condition that held long enough, and error windows. */
module StopGuard {
  import opened Wrappers

  datatype Sample = Sample(condition: bool, now: real)

  predicate TimeOrdered(h: seq<Sample>) {
    forall i, j :: 0 <= i < j < |h| ==> h[i].now <= h[j].now
  }

  /** Where the unbroken stretch of samples that ends a history began. */
  function RunStart(h: seq<Sample>): Option<real> {
    if h == [] || !h[|h| - 1].condition then
      None
    else
      var before := RunStart(h[..|h| - 1]);
      if before.Some? then before else Some(h[|h| - 1].now)
  }

  lemma {:induction false} RunStartAfter(h: seq<Sample>, x: Sample)
    ensures RunStart(h + [x])
         == if !x.condition then None else if RunStart(h).Some? then RunStart(h) else Some(x.now)
  {
    assert (h + [x])[..|h|] == h;
  }

  predicate HoldsSince(h: seq<Sample>, i: nat) {
    i < |h| && forall k :: i <= k < |h| ==> h[k].condition
  }

  /** The condition held on every sample since one that is at least `seconds` old. */
  ghost predicate Sustained(h: seq<Sample>, seconds: real) {
    exists i: nat :: HoldsSince(h, i) && h[|h| - 1].now - h[i].now >= seconds
  }

  lemma {:induction false} RunStartIsSample(h: seq<Sample>) returns (i: nat)
    requires RunStart(h).Some?
    ensures HoldsSince(h, i) && h[i].now == RunStart(h).value
    ensures i > 0 ==> !h[i - 1].condition
  {
    var n := |h| - 1;
    if RunStart(h[..n]).Some? {
      i := RunStartIsSample(h[..n]);
      assert forall k :: i <= k < n ==> h[..n][k] == h[k];
    } else {
      i := n;
      assert n > 0 ==> !h[..n][n - 1].condition;
    }
  }

  lemma {:induction false} HoldingHasStart(h: seq<Sample>, i: nat)
    requires HoldsSince(h, i)
    ensures RunStart(h).Some?
  {
  }

  /** What the guard computes from the remembered start. */
  predicate Fires(h: seq<Sample>, seconds: real) {
    RunStart(h).Some? && h[|h| - 1].now - RunStart(h).value >= seconds
  }

  /** No sample of the current stretch is earlier than its first one. */
  ghost predicate StretchInOrder(h: seq<Sample>) {
    forall i: nat :: HoldsSince(h, i) ==> RunStart(h).Some? && RunStart(h).value <= h[i].now
  }

  lemma {:induction false} OrderedStretch(h: seq<Sample>)
    requires TimeOrdered(h)
    ensures StretchInOrder(h)
  {
    forall i: nat | HoldsSince(h, i) ensures RunStart(h).Some? && RunStart(h).value <= h[i].now {
      HoldingHasStart(h, i);
      var start := RunStartIsSample(h);
      assert start <= i by {
        assert start > 0 ==> !h[start - 1].condition;
      }
      assert start == i || h[start].now <= h[i].now;
    }
  }

  lemma {:induction false} FiringIsSustained(h: seq<Sample>, seconds: real)
    ensures Fires(h, seconds) ==> Sustained(h, seconds)
    ensures StretchInOrder(h) && Sustained(h, seconds) ==> Fires(h, seconds)
  {
    if Fires(h, seconds) {
      var start := RunStartIsSample(h);
    }
    if StretchInOrder(h) && Sustained(h, seconds) {
      var i: nat :| HoldsSince(h, i) && h[|h| - 1].now - h[i].now >= seconds;
    }
  }

  lemma {:induction false} SustainedMeans(h: seq<Sample>, seconds: real)
    ensures (forall i, j :: 0 <= i < j < |h| ==> h[i].now <= h[j].now) ==> StretchInOrder(h)
    ensures Sustained(h, seconds) <==>
            exists i ::
              && 0 <= i < |h| && h[|h| - 1].now - h[i].now >= seconds
              && forall k :: i <= k < |h| ==> h[k].condition
  {
    if TimeOrdered(h) {
      OrderedStretch(h);
    }
    if i :| 0 <= i < |h| && h[|h| - 1].now - h[i].now >= seconds && forall k :: i <= k < |h| ==> h[k].condition {
      assert HoldsSince(h, i);
    }
  }

  /** Remembering only the start implements the rule for every threshold exactly when no sample of
      the current stretch is earlier than its first one; time-ordered histories are of that kind,
      a clock that ran backwards within the stretch is not. */
  lemma {:induction false} StartDecidesSustained(h: seq<Sample>)
    ensures (forall seconds: real :: Fires(h, seconds) <==> Sustained(h, seconds)) <==> StretchInOrder(h)
    ensures TimeOrdered(h) ==> StretchInOrder(h)
  {
    if TimeOrdered(h) {
      OrderedStretch(h);
    }
    forall seconds: real ensures StretchInOrder(h) ==> (Fires(h, seconds) <==> Sustained(h, seconds)) {
      FiringIsSustained(h, seconds);
    }
    if !StretchInOrder(h) {
      var i: nat :| HoldsSince(h, i) && !(RunStart(h).Some? && RunStart(h).value <= h[i].now);
      HoldingHasStart(h, i);
      var seconds := h[|h| - 1].now - h[i].now;
      assert Sustained(h, seconds) && !Fires(h, seconds);
    }
  }

  /** The concrete case: the clock jumps back and forth within one stretch. */
  lemma {:induction false} BackwardClockHidesSustained(h: seq<Sample>)
    requires h == [Sample(true, 10.0), Sample(true, 0.0), Sample(true, 10.0)]
    ensures Sustained(h, 10.0) && !Fires(h, 10.0)
  {
    assert HoldsSince(h, 1);
    assert h[2].now - h[1].now >= 10.0;
    assert h[..2][..1] == [h[0]] && h[..2][..1][..0] == [];
    assert RunStart(h[..2][..1]) == Some(10.0);
    assert RunStart(h[..2]) == Some(10.0);
  }

  // ----- Error windows ------------------------------------------------------------------------------

  datatype Limits = Limits(
    minErrorSamples: real, errorFraction: real, smallWindowErrors: real, consecutiveWindows: nat)

  datatype Window = Window(completed: real, errors: real)

  /** More than the fraction f of b is a; for a negative b the comparison turns round. */
  predicate Exceeds(a: real, b: real, f: real) {
    if b > 0.0 then a > f * b else a < f * b
  }

  /** A window with enough samples, more than the allowed fraction of which are errors. */
  predicate IsBad(limits: Limits, w: Window) {
    w.completed >= limits.minErrorSamples && Exceeds(w.errors, w.completed, limits.errorFraction)
  }

  /** An empty window that counts as large enough has no fraction of errors. */
  predicate HasNoFraction(limits: Limits, w: Window) {
    w.completed == 0.0 && limits.minErrorSamples <= 0.0
  }

  /** The last windows that have to be bad without exception; all of them, if the number is 0. */
  predicate InTail(limits: Limits, n: nat, k: int) {
    0 <= k < n && (limits.consecutiveWindows == 0 || k >= n - limits.consecutiveWindows)
  }

  /** The rule fires on the latest window: a small window with too many errors, or enough bad
      windows in a row. */
  predicate Alarm(limits: Limits, windows: seq<Window>)
    requires windows != []
  {
    var latest := windows[|windows| - 1];
    || (latest.completed < limits.minErrorSamples && latest.errors >= limits.smallWindowErrors)
    || (|windows| >= limits.consecutiveWindows
        && forall k :: 0 <= k < |windows| && InTail(limits, |windows|, k) ==> IsBad(limits, windows[k]))
  }

  /** In terms of the quotient that the rule computes, for windows that have one. */
  lemma {:induction false} AlarmMeans(limits: Limits, windows: seq<Window>)
    requires windows != [] && forall k :: 0 <= k < |windows| ==> !HasNoFraction(limits, windows[k])
    ensures var latest, n := windows[|windows| - 1], |windows|;
            var wanted := limits.consecutiveWindows;
            Alarm(limits, windows) <==>
              || (latest.completed < limits.minErrorSamples && latest.errors >= limits.smallWindowErrors)
              || (n >= wanted
                  && forall k :: 0 <= k < n && (wanted == 0 || n <= k + wanted) ==>
                       && windows[k].completed >= limits.minErrorSamples && windows[k].completed != 0.0
                       && windows[k].errors / windows[k].completed > limits.errorFraction)
  {
    forall k | 0 <= k < |windows|
      ensures IsBad(limits, windows[k]) <==>
                && windows[k].completed >= limits.minErrorSamples && windows[k].completed != 0.0
                && windows[k].errors / windows[k].completed > limits.errorFraction
    {
      assert !HasNoFraction(limits, windows[k]);
      if windows[k].completed != 0.0 {
        QuotientExceeds(windows[k].errors, windows[k].completed, limits.errorFraction);
      }
    }
    assert forall k :: 0 <= k < |windows| ==>
                         (InTail(limits, |windows|, k) <==>
                          limits.consecutiveWindows == 0 || |windows| <= k + limits.consecutiveWindows);
  }

  class StopGuard {
    const limits: Limits
    var since: map<string, real>
    var errorWindows: seq<bool>
    ghost var history: map<string, seq<Sample>>
    ghost var windows: seq<Window>

    /** What is remembered under a name is the start of the stretch that its history ends with. */
    ghost predicate Remembers(name: string)
      reads `since, `history
    {
      RunStart(HistoryOf(name)) == if name in since then Some(since[name]) else None
    }

    ghost predicate Valid()
      reads this
    {
      && (forall name :: Remembers(name))
      && |errorWindows| == |windows|
      && (forall k :: 0 <= k < |windows| ==> (errorWindows[k] <==> IsBad(limits, windows[k])))
      && (forall k :: 0 <= k < |windows| ==> !HasNoFraction(limits, windows[k]))
    }

    constructor (limits: Limits)
      ensures Valid() && this.limits == limits && history == map[] && windows == []
    {
      this.limits := limits;
      since, errorWindows, history, windows := map[], [], map[], [];
    }

    ghost function HistoryOf(name: string): seq<Sample>
      reads `history
    {
      if name in history then history[name] else []
    }

    method CheckSustained(name: string, condition: bool, now: real, seconds: real) returns (r: bool)
      requires Valid()
      modifies this`since, this`history
      ensures Valid()
      ensures history == old(history)[name := old(HistoryOf(name)) + [Sample(condition, now)]]
      ensures forall other :: other != name ==> (other in since <==> other in old(since))
      ensures r <==> RunStart(history[name]).Some? && now - RunStart(history[name]).value >= seconds
      ensures StretchInOrder(history[name]) ==> (r <==> Sustained(history[name], seconds))
    {
      ghost var h := HistoryOf(name) + [Sample(condition, now)];
      assert Remembers(name);
      RunStartAfter(HistoryOf(name), Sample(condition, now));
      FiringIsSustained(h, seconds);
      if !condition {
        since := since - {name};
        r := false;
      } else {
        if name !in since {
          since := since[name := now];
        }
        r := now - since[name] >= seconds;
      }
      history := history[name := h];
      forall other ensures Remembers(other) {
        assert other != name ==> old(Remembers(other));
      }
    }

    /** Fails on an empty window if no minimum of samples keeps it from being divided by; then the
        window leaves no trace. */
    method ErrorWindow(completed: real, errors: real) returns (r: Result<bool, string>)
      requires Valid()
      modifies this`errorWindows, this`windows
      ensures Valid()
      ensures r.Failure? <==> completed == 0.0 && limits.minErrorSamples <= 0.0
      ensures windows == old(windows) + if r.Success? then [Window(completed, errors)] else []
      ensures r.Success? ==> (r.value <==> Alarm(limits, windows))
    {
      var bad := false;
      if completed >= limits.minErrorSamples {
        if completed == 0.0 {
          return Failure("division by zero");
        }
        QuotientExceeds(errors, completed, limits.errorFraction);
        bad := errors / completed > limits.errorFraction;
      }
      windows := windows + [Window(completed, errors)];
      errorWindows := errorWindows + [bad];
      var alarm := RaisesAlarm(limits, errorWindows, completed, errors, windows);
      return Success(alarm);
    }
  }

  method RaisesAlarm(limits: Limits, flags: seq<bool>, completed: real, errors: real, ghost windows: seq<Window>)
    returns (r: bool)
    requires |flags| == |windows| > 0 && windows[|windows| - 1] == Window(completed, errors)
    requires forall k :: 0 <= k < |windows| ==> (flags[k] <==> IsBad(limits, windows[k]))
    ensures r <==> Alarm(limits, windows)
  {
    if completed < limits.minErrorSamples && errors >= limits.smallWindowErrors {
      return true;
    }
    if |flags| < limits.consecutiveWindows {
      return false;
    }
    var from := if limits.consecutiveWindows == 0 then 0 else |flags| - limits.consecutiveWindows;
    r := AllTrue(flags[from..]);
    assert forall k :: 0 <= k < |windows| ==> (InTail(limits, |windows|, k) <==> k >= from);
    assert forall j :: from <= j < |flags| ==> flags[j] == flags[from..][j - from];
  }

  method AllTrue(s: seq<bool>) returns (r: bool)
    ensures r <==> forall j :: 0 <= j < |s| ==> s[j]
  {
    for k := 0 to |s|
      invariant forall j :: 0 <= j < k ==> s[j]
    {
      if !s[k] {
        return false;
      }
    }
    return true;
  }

  lemma {:induction false} QuotientExceeds(a: real, b: real, f: real)
    requires b != 0.0
    ensures a / b > f <==> Exceeds(a, b, f)
  {
    assert a == (a / b) * b;
    assert a - f * b == (a / b - f) * b;
    if b > 0.0 {
      SignOfProduct(a / b - f, b);
    } else {
      SignOfProduct(a / b - f, -b);
      assert (a / b - f) * b == -((a / b - f) * -b);
    }
  }

  lemma {:induction false} SignOfProduct(x: real, d: real)
    requires d > 0.0
    ensures x > 0.0 <==> x * d > 0.0
  {
    if x <= 0.0 {
      assert -x * d >= 0.0;
    }
  }
}
