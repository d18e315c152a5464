/** The lock-free permit counters.  Each event is one atomic access of one thread, so a run
    covers every interleaving of any number of calls, spurious failures of the weak
    compare-exchange, failed allocations, and releases. */
module Bulkhead {
  import opened Counting
  import opened Wrappers

  type CallId = nat

  const RESOURCES := 8
  const UINT_RANGE := 0x1_0000_0000

  /** What configure() accepts. */
  predicate ValidLimits(limits: seq<nat>) {
    |limits| == RESOURCES && forall i :: 0 <= i < RESOURCES ==> 1 <= limits[i] <= 256
  }

  /** configure() refuses the whole array for one value out of range. */
  method Configure(values: seq<nat>) returns (limits: Option<seq<nat>>)
    requires |values| == RESOURCES
    ensures limits == if ValidLimits(values) then Some(values) else None
    ensures limits.Some? <==> forall i :: 0 <= i < |values| ==> 1 <= values[i] <= 256
  {
    for i := 0 to |values|
      invariant forall k :: 0 <= k < i ==> 1 <= values[k] <= 256
    {
      if values[i] < 1 || values[i] > 256 {
        return None;
      }
    }
    return Some(values);
  }

  /** Where a call of acquire() is, with its locals: `n` is the last value of `active` it saw and
      `high` the last value of `peak`. */
  datatype Pc =
    | Entered
    | Comparing(n: nat)
    | Claimed(n: nat)
    | Raising(n: nat, high: nat)
    | Allocating
    | RollingBack
    | Threw
    | Rejected
    | Live
    | Released

  datatype Call = Call(resource: nat, pc: Pc)

  datatype State = State(active: seq<nat>, peak: seq<nat>, calls: map<CallId, Call>)

  const IDLE := State([0, 0, 0, 0, 0, 0, 0, 0], [0, 0, 0, 0, 0, 0, 0, 0], map[])

  predicate Shaped(s: State) {
    && |s.active| == |s.peak| == RESOURCES
    && forall c :: c in s.calls ==> s.calls[c].resource < RESOURCES
  }

  /** A claimed slot: a live permit, or a call past its successful compare-exchange that has
      neither returned nor rolled back. */
  predicate Holds(call: Call, i: nat) {
    && call.resource == i
    && (call.pc.Claimed? || call.pc.Raising? || call.pc.Allocating? || call.pc.RollingBack? || call.pc.Live?)
  }

  /** Between the successful compare-exchange and the end of the peak loop. */
  predicate RaisesPeak(call: Call, i: nat) {
    call.resource == i && (call.pc.Claimed? || call.pc.Raising?)
  }

  function Holders(calls: map<CallId, Call>, i: nat): set<CallId> {
    set c | c in calls && Holds(calls[c], i)
  }

  datatype Event =
    | Enter(c: CallId, resource: nat)
    | LoadActive(c: CallId)
    | Reject(c: CallId)
    | CompareExchange(c: CallId, spurious: bool)
    | LoadPeak(c: CallId)
    | RaisePeak(c: CallId, spurious: bool)
    | LeavePeakLoop(c: CallId)
    | Allocate(c: CallId, succeeds: bool)
    | RollBack(c: CallId)
    | Release(c: CallId)

  predicate Possible(limits: seq<nat>, s: State, e: Event)
    requires ValidLimits(limits) && Shaped(s)
  {
    if e.Enter? then
      e.c !in s.calls && e.resource < RESOURCES
    else
      && e.c in s.calls
      && var call := s.calls[e.c];
      match e
      case Enter(_, _) => true
      case LoadActive(_) => call.pc.Entered?
      case Reject(_) => call.pc.Comparing? && call.pc.n >= limits[call.resource]
      case CompareExchange(_, _) => call.pc.Comparing? && call.pc.n < limits[call.resource]
      case LoadPeak(_) => call.pc.Claimed?
      case RaisePeak(_, _) => call.pc.Raising? && call.pc.n + 1 > call.pc.high
      case LeavePeakLoop(_) => call.pc.Raising? && call.pc.n + 1 <= call.pc.high
      case Allocate(_, _) => call.pc.Allocating?
      case RollBack(_) => call.pc.RollingBack?
      case Release(_) => call.pc.Live?
  }

  function Increment(v: nat): nat {
    (v + 1) % UINT_RANGE
  }

  /** fetch_sub(1) on an unsigned counter wraps below zero. */
  function Decrement(v: nat): nat {
    if v == 0 then UINT_RANGE - 1 else v - 1
  }

  function After(limits: seq<nat>, s: State, e: Event): (s': State)
    requires ValidLimits(limits) && Shaped(s) && Possible(limits, s, e)
  {
    if e.Enter? then
      s.(calls := s.calls[e.c := Call(e.resource, Entered)])
    else
      var call := s.calls[e.c];
      var i := call.resource;
      match e
      case Enter(_, _) => s
      case LoadActive(c) => s.(calls := s.calls[c := Call(i, Comparing(s.active[i]))])
      case Reject(c) => s.(calls := s.calls[c := Call(i, Rejected)])
      case CompareExchange(c, spurious) =>
        if s.active[i] == call.pc.n && !spurious then
          s.(active := s.active[i := Increment(call.pc.n)], calls := s.calls[c := Call(i, Claimed(call.pc.n))])
        else
          s.(calls := s.calls[c := Call(i, Comparing(s.active[i]))])
      case LoadPeak(c) => s.(calls := s.calls[c := Call(i, Raising(call.pc.n, s.peak[i]))])
      case RaisePeak(c, spurious) =>
        if s.peak[i] == call.pc.high && !spurious then
          s.(peak := s.peak[i := Increment(call.pc.n)], calls := s.calls[c := Call(i, Allocating)])
        else
          s.(calls := s.calls[c := Call(i, Raising(call.pc.n, s.peak[i]))])
      case LeavePeakLoop(c) => s.(calls := s.calls[c := Call(i, Allocating)])
      case Allocate(c, succeeds) => s.(calls := s.calls[c := Call(i, if succeeds then Live else RollingBack)])
      case RollBack(c) => s.(active := s.active[i := Decrement(s.active[i])], calls := s.calls[c := Call(i, Threw)])
      case Release(c) => s.(active := s.active[i := Decrement(s.active[i])], calls := s.calls[c := Call(i, Released)])
  }

  ghost predicate Next(limits: seq<nat>, s: State, s': State)
    requires ValidLimits(limits)
  {
    Shaped(s) && exists e: Event :: Possible(limits, s, e) && s' == After(limits, s, e)
  }

  ghost predicate StepAt(limits: seq<nat>, run: seq<State>, k: int)
    requires 0 <= k < |run| - 1 && ValidLimits(limits)
  {
    Next(limits, run[k], run[k + 1])
  }

  ghost predicate IsRun(limits: seq<nat>, run: seq<State>) {
    && ValidLimits(limits)
    && |run| > 0
    && run[0] == IDLE
    && forall k :: 0 <= k < |run| - 1 ==> StepAt(limits, run, k)
  }

  // ----- Slots are conserved ------------------------------------------------------------------

  ghost predicate Inv(limits: seq<nat>, s: State) {
    && ValidLimits(limits)
    && Shaped(s)
    && (forall i :: 0 <= i < RESOURCES ==> s.active[i] == |Holders(s.calls, i)| <= limits[i])
    && (forall c :: c in s.calls && RaisesPeak(s.calls[c], s.calls[c].resource) ==>
          s.calls[c].pc.n < limits[s.calls[c].resource])
  }

  function Slot(calls: map<CallId, Call>, c: CallId, i: nat): nat {
    if c in calls && Holds(calls[c], i) then 1 else 0
  }

  lemma {:induction false} HoldersAfter(calls: map<CallId, Call>, c: CallId, call: Call, i: nat)
    ensures |Holders(calls[c := call], i)| - Slot(calls[c := call], c, i) == |Holders(calls, i)| - Slot(calls, c, i)
  {
    var a, b := Holders(calls, i), Holders(calls[c := call], i);
    assert forall d :: d != c ==> (d in a <==> d in b);
    CountWithout(a, b, c);
  }

  /** An event touches one call and one resource, and active[] moves with that call's slot. */
  lemma {:induction false} EventMovesOneSlot(limits: seq<nat>, s: State, e: Event)
    requires ValidLimits(limits) && Shaped(s) && Possible(limits, s, e)
    requires e.c in s.calls && Holds(s.calls[e.c], s.calls[e.c].resource) ==> s.active[s.calls[e.c].resource] > 0
    ensures var s' := After(limits, s, e);
            && Shaped(s') && e.c in s'.calls && s'.calls == s.calls[e.c := s'.calls[e.c]]
            && forall i :: 0 <= i < RESOURCES ==>
                 s'.active[i] - Slot(s'.calls, e.c, i) == s.active[i] - Slot(s.calls, e.c, i)
  {
    var s' := After(limits, s, e);
    assert e.CompareExchange? ==> s.calls[e.c].pc.n < 256;
    assert s'.calls == s.calls[e.c := s'.calls[e.c]];
    forall i | 0 <= i < RESOURCES
      ensures s'.active[i] - Slot(s'.calls, e.c, i) == s.active[i] - Slot(s.calls, e.c, i)
    {
      if !e.Enter? && i == s.calls[e.c].resource {
      } else {
        assert s'.active[i] == s.active[i];
      }
    }
  }

  /** A claim happens only below the limit, and remembers the value it replaced. */
  lemma {:induction false} ClaimsStayBelowLimit(limits: seq<nat>, s: State, e: Event)
    requires Inv(limits, s) && Possible(limits, s, e)
    ensures var s' := After(limits, s, e);
            && (forall i :: 0 <= i < RESOURCES && s'.active[i] > s.active[i] ==> s'.active[i] <= limits[i])
            && (RaisesPeak(s'.calls[e.c], s'.calls[e.c].resource) ==>
                  s'.calls[e.c].pc.n < limits[s'.calls[e.c].resource])
  {
    if !e.Enter? {
      var i := s.calls[e.c].resource;
      if Holds(s.calls[e.c], i) {
        assert e.c in Holders(s.calls, i);
      }
    }
  }

  lemma {:induction false} PeakOnlyRises(limits: seq<nat>, s: State, e: Event)
    requires Inv(limits, s) && Possible(limits, s, e)
    ensures forall i :: 0 <= i < RESOURCES ==> s.peak[i] <= After(limits, s, e).peak[i]
  {
    if e.RaisePeak? {
      assert s.calls[e.c].pc.n < limits[s.calls[e.c].resource] <= 256;
    } else {
      assert After(limits, s, e).peak == s.peak;
    }
  }

  lemma {:induction false} NextKeepsInv(limits: seq<nat>, s: State, e: Event)
    requires Inv(limits, s) && Possible(limits, s, e)
    ensures Inv(limits, After(limits, s, e))
    ensures forall i :: 0 <= i < RESOURCES ==> s.peak[i] <= After(limits, s, e).peak[i]
  {
    var s' := After(limits, s, e);
    if e.c in s.calls && Holds(s.calls[e.c], s.calls[e.c].resource) {
      assert e.c in Holders(s.calls, s.calls[e.c].resource);
    }
    EventMovesOneSlot(limits, s, e);
    ClaimsStayBelowLimit(limits, s, e);
    PeakOnlyRises(limits, s, e);
    forall i | 0 <= i < RESOURCES ensures s'.active[i] == |Holders(s'.calls, i)| <= limits[i] {
      HoldersAfter(s.calls, e.c, s'.calls[e.c], i);
    }
  }

  lemma {:induction false} RunKeepsInv(limits: seq<nat>, run: seq<State>, k: nat)
    requires IsRun(limits, run) && k < |run|
    ensures Inv(limits, run[k])
  {
    if k > 0 {
      RunKeepsInv(limits, run, k - 1);
      assert StepAt(limits, run, k - 1);
      var e: Event :| Possible(limits, run[k - 1], e) && run[k] == After(limits, run[k - 1], e);
      NextKeepsInv(limits, run[k - 1], e);
    } else {
      forall i | 0 <= i < RESOURCES ensures run[0].active[i] == |Holders(run[0].calls, i)| {
        assert Holders(run[0].calls, i) == {};
      }
    }
  }

  /** active[i] counts the claimed slots exactly, never exceeds its limit, and the next release
      or roll-back of any call never wraps below zero. */
  lemma {:induction false} ActiveCountsSlots(limits: seq<nat>, run: seq<State>, k: nat, i: nat)
    requires IsRun(limits, run) && k < |run| && i < RESOURCES
    ensures Shaped(run[k]) && run[k].active[i] == |Holders(run[k].calls, i)| <= limits[i]
    ensures forall c :: c in run[k].calls && Holds(run[k].calls[c], i) ==> run[k].active[i] > 0
  {
    RunKeepsInv(limits, run, k);
    forall c | c in run[k].calls && Holds(run[k].calls[c], i) ensures run[k].active[i] > 0 {
      assert c in Holders(run[k].calls, i);
    }
  }

  // ----- The peak --------------------------------------------------------------------------------

  function Max(a: nat, b: nat): nat {
    if a < b then b else a
  }

  /** The largest value active[i] has had in states 0 to k. */
  ghost function Highest(run: seq<State>, k: nat, i: nat): nat
    requires k < |run| && i < RESOURCES && forall m :: 0 <= m < |run| ==> |run[m].active| == RESOURCES
  {
    if k == 0 then run[0].active[i] else Max(Highest(run, k - 1, i), run[k].active[i])
  }

  ghost predicate AllShaped(run: seq<State>) {
    forall m :: 0 <= m < |run| ==> |run[m].active| == RESOURCES
  }

  lemma {:induction false} RunIsShaped(limits: seq<nat>, run: seq<State>)
    requires IsRun(limits, run)
    ensures AllShaped(run)
  {
    forall m | 0 <= m < |run| ensures |run[m].active| == RESOURCES {
      RunKeepsInv(limits, run, m);
    }
  }

  ghost predicate PeakFits(run: seq<State>, k: nat, i: nat)
    requires k < |run| && i < RESOURCES && AllShaped(run) && Shaped(run[k])
  {
    var s, highest := run[k], Highest(run, k, i);
    && s.peak[i] <= highest
    && (forall c :: c in s.calls && RaisesPeak(s.calls[c], i) ==> s.calls[c].pc.n + 1 <= highest)
    && (forall c :: c in s.calls && s.calls[c].resource == i && s.calls[c].pc.Raising? ==>
          s.calls[c].pc.high <= s.peak[i])
    && (s.peak[i] == highest || exists c :: c in s.calls && RaisesPeak(s.calls[c], i) && s.calls[c].pc.n + 1 == highest)
  }

  /** What one event of call c can do to active[i], peak[i] and the calls in the peak loop. */
  predicate PeakMove(s: State, s': State, c: CallId, i: nat)
    requires i < |s.active| && i < |s'.active| && i < |s.peak| && i < |s'.peak| && c in s'.calls
  {
    var call := s'.calls[c];
    var raised := c in s.calls && RaisesPeak(s.calls[c], i);
    && s.peak[i] <= s'.peak[i]
    && (s'.active[i] > s.active[i] ==> s'.active[i] == s.active[i] + 1 && call == Call(i, Claimed(s.active[i])))
    && (s'.peak[i] > s.peak[i] ==> raised && s'.peak[i] == s.calls[c].pc.n + 1)
    && (raised ==> s'.peak[i] >= s.calls[c].pc.n + 1 || (RaisesPeak(call, i) && call.pc.n == s.calls[c].pc.n))
    && (RaisesPeak(call, i) ==> (raised && call.pc.n == s.calls[c].pc.n) || s'.active[i] == call.pc.n + 1)
    && (call.resource == i && call.pc.Raising? ==> call.pc.high <= s'.peak[i])
  }

  lemma {:induction false} EventMovesPeak(limits: seq<nat>, s: State, e: Event, i: nat)
    requires Inv(limits, s) && Possible(limits, s, e) && i < RESOURCES
    requires e.c in s.calls && s.calls[e.c].resource == i && s.calls[e.c].pc.Raising? ==>
               s.calls[e.c].pc.high <= s.peak[i]
    ensures PeakMove(s, After(limits, s, e), e.c, i)
  {
    if e.c in s.calls && Holds(s.calls[e.c], s.calls[e.c].resource) {
      assert e.c in Holders(s.calls, s.calls[e.c].resource);
    }
  }

  lemma {:induction false} NextKeepsPeak(limits: seq<nat>, run: seq<State>, k: nat, i: nat, e: Event)
    requires 0 < k < |run| && i < RESOURCES && AllShaped(run)
    requires Inv(limits, run[k - 1]) && PeakFits(run, k - 1, i)
    requires Possible(limits, run[k - 1], e) && run[k] == After(limits, run[k - 1], e)
    ensures Shaped(run[k]) && PeakFits(run, k, i)
  {
    var s, s' := run[k - 1], run[k];
    NextKeepsInv(limits, s, e);
    EventMovesPeak(limits, s, e, i);
    EventChangesOneCall(limits, s, e);
    PeakFitsAfter(run, k, i, e.c);
  }

  lemma {:induction false} EventChangesOneCall(limits: seq<nat>, s: State, e: Event)
    requires ValidLimits(limits) && Shaped(s) && Possible(limits, s, e)
    ensures var s' := After(limits, s, e); e.c in s'.calls && s'.calls == s.calls[e.c := s'.calls[e.c]]
  {
  }

  lemma {:induction false} PeakFitsAfter(run: seq<State>, k: nat, i: nat, c: CallId)
    requires 0 < k < |run| && i < RESOURCES && AllShaped(run)
    requires Shaped(run[k - 1]) && Shaped(run[k]) && PeakFits(run, k - 1, i)
    requires c in run[k].calls && run[k].calls == run[k - 1].calls[c := run[k].calls[c]]
    requires PeakMove(run[k - 1], run[k], c, i)
    ensures PeakFits(run, k, i)
  {
    var s, s' := run[k - 1], run[k];
    var before, highest := Highest(run, k - 1, i), Highest(run, k, i);
    HighestCovers(run, k - 1, i);
    if s'.peak[i] != highest {
      if s'.active[i] > before {
        assert RaisesPeak(s'.calls[c], i) && s'.calls[c].pc.n + 1 == highest;
      } else {
        var d :| d in s.calls && RaisesPeak(s.calls[d], i) && s.calls[d].pc.n + 1 == before;
        assert d in s'.calls && RaisesPeak(s'.calls[d], i) && s'.calls[d].pc.n + 1 == highest;
      }
    }
  }

  lemma {:induction false} HighestCovers(run: seq<State>, k: nat, i: nat)
    requires k < |run| && i < RESOURCES && AllShaped(run)
    ensures run[k].active[i] <= Highest(run, k, i)
  {
  }

  lemma {:induction false} RunKeepsPeak(limits: seq<nat>, run: seq<State>, k: nat, i: nat)
    requires IsRun(limits, run) && k < |run| && i < RESOURCES && AllShaped(run)
    ensures Shaped(run[k]) && PeakFits(run, k, i)
    ensures k > 0 ==> Shaped(run[k - 1]) && run[k - 1].peak[i] <= run[k].peak[i]
  {
    RunKeepsInv(limits, run, k);
    if k > 0 {
      RunKeepsPeak(limits, run, k - 1, i);
      RunKeepsInv(limits, run, k - 1);
      assert StepAt(limits, run, k - 1);
      var e: Event :| Possible(limits, run[k - 1], e) && run[k] == After(limits, run[k - 1], e);
      NextKeepsInv(limits, run[k - 1], e);
      NextKeepsPeak(limits, run, k, i, e);
    }
  }

  lemma {:induction false} HighestIsMaximum(run: seq<State>, k: nat, i: nat)
    requires k < |run| && i < RESOURCES && AllShaped(run)
    ensures forall m :: 0 <= m <= k ==> run[m].active[i] <= Highest(run, k, i)
    ensures exists m :: 0 <= m <= k && run[m].active[i] == Highest(run, k, i)
  {
    if k > 0 {
      HighestIsMaximum(run, k - 1, i);
      if run[k].active[i] < Highest(run, k - 1, i) {
        var m :| 0 <= m <= k - 1 && run[m].active[i] == Highest(run, k - 1, i);
        assert run[m].active[i] == Highest(run, k, i);
      } else {
        assert run[k].active[i] == Highest(run, k, i);
      }
    } else {
      assert run[0].active[i] == Highest(run, 0, i);
    }
  }

  /** The high-water mark never exceeds the limit, and is never more than active[i] has been;
      while no call is on its way through the peak loop it is exactly the largest value that
      active[i] ever had. */
  lemma {:induction false} PeakIsHighWaterMark(limits: seq<nat>, run: seq<State>, k: nat, i: nat)
    requires IsRun(limits, run) && k < |run| && i < RESOURCES
    ensures AllShaped(run) && |run[k].peak| == RESOURCES
    ensures run[k].peak[i] <= limits[i]
    ensures exists m :: 0 <= m <= k && run[k].peak[i] <= run[m].active[i]
    ensures (forall c :: c in run[k].calls ==> !RaisesPeak(run[k].calls[c], i)) ==>
              && (forall m :: 0 <= m <= k ==> run[m].active[i] <= run[k].peak[i])
              && (exists m :: 0 <= m <= k && run[m].active[i] == run[k].peak[i])
  {
    RunIsShaped(limits, run);
    RunKeepsPeak(limits, run, k, i);
    HighestIsMaximum(run, k, i);
    var m :| 0 <= m <= k && run[m].active[i] == Highest(run, k, i);
    RunKeepsInv(limits, run, m);
    assert run[k].peak[i] <= run[m].active[i];
  }

  lemma {:induction false} PeakNeverDrops(limits: seq<nat>, run: seq<State>, j: nat, k: nat, i: nat)
    requires IsRun(limits, run) && j <= k < |run| && i < RESOURCES
    ensures Shaped(run[j]) && Shaped(run[k]) && run[j].peak[i] <= run[k].peak[i]
  {
    RunIsShaped(limits, run);
    RunKeepsPeak(limits, run, k, i);
    if j < k {
      PeakNeverDrops(limits, run, j, k - 1, i);
    }
  }

  // ----- Rejections ------------------------------------------------------------------------------

  /** In state j call c was running, and active[i] had the value n. */
  predicate SawActive(run: seq<State>, c: CallId, i: nat, n: nat, j: nat, k: nat)
    requires k < |run|
  {
    && j <= k
    && c in run[j].calls && run[j].calls[c] == Call(i, Comparing(n))
    && i < |run[j].active| && run[j].active[i] == n
  }

  /** A call that starts to compare, or compares a new value, has just seen that value. */
  lemma {:induction false} ComparesWhatItSaw(limits: seq<nat>, s: State, e: Event, c: CallId)
    requires ValidLimits(limits) && Shaped(s) && Possible(limits, s, e)
    requires c in After(limits, s, e).calls && After(limits, s, e).calls[c].pc.Comparing?
    ensures var s' := After(limits, s, e);
            || (c in s.calls && s.calls[c] == s'.calls[c])
            || s'.active[s'.calls[c].resource] == s'.calls[c].pc.n
  {
  }

  lemma {:induction false} ComparedValueWasSeen(limits: seq<nat>, run: seq<State>, k: nat, c: CallId)
    requires IsRun(limits, run) && k < |run|
    requires c in run[k].calls && run[k].calls[c].pc.Comparing?
    ensures exists j :: SawActive(run, c, run[k].calls[c].resource, run[k].calls[c].pc.n, j, k)
  {
    assert k > 0;
    RunKeepsInv(limits, run, k);
    assert StepAt(limits, run, k - 1);
    var e: Event :| Possible(limits, run[k - 1], e) && run[k] == After(limits, run[k - 1], e);
    ComparesWhatItSaw(limits, run[k - 1], e, c);
    var i, n := run[k].calls[c].resource, run[k].calls[c].pc.n;
    if c in run[k - 1].calls && run[k - 1].calls[c] == run[k].calls[c] {
      ComparedValueWasSeen(limits, run, k - 1, c);
      var j :| SawActive(run, c, i, n, j, k - 1);
      assert SawActive(run, c, i, n, j, k);
    } else {
      assert SawActive(run, c, i, n, k, k);
    }
  }

  lemma {:induction false} RejectedAtLimit(limits: seq<nat>, s: State, e: Event, c: CallId)
    requires ValidLimits(limits) && Shaped(s) && Possible(limits, s, e)
    requires c in After(limits, s, e).calls && After(limits, s, e).calls[c].pc.Rejected?
    ensures c in s.calls && s.calls[c].resource == After(limits, s, e).calls[c].resource
    ensures s.calls[c].pc.Rejected? || (s.calls[c].pc.Comparing? && s.calls[c].pc.n >= limits[s.calls[c].resource])
  {
  }

  /** An empty result means that all permits were taken at some instant during that very call. */
  lemma {:induction false} RejectionSawFullBulkhead(limits: seq<nat>, run: seq<State>, k: nat, c: CallId)
    returns (j: nat)
    requires IsRun(limits, run) && k < |run|
    requires c in run[k].calls && run[k].calls[c].pc.Rejected?
    ensures j <= k && Shaped(run[j]) && run[k].calls[c].resource < RESOURCES
    ensures c in run[j].calls && run[j].calls[c].pc.Comparing?
    ensures run[j].active[run[k].calls[c].resource] == limits[run[k].calls[c].resource]
  {
    assert k > 0;
    assert StepAt(limits, run, k - 1);
    var e: Event :| Possible(limits, run[k - 1], e) && run[k] == After(limits, run[k - 1], e);
    RejectedAtLimit(limits, run[k - 1], e, c);
    if run[k - 1].calls[c].pc.Rejected? {
      j := RejectionSawFullBulkhead(limits, run, k - 1, c);
    } else {
      ComparedValueWasSeen(limits, run, k - 1, c);
      var i := run[k].calls[c].resource;
      j :| SawActive(run, c, i, run[k - 1].calls[c].pc.n, j, k - 1);
      ActiveCountsSlots(limits, run, j, i);
    }
  }

  // ----- Answers ---------------------------------------------------------------------------------

  predicate EventAt(limits: seq<nat>, run: seq<State>, events: seq<Event>, k: int)
    requires ValidLimits(limits) && 0 <= k < |events| < |run|
  {
    Shaped(run[k]) && Possible(limits, run[k], events[k]) && run[k + 1] == After(limits, run[k], events[k])
  }

  /** A run together with the events that drove it. */
  ghost predicate IsHistory(limits: seq<nat>, run: seq<State>, events: seq<Event>) {
    && ValidLimits(limits)
    && |run| == |events| + 1 && run[0] == IDLE
    && forall k :: 0 <= k < |events| ==> EventAt(limits, run, events, k)
  }

  predicate Occurred(events: seq<Event>, e: Event, n: nat)
    requires n <= |events|
  {
    exists m :: 0 <= m < n && events[m] == e
  }

  /** Where a call stands is what has happened to it: it holds or has held a permit exactly if its
      allocation succeeded, it throws exactly if the allocation failed, and it is rejected exactly
      if it took the rejecting branch. */
  ghost predicate OutcomeFits(s: State, events: seq<Event>, n: nat, c: CallId)
    requires n <= |events|
  {
    && (c in s.calls && s.calls[c].pc in {Live, Released} <==> Occurred(events, Allocate(c, true), n))
    && (c in s.calls && s.calls[c].pc in {RollingBack, Threw} <==> Occurred(events, Allocate(c, false), n))
    && (c in s.calls && s.calls[c].pc.Threw? <==> Occurred(events, RollBack(c), n))
    && (c in s.calls && s.calls[c].pc.Released? <==> Occurred(events, Release(c), n))
    && (c in s.calls && s.calls[c].pc.Rejected? <==> Occurred(events, Reject(c), n))
  }

  lemma {:induction false} OccurredStep(events: seq<Event>, e: Event, n: nat)
    requires n < |events|
    ensures Occurred(events, e, n + 1) <==> Occurred(events, e, n) || events[n] == e
  {
  }

  lemma {:induction false} OutcomeAfter(limits: seq<nat>, s: State, events: seq<Event>, n: nat, c: CallId)
    requires ValidLimits(limits) && Shaped(s) && n < |events| && Possible(limits, s, events[n])
    requires OutcomeFits(s, events, n, c)
    ensures OutcomeFits(After(limits, s, events[n]), events, n + 1, c)
  {
    OccurredStep(events, Allocate(c, true), n);
    OccurredStep(events, Allocate(c, false), n);
    OccurredStep(events, RollBack(c), n);
    OccurredStep(events, Release(c), n);
    OccurredStep(events, Reject(c), n);
  }

  lemma {:induction false} OutcomeIsWhatHappened(
      limits: seq<nat>, run: seq<State>, events: seq<Event>, k: nat, c: CallId)
    requires IsHistory(limits, run, events) && k < |run|
    ensures OutcomeFits(run[k], events, k, c)
  {
    if k > 0 {
      OutcomeIsWhatHappened(limits, run, events, k - 1, c);
      assert EventAt(limits, run, events, k - 1);
      OutcomeAfter(limits, run[k - 1], events, k - 1, c);
    }
  }

  predicate Finished(pc: Pc) {
    pc.Threw? || pc.Rejected? || pc.Released?
  }

  ghost predicate CanProceed(limits: seq<nat>, s: State, c: CallId)
    requires ValidLimits(limits) && Shaped(s)
  {
    exists e: Event :: e.c == c && !e.Enter? && Possible(limits, s, e)
  }

  /** A call that is not over always has a step of its own; a comparing call is rejected or tries
      the exchange, never both; a finished call has none. */
  lemma {:induction false} NoCallIsStuck(limits: seq<nat>, s: State, c: CallId)
    requires ValidLimits(limits) && Shaped(s) && c in s.calls
    ensures CanProceed(limits, s, c) <==> !Finished(s.calls[c].pc)
    ensures s.calls[c].pc.Comparing? ==>
              (Possible(limits, s, Reject(c)) <==> !Possible(limits, s, CompareExchange(c, false)))
  {
    var pc := s.calls[c].pc;
    assert pc.Entered? ==> Possible(limits, s, LoadActive(c));
    assert pc.Comparing? ==> Possible(limits, s, Reject(c)) || Possible(limits, s, CompareExchange(c, false));
    assert pc.Claimed? ==> Possible(limits, s, LoadPeak(c));
    assert pc.Raising? ==> Possible(limits, s, RaisePeak(c, false)) || Possible(limits, s, LeavePeakLoop(c));
    assert pc.Allocating? ==> Possible(limits, s, Allocate(c, true));
    assert pc.RollingBack? ==> Possible(limits, s, RollBack(c));
    assert pc.Live? ==> Possible(limits, s, Release(c));
  }

  lemma {:induction false} Extend(limits: seq<nat>, run: seq<State>, e: Event) returns (run': seq<State>)
    requires IsRun(limits, run) && Shaped(run[|run| - 1]) && Possible(limits, run[|run| - 1], e)
    ensures IsRun(limits, run') && run' == run + [After(limits, run[|run| - 1], e)] && Shaped(run'[|run'| - 1])
  {
    run' := run + [After(limits, run[|run| - 1], e)];
    forall k | 0 <= k < |run'| - 1 ensures StepAt(limits, run', k) {
      if k == |run| - 1 {
        assert Possible(limits, run'[k], e) && run'[k + 1] == After(limits, run'[k], e);
      } else {
        assert StepAt(limits, run, k);
      }
    }
  }

  lemma {:induction false} UndisturbedClaim(limits: seq<nat>, run: seq<State>, c: CallId, i: nat)
    returns (run': seq<State>)
    requires IsRun(limits, run) && c !in run[|run| - 1].calls && i < RESOURCES
    requires Inv(limits, run[|run| - 1]) && run[|run| - 1].active[i] < limits[i]
    ensures IsRun(limits, run') && run <= run' && Shaped(run'[|run'| - 1])
    ensures var s := run[|run| - 1];
            run'[|run'| - 1] == s.(active := s.active[i := s.active[i] + 1],
                                   calls := s.calls[c := Call(i, Claimed(s.active[i]))])
  {
    run' := Extend(limits, run, Enter(c, i));
    run' := Extend(limits, run', LoadActive(c));
    run' := Extend(limits, run', CompareExchange(c, false));
  }

  lemma {:induction false} UndisturbedRejection(limits: seq<nat>, run: seq<State>, c: CallId, i: nat)
    returns (run': seq<State>)
    requires IsRun(limits, run) && c !in run[|run| - 1].calls && i < RESOURCES
    requires Inv(limits, run[|run| - 1]) && run[|run| - 1].active[i] >= limits[i]
    ensures IsRun(limits, run') && run <= run' && Shaped(run'[|run'| - 1])
    ensures var s := run[|run| - 1]; run'[|run'| - 1] == s.(calls := s.calls[c := Call(i, Rejected)])
  {
    run' := Extend(limits, run, Enter(c, i));
    run' := Extend(limits, run', LoadActive(c));
    run' := Extend(limits, run', Reject(c));
  }

  lemma {:induction false} UndisturbedRaise(limits: seq<nat>, run: seq<State>, c: CallId, i: nat)
    returns (run': seq<State>)
    requires IsRun(limits, run) && Inv(limits, run[|run| - 1])
    requires c in run[|run| - 1].calls && run[|run| - 1].calls[c].resource == i && run[|run| - 1].calls[c].pc.Claimed?
    ensures IsRun(limits, run') && run <= run' && i < RESOURCES && Shaped(run'[|run'| - 1])
    ensures var s := run[|run| - 1];
            run'[|run'| - 1] == s.(peak := s.peak[i := Max(s.peak[i], s.calls[c].pc.n + 1)],
                                   calls := s.calls[c := Call(i, Allocating)])
  {
    var s := run[|run| - 1];
    run' := Extend(limits, run, LoadPeak(c));
    if s.peak[i] < s.calls[c].pc.n + 1 {
      run' := Extend(limits, run', RaisePeak(c, false));
    } else {
      run' := Extend(limits, run', LeavePeakLoop(c));
    }
  }

  /** From any reachable state, an acquire that nobody disturbs and whose allocation succeeds gets a
      permit if a slot is free, raising the peak if it has to, and is rejected otherwise. */
  lemma {:induction false} UndisturbedAcquire(limits: seq<nat>, run: seq<State>, c: CallId, i: nat)
    returns (run': seq<State>)
    requires IsRun(limits, run) && c !in run[|run| - 1].calls && i < RESOURCES
    ensures IsRun(limits, run') && run <= run'
    ensures var s, s' := run[|run| - 1], run'[|run'| - 1];
            && Shaped(s) && Shaped(s') && c in s'.calls
            && if s.active[i] < limits[i]
               then s'.calls[c] == Call(i, Live)
                    && s'.active == s.active[i := s.active[i] + 1]
                    && s'.peak == s.peak[i := Max(s.peak[i], s.active[i] + 1)]
               else s'.calls[c] == Call(i, Rejected) && s'.active == s.active && s'.peak == s.peak
  {
    var s := run[|run| - 1];
    RunKeepsInv(limits, run, |run| - 1);
    if s.active[i] < limits[i] {
      run' := UndisturbedClaim(limits, run, c, i);
      RunKeepsInv(limits, run', |run'| - 1);
      run' := UndisturbedRaise(limits, run', c, i);
      run' := Extend(limits, run', Allocate(c, true));
    } else {
      run' := UndisturbedRejection(limits, run, c, i);
    }
  }
}
