/** Requests that take one slot of a bounded pool and are completed by callbacks: the permit of
    TrafficControl::wrap and the in-flight slot of the admission service's submit.

    Any number of threads may complete the same request any number of times, in any order; each
    event is one atomic access.  A pool whose slots are owned by an object (`owned`) gives a slot
    back when that object is destroyed; the in-flight counter of submit does not. */
module Completion {
  import opened Wrappers
  import opened Counting

  type RequestId = nat
  type FireId = nat

  datatype Pool = Pool(limit: nat, owned: bool)

  /** The pool of submit, and the pool of a permit with the given limit. */
  const SUBMIT := Pool(4, false)

  function Wrap(limit: nat): Pool {
    Pool(limit, true)
  }

  const UINT_RANGE := 0x1_0000_0000

  datatype Slot = NoSlot | Held | Returned

  datatype Stage =
    | Arrived
    | Comparing(n: nat)
    | Refused
    | Claimed
    | Open
    | Unwound
    | Dropped

  /** `winner` is the completion that found the flag clear and set it. */
  datatype Request = Request(
    stage: Stage, slot: Slot, winner: Option<FireId>, replies: nat, releases: nat)

  datatype FirePc = Entered | Lost | Won | Freed | Done

  datatype Fire = Fire(request: RequestId, pc: FirePc)

  datatype State = State(inflight: nat, requests: map<RequestId, Request>, fires: map<FireId, Fire>)

  const IDLE := State(0, map[], map[])

  datatype Event =
    | Arrive(q: RequestId)
    | Load(q: RequestId)
    | Refuse(q: RequestId)
    | CompareExchange(q: RequestId, spurious: bool)
    | OpenRequest(q: RequestId)
    | AllocationFails(q: RequestId)
    | Drop(q: RequestId)
    | Complete(q: RequestId, f: FireId)
    | Exchange(q: RequestId, f: FireId)
    | Free(q: RequestId, f: FireId)
    | Deliver(q: RequestId, f: FireId)

  predicate Possible(pool: Pool, s: State, e: Event) {
    if e.Arrive? then
      e.q !in s.requests
    else
      && e.q in s.requests
      && var r := s.requests[e.q];
      match e
      case Arrive(_) => true
      case Load(_) => r.stage.Arrived?
      case Refuse(_) => r.stage.Comparing? && r.stage.n >= pool.limit
      case CompareExchange(_, _) => r.stage.Comparing? && r.stage.n < pool.limit
      case OpenRequest(_) => r.stage.Claimed?
      case AllocationFails(_) => r.stage.Claimed?
      case Drop(_) =>
        r.stage.Open? && forall f :: f in s.fires && s.fires[f].request == e.q ==> s.fires[f].pc in {Lost, Done}
      case Complete(_, f) => r.stage.Open? && f !in s.fires
      case Exchange(q, f) => f in s.fires && s.fires[f] == Fire(q, Entered)
      case Free(q, f) => f in s.fires && s.fires[f] == Fire(q, Won)
      case Deliver(q, f) => f in s.fires && s.fires[f] == Fire(q, Freed)
  }

  function Decrement(v: nat): nat {
    if v == 0 then UINT_RANGE - 1 else v - 1
  }

  /** Destroying the owner of a slot gives it back. */
  function GiveBack(r: Request): Request {
    r.(slot := Returned, releases := r.releases + 1)
  }

  function RequestAfter(pool: Pool, s: State, e: Event): Request
    requires Possible(pool, s, e)
  {
    if e.Arrive? then
      Request(Arrived, NoSlot, None, 0, 0)
    else
      var r := s.requests[e.q];
      match e
      case Arrive(_) => r
      case Load(_) => r.(stage := Comparing(s.inflight))
      case Refuse(_) => r.(stage := Refused, replies := r.replies + 1)
      case CompareExchange(_, spurious) =>
        if s.inflight == r.stage.n && !spurious
        then r.(stage := Claimed, slot := Held)
        else r.(stage := Comparing(s.inflight))
      case OpenRequest(_) => r.(stage := Open)
      case AllocationFails(_) => if pool.owned then GiveBack(r.(stage := Unwound)) else r.(stage := Unwound)
      case Drop(_) => if pool.owned && r.slot == Held then GiveBack(r.(stage := Dropped)) else r.(stage := Dropped)
      case Complete(_, _) => r
      case Exchange(_, f) => if r.winner.None? then r.(winner := Some(f)) else r
      case Free(_, _) => GiveBack(r)
      case Deliver(_, _) => r.(replies := r.replies + 1)
  }

  function FiresAfter(pool: Pool, s: State, e: Event): map<FireId, Fire>
    requires Possible(pool, s, e)
  {
    match e
    case Complete(q, f) => s.fires[f := Fire(q, Entered)]
    case Exchange(q, f) => s.fires[f := Fire(q, if s.requests[q].winner.None? then Won else Lost)]
    case Free(q, f) => s.fires[f := Fire(q, Freed)]
    case Deliver(q, f) => s.fires[f := Fire(q, Done)]
    case _ => s.fires
  }

  function After(pool: Pool, s: State, e: Event): State
    requires Possible(pool, s, e)
  {
    var r' := RequestAfter(pool, s, e);
    var inflight :=
      if e.CompareExchange? && r'.stage.Claimed? then (s.inflight + 1) % UINT_RANGE
      else if e.q in s.requests && r'.slot == Returned && s.requests[e.q].slot == Held then Decrement(s.inflight)
      else s.inflight;
    State(inflight, s.requests[e.q := r'], FiresAfter(pool, s, e))
  }

  ghost predicate Next(pool: Pool, s: State, s': State) {
    exists e: Event :: Possible(pool, s, e) && s' == After(pool, s, e)
  }

  ghost predicate StepAt(pool: Pool, run: seq<State>, k: int)
    requires 0 <= k < |run| - 1
  {
    Next(pool, run[k], run[k + 1])
  }

  ghost predicate IsRun(pool: Pool, run: seq<State>) {
    && pool.limit < UINT_RANGE
    && |run| > 0
    && run[0] == IDLE
    && forall k :: 0 <= k < |run| - 1 ==> StepAt(pool, run, k)
  }

  // ----- The invariant ----------------------------------------------------------------------------

  function Holders(requests: map<RequestId, Request>): set<RequestId> {
    set q | q in requests && requests[q].slot == Held
  }

  /** How far the winning completion has come determines slot, releases and replies. */
  predicate WonFits(r: Request, pc: FirePc) {
    match pc
    case Won => r.slot == Held && r.releases == 0 && r.replies == 0 && r.stage.Open?
    case Freed => r.slot == Returned && r.releases == 1 && r.replies == 0 && r.stage.Open?
    case Done => r.slot == Returned && r.releases == 1 && r.replies == 1 && (r.stage.Open? || r.stage.Dropped?)
    case _ => false
  }

  predicate UnwonFits(pool: Pool, r: Request) {
    match r.stage
    case Arrived => r.slot == NoSlot && r.releases == 0 && r.replies == 0
    case Comparing(_) => r.slot == NoSlot && r.releases == 0 && r.replies == 0
    case Refused => r.slot == NoSlot && r.releases == 0 && r.replies == 1
    case Claimed => r.slot == Held && r.releases == 0 && r.replies == 0
    case Open => r.slot == Held && r.releases == 0 && r.replies == 0
    case _ =>
      && r.replies == 0
      && if pool.owned then r.slot == Returned && r.releases == 1 else r.slot == Held && r.releases == 0
  }

  predicate RequestFits(pool: Pool, s: State, q: RequestId)
    requires q in s.requests
  {
    var r := s.requests[q];
    if r.winner.Some? then
      r.winner.value in s.fires && s.fires[r.winner.value].request == q && WonFits(r, s.fires[r.winner.value].pc)
    else
      UnwonFits(pool, r)
  }

  predicate FireFits(s: State, f: FireId)
    requires f in s.fires
  {
    var fire := s.fires[f];
    && fire.request in s.requests
    && (fire.pc in {Won, Freed, Done} ==> s.requests[fire.request].winner == Some(f))
    && (fire.pc == Lost ==> s.requests[fire.request].winner.Some?)
    && (fire.pc == Entered ==> s.requests[fire.request].stage.Open? && s.requests[fire.request].winner != Some(f))
  }

  ghost predicate Inv(pool: Pool, s: State) {
    && s.inflight == |Holders(s.requests)| <= pool.limit < UINT_RANGE
    && (forall q :: q in s.requests ==> RequestFits(pool, s, q))
    && (forall f :: f in s.fires ==> FireFits(s, f))
  }

  lemma {:induction false} HoldersAfter(requests: map<RequestId, Request>, q: RequestId, r: Request)
    ensures |Holders(requests[q := r])| - (if r.slot == Held then 1 else 0)
            == |Holders(requests)| - (if q in requests && requests[q].slot == Held then 1 else 0)
  {
    var a, b := Holders(requests), Holders(requests[q := r]);
    assert forall d :: d != q ==> (d in a <==> d in b);
    CountWithout(a, b, q);
  }

  lemma {:induction false} CountKept(pool: Pool, s: State, e: Event)
    requires Inv(pool, s) && Possible(pool, s, e)
    ensures var s' := After(pool, s, e); s'.inflight == |Holders(s'.requests)| <= pool.limit
  {
    HoldersAfter(s.requests, e.q, RequestAfter(pool, s, e));
    if !e.Arrive? {
      assert RequestFits(pool, s, e.q);
      if s.requests[e.q].slot == Held {
        assert e.q in Holders(s.requests);
      }
      if e.Free? {
        assert FireFits(s, e.f);
      }
    }
  }

  lemma {:induction false} SteppedRequestFits(pool: Pool, s: State, e: Event)
    requires Inv(pool, s) && Possible(pool, s, e)
    ensures RequestFits(pool, After(pool, s, e), e.q)
  {
    if !e.Arrive? {
      assert RequestFits(pool, s, e.q);
      var r := s.requests[e.q];
      if r.winner.Some? {
        assert FireFits(s, r.winner.value);
      }
      if e.Free? || e.Deliver? || e.Exchange? {
        assert FireFits(s, e.f);
      }
    }
  }

  lemma {:induction false} FiresFit(pool: Pool, s: State, e: Event, f: FireId)
    requires Inv(pool, s) && Possible(pool, s, e) && f in After(pool, s, e).fires
    ensures FireFits(After(pool, s, e), f)
  {
    if f in s.fires {
      assert FireFits(s, f);
      assert RequestFits(pool, s, s.fires[f].request);
    }
    if !e.Arrive? {
      assert RequestFits(pool, s, e.q);
    }
  }

  lemma {:induction false} NextKeepsInv(pool: Pool, s: State, e: Event)
    requires Inv(pool, s) && Possible(pool, s, e)
    ensures Inv(pool, After(pool, s, e))
  {
    var s' := After(pool, s, e);
    CountKept(pool, s, e);
    forall q | q in s'.requests ensures RequestFits(pool, s', q) {
      if q == e.q {
        SteppedRequestFits(pool, s, e);
      } else {
        assert RequestFits(pool, s, q);
        var w := s.requests[q].winner;
        if w.Some? {
          assert FireFits(s, w.value);
        }
      }
    }
    forall f | f in s'.fires ensures FireFits(s', f) {
      FiresFit(pool, s, e, f);
    }
  }

  lemma {:induction false} RunKeepsInv(pool: Pool, run: seq<State>, k: nat)
    requires IsRun(pool, run) && k < |run|
    ensures Inv(pool, run[k])
  {
    if k > 0 {
      RunKeepsInv(pool, run, k - 1);
      assert StepAt(pool, run, k - 1);
      var e: Event :| Possible(pool, run[k - 1], e) && run[k] == After(pool, run[k - 1], e);
      NextKeepsInv(pool, run[k - 1], e);
    } else {
      assert Holders(run[0].requests) == {};
    }
  }

  // ----- What callers rely on ------------------------------------------------------------------------

  /** Accepted and not finished: the slot is claimed and no completion has freed it yet. */
  predicate Unfinished(r: Request) {
    (r.stage.Claimed? || r.stage.Open?) && r.slot != Returned
  }

  /** A slot that nothing will ever give back. */
  predicate Leaked(r: Request) {
    (r.stage.Unwound? || r.stage.Dropped?) && r.slot == Held
  }

  /** At most one reply, at most one release, and the release comes first: whoever got a reply
      other than an immediate refusal has had the slot returned before, exactly once. */
  lemma {:induction false} RepliesAndReleasesAtMostOnce(pool: Pool, run: seq<State>, k: nat, q: RequestId)
    requires IsRun(pool, run) && k < |run| && q in run[k].requests
    ensures var r := run[k].requests[q];
            && r.replies <= 1 && r.releases <= 1
            && (r.releases == 1 <==> r.slot == Returned)
            && (r.replies == 1 ==> (r.stage.Refused? && r.slot == NoSlot) || r.releases == 1)
  {
    RunKeepsInv(pool, run, k);
    assert RequestFits(pool, run[k], q);
  }

  /** A completion that finds the flag set changes nothing, and only one finds it clear. */
  lemma {:induction false} OneCompletionWins(pool: Pool, run: seq<State>, k: nat, f: FireId, g: FireId)
    requires IsRun(pool, run) && k < |run| && f in run[k].fires && g in run[k].fires
    requires run[k].fires[f].request == run[k].fires[g].request
    requires run[k].fires[f].pc in {Won, Freed, Done} && run[k].fires[g].pc in {Won, Freed, Done}
    ensures f == g
  {
    RunKeepsInv(pool, run, k);
    assert FireFits(run[k], f) && FireFits(run[k], g);
  }

  function UnfinishedRequests(requests: map<RequestId, Request>): set<RequestId> {
    set q | q in requests && Unfinished(requests[q])
  }

  function LeakedRequests(requests: map<RequestId, Request>): set<RequestId> {
    set q | q in requests && Leaked(requests[q])
  }

  /** The counter is the number of accepted but unfinished requests plus the leaked slots, and
      stays within the limit; slots with an owner never leak. */
  lemma {:induction false} InflightCounts(pool: Pool, run: seq<State>, k: nat)
    requires IsRun(pool, run) && k < |run|
    ensures var requests := run[k].requests;
            && run[k].inflight == |UnfinishedRequests(requests)| + |LeakedRequests(requests)| <= pool.limit
            && (pool.owned ==> LeakedRequests(requests) == {})
  {
    RunKeepsInv(pool, run, k);
    var requests := run[k].requests;
    forall q | q in requests
      ensures requests[q].slot == Held <==> Unfinished(requests[q]) || Leaked(requests[q])
      ensures pool.owned ==> !Leaked(requests[q])
    {
      assert RequestFits(pool, run[k], q);
    }
    assert Holders(requests) == UnfinishedRequests(requests) + LeakedRequests(requests);
    assert UnfinishedRequests(requests) !! LeakedRequests(requests);
  }

  // ----- Where slots are lost --------------------------------------------------------------------------

  predicate EventAt(pool: Pool, run: seq<State>, events: seq<Event>, k: int)
    requires 0 <= k < |events| < |run|
  {
    Possible(pool, run[k], events[k]) && run[k + 1] == After(pool, run[k], events[k])
  }

  /** A run together with the events that drove it. */
  ghost predicate IsHistory(pool: Pool, run: seq<State>, events: seq<Event>) {
    && pool.limit < UINT_RANGE
    && |run| == |events| + 1 && run[0] == IDLE
    && forall k :: 0 <= k < |events| ==> EventAt(pool, run, events, k)
  }

  lemma {:induction false} HistoryIsRun(pool: Pool, run: seq<State>, events: seq<Event>)
    requires IsHistory(pool, run, events)
    ensures IsRun(pool, run)
  {
    forall k | 0 <= k < |run| - 1 ensures StepAt(pool, run, k) {
      assert EventAt(pool, run, events, k);
    }
  }

  /** Some completion of q has found the flag clear among the first n events: the first to look. */
  predicate Completing(events: seq<Event>, q: RequestId, n: nat)
    requires n <= |events|
  {
    exists i :: 0 <= i < n && events[i].Exchange? && events[i].q == q
  }

  /** Event j loses the slot of q: an allocation fails behind the claim, or the completion is
      destroyed before anybody called it. */
  predicate Loses(events: seq<Event>, q: RequestId, j: nat)
    requires j < |events|
  {
    events[j] == AllocationFails(q) || (events[j] == Drop(q) && !Completing(events, q, j))
  }

  predicate LostBy(events: seq<Event>, q: RequestId, n: nat)
    requires n <= |events|
  {
    exists j: nat :: j < n && Loses(events, q, j)
  }

  predicate HasWinner(s: State, q: RequestId) {
    q in s.requests && s.requests[q].winner.Some?
  }

  lemma {:induction false} WinnerAfter(pool: Pool, s: State, events: seq<Event>, n: nat, q: RequestId)
    requires n < |events| && Possible(pool, s, events[n])
    requires HasWinner(s, q) <==> Completing(events, q, n)
    ensures HasWinner(After(pool, s, events[n]), q) <==> Completing(events, q, n + 1)
  {
  }

  lemma {:induction false} WinnerIffCompleting(pool: Pool, run: seq<State>, events: seq<Event>, k: nat, q: RequestId)
    requires IsHistory(pool, run, events) && k < |run|
    ensures HasWinner(run[k], q) <==> Completing(events, q, k)
  {
    if k > 0 {
      WinnerIffCompleting(pool, run, events, k - 1, q);
      assert EventAt(pool, run, events, k - 1);
      WinnerAfter(pool, run[k - 1], events, k - 1, q);
    }
  }

  predicate LeakedIn(s: State, q: RequestId) {
    q in s.requests && Leaked(s.requests[q])
  }

  /** The event loses the slot of q. */
  predicate LosesSlot(pool: Pool, s: State, e: Event, q: RequestId) {
    !pool.owned && (e == AllocationFails(q) || (e == Drop(q) && !HasWinner(s, q)))
  }

  lemma {:induction false} LeakedAfter(pool: Pool, s: State, e: Event, q: RequestId)
    requires Inv(pool, s) && Possible(pool, s, e)
    ensures LeakedIn(After(pool, s, e), q) <==> LeakedIn(s, q) || LosesSlot(pool, s, e, q)
  {
    if q in s.requests {
      assert RequestFits(pool, s, q);
      if e.Exchange? || e.Free? || e.Deliver? {
        assert FireFits(s, e.f);
      }
      var w := s.requests[q].winner;
      if w.Some? {
        assert FireFits(s, w.value);
      }
    }
  }

  lemma {:induction false} LostByAfter(events: seq<Event>, q: RequestId, n: nat)
    requires n < |events|
    ensures LostBy(events, q, n + 1) <==> LostBy(events, q, n) || Loses(events, q, n)
  {
  }

  lemma {:induction false} LeakedStep(pool: Pool, run: seq<State>, events: seq<Event>, k: nat, q: RequestId)
    requires IsHistory(pool, run, events) && k < |events|
    ensures LeakedIn(run[k + 1], q) <==> LeakedIn(run[k], q) || (!pool.owned && Loses(events, q, k))
  {
    HistoryIsRun(pool, run, events);
    RunKeepsInv(pool, run, k);
    assert EventAt(pool, run, events, k);
    LeakedAfter(pool, run[k], events[k], q);
    WinnerIffCompleting(pool, run, events, k, q);
  }

  /** A slot is leaked exactly when its pool has no owners and an allocation failed behind the
      claim or the completion was destroyed before anybody called it. */
  lemma {:induction false} LeakedIffLost(pool: Pool, run: seq<State>, events: seq<Event>, k: nat, q: RequestId)
    requires IsHistory(pool, run, events) && k < |run|
    ensures LeakedIn(run[k], q) <==> !pool.owned && LostBy(events, q, k)
  {
    if k > 0 {
      LeakedIffLost(pool, run, events, k - 1, q);
      LeakedStep(pool, run, events, k - 1, q);
      LostByAfter(events, q, k - 1);
    }
  }

  /** The counter of submit is the number of unfinished requests exactly as long as no event has
      lost a slot. */
  lemma {:induction false} InflightExactIffNothingLost(run: seq<State>, events: seq<Event>, k: nat)
    requires IsHistory(SUBMIT, run, events) && k < |run|
    ensures run[k].inflight == |UnfinishedRequests(run[k].requests)| <==> forall q :: !LostBy(events, q, k)
  {
    HistoryIsRun(SUBMIT, run, events);
    InflightCounts(SUBMIT, run, k);
    var leaked := LeakedRequests(run[k].requests);
    forall q ensures q in leaked <==> LostBy(events, q, k) {
      LeakedIffLost(SUBMIT, run, events, k, q);
    }
    assert |leaked| == 0 <==> leaked == {};
  }

  /** A permit of wrap() has an owner and never leaks. */
  lemma {:induction false} WrapNeverLeaks(limit: nat, run: seq<State>, k: nat)
    requires IsRun(Wrap(limit), run) && k < |run|
    ensures run[k].inflight == |UnfinishedRequests(run[k].requests)| <= limit
  {
    InflightCounts(Wrap(limit), run, k);
  }

  lemma {:induction false} LeakedStays(pool: Pool, s: State, e: Event, q: RequestId)
    requires Inv(pool, s) && Possible(pool, s, e) && LeakedIn(s, q)
    ensures q in After(pool, s, e).requests && After(pool, s, e).requests[q] == s.requests[q] && !pool.owned
  {
    assert RequestFits(pool, s, q);
    if e.Exchange? || e.Free? || e.Deliver? {
      assert FireFits(s, e.f);
    }
  }

  /** Once a claimed slot was lost, it stays lost: no later event of submit gives it back. */
  lemma {:induction false} LeakedForever(pool: Pool, run: seq<State>, j: nat, k: nat, q: RequestId)
    requires IsRun(pool, run) && j <= k < |run| && LeakedIn(run[j], q)
    ensures q in run[k].requests && run[k].requests[q] == run[j].requests[q]
    decreases k
  {
    if j < k {
      LeakedForever(pool, run, j, k - 1, q);
      RunKeepsInv(pool, run, k - 1);
      assert StepAt(pool, run, k - 1);
      var e: Event :| Possible(pool, run[k - 1], e) && run[k] == After(pool, run[k - 1], e);
      LeakedStays(pool, run[k - 1], e, q);
    }
  }

  /** The concrete run: submit claims a slot and an allocation fails before its completion exists.
      The counter stays at 1 although no request is unfinished. */
  lemma {:induction false} SubmitCanLeak() returns (run: seq<State>)
    ensures IsRun(SUBMIT, run)
    ensures run[|run| - 1].inflight == 1
    ensures UnfinishedRequests(run[|run| - 1].requests) == {} && LeakedRequests(run[|run| - 1].requests) == {0}
  {
    var s1 := After(SUBMIT, IDLE, Arrive(0));
    var s2 := After(SUBMIT, s1, Load(0));
    var s3 := After(SUBMIT, s2, CompareExchange(0, false));
    var s4 := After(SUBMIT, s3, AllocationFails(0));
    run := [IDLE, s1, s2, s3, s4];
    assert Possible(SUBMIT, IDLE, Arrive(0)) && Possible(SUBMIT, s1, Load(0));
    assert Possible(SUBMIT, s2, CompareExchange(0, false)) && Possible(SUBMIT, s3, AllocationFails(0));
  }

  // ----- When requests are refused ---------------------------------------------------------------------

  /** In state j request q was being compared, and the counter had the value n. */
  predicate SawInflight(run: seq<State>, q: RequestId, n: nat, j: nat, k: nat)
    requires k < |run|
  {
    j <= k && q in run[j].requests && run[j].requests[q].stage == Comparing(n) && run[j].inflight == n
  }

  /** A request that starts to compare, or compares a new value, has just seen that value; one that
      is refused has compared a value at the limit. */
  lemma {:induction false} ComparesWhatItSaw(pool: Pool, s: State, e: Event, q: RequestId)
    requires Possible(pool, s, e) && q in After(pool, s, e).requests
    ensures var s' := After(pool, s, e);
            && (s'.requests[q].stage.Comparing? ==>
                  || (q in s.requests && s.requests[q].stage == s'.requests[q].stage)
                  || s'.inflight == s'.requests[q].stage.n)
            && (s'.requests[q].stage.Refused? ==>
                  && q in s.requests
                  && (s.requests[q].stage.Refused?
                      || (s.requests[q].stage.Comparing? && s.requests[q].stage.n >= pool.limit)))
  {
  }

  lemma {:induction false} ComparedValueWasSeen(pool: Pool, run: seq<State>, k: nat, q: RequestId)
    requires IsRun(pool, run) && k < |run|
    requires q in run[k].requests && run[k].requests[q].stage.Comparing?
    ensures exists j :: SawInflight(run, q, run[k].requests[q].stage.n, j, k)
  {
    assert k > 0;
    assert StepAt(pool, run, k - 1);
    var e: Event :| Possible(pool, run[k - 1], e) && run[k] == After(pool, run[k - 1], e);
    ComparesWhatItSaw(pool, run[k - 1], e, q);
    var n := run[k].requests[q].stage.n;
    if q in run[k - 1].requests && run[k - 1].requests[q].stage == run[k].requests[q].stage {
      ComparedValueWasSeen(pool, run, k - 1, q);
      var j :| SawInflight(run, q, n, j, k - 1);
      assert SawInflight(run, q, n, j, k);
    } else {
      assert SawInflight(run, q, n, k, k);
    }
  }

  /** A refused request saw every slot of the pool taken, at an instant between its arrival and
      its refusal. */
  lemma {:induction false} RefusalSawFullPool(pool: Pool, run: seq<State>, k: nat, q: RequestId) returns (j: nat)
    requires IsRun(pool, run) && k < |run|
    requires q in run[k].requests && run[k].requests[q].stage.Refused?
    ensures j < k && q in run[j].requests && run[j].requests[q].stage.Comparing?
    ensures run[j].inflight == pool.limit
  {
    assert k > 0;
    assert StepAt(pool, run, k - 1);
    var e: Event :| Possible(pool, run[k - 1], e) && run[k] == After(pool, run[k - 1], e);
    ComparesWhatItSaw(pool, run[k - 1], e, q);
    if run[k - 1].requests[q].stage.Refused? {
      j := RefusalSawFullPool(pool, run, k - 1, q);
    } else {
      ComparedValueWasSeen(pool, run, k - 1, q);
      j :| SawInflight(run, q, run[k - 1].requests[q].stage.n, j, k - 1);
      RunKeepsInv(pool, run, j);
    }
  }

  /** submit refuses only a request that saw four slots taken. */
  lemma {:induction false} SubmitRefusesAtFour(run: seq<State>, k: nat, q: RequestId) returns (j: nat)
    requires IsRun(SUBMIT, run) && k < |run|
    requires q in run[k].requests && run[k].requests[q].stage.Refused?
    ensures j < k && q in run[j].requests && run[j].requests[q].stage.Comparing?
    ensures 4 == run[j].inflight == |UnfinishedRequests(run[j].requests)| + |LeakedRequests(run[j].requests)|
  {
    j := RefusalSawFullPool(SUBMIT, run, k, q);
    InflightCounts(SUBMIT, run, j);
  }

  predicate RequestProceeds(pool: Pool, s: State, q: RequestId) {
    || Possible(pool, s, Load(q)) || Possible(pool, s, Refuse(q)) || Possible(pool, s, CompareExchange(q, false))
    || Possible(pool, s, OpenRequest(q))
  }

  /** A request that is not open yet always has a step of its own; a comparing one is refused or
      tries the exchange, never both; an open one can always be completed once more. */
  lemma {:induction false} NoRequestIsStuck(pool: Pool, s: State, q: RequestId, f: FireId)
    requires q in s.requests && f !in s.fires
    ensures var stage := s.requests[q].stage;
            && (RequestProceeds(pool, s, q) <==> stage.Arrived? || stage.Comparing? || stage.Claimed?)
            && (stage.Comparing? ==>
                  (Possible(pool, s, Refuse(q)) <==> !Possible(pool, s, CompareExchange(q, false))))
            && (Possible(pool, s, Complete(q, f)) <==> stage.Open?)
  {
  }

  /** A completion that has started always goes on to its end, where the request has been answered
      once and its slot returned once, by this completion or by the one that won. */
  lemma {:induction false} CompletionsFinish(pool: Pool, run: seq<State>, k: nat, f: FireId)
    requires IsRun(pool, run) && k < |run| && f in run[k].fires
    ensures run[k].fires[f].request in run[k].requests
    ensures var s, q := run[k], run[k].fires[f].request;
            match s.fires[f].pc
            case Entered => Possible(pool, s, Exchange(q, f))
            case Won => Possible(pool, s, Free(q, f)) && s.requests[q].winner == Some(f)
            case Freed => Possible(pool, s, Deliver(q, f)) && s.requests[q].releases == 1
            case Done => s.requests[q].winner == Some(f) && s.requests[q].releases == 1 && s.requests[q].replies == 1
            case Lost => s.requests[q].winner.Some? && s.requests[q].winner != Some(f)
  {
    RunKeepsInv(pool, run, k);
    assert FireFits(run[k], f);
    assert RequestFits(pool, run[k], run[k].fires[f].request);
  }

  lemma {:induction false} Extend(pool: Pool, run: seq<State>, e: Event) returns (run': seq<State>)
    requires IsRun(pool, run) && Possible(pool, run[|run| - 1], e)
    ensures IsRun(pool, run') && run' == run + [After(pool, run[|run| - 1], e)]
  {
    run' := run + [After(pool, run[|run| - 1], e)];
    forall k | 0 <= k < |run'| - 1 ensures StepAt(pool, run', k) {
      if k == |run| - 1 {
        assert Possible(pool, run'[k], e) && run'[k + 1] == After(pool, run'[k], e);
      } else {
        assert StepAt(pool, run, k);
      }
    }
  }

  /** From any reachable state, a request that nobody disturbs is accepted if the counter is below
      the limit, and refused with its one reply otherwise. */
  lemma {:induction false} UndisturbedRequest(pool: Pool, run: seq<State>, q: RequestId) returns (run': seq<State>)
    requires IsRun(pool, run) && q !in run[|run| - 1].requests
    ensures IsRun(pool, run') && run <= run'
    ensures var s, s' := run[|run| - 1], run'[|run'| - 1];
            && s'.fires == s.fires
            && if s.inflight < pool.limit
               then && s'.requests == s.requests[q := Request(Open, Held, None, 0, 0)]
                    && s'.inflight == s.inflight + 1
               else && s'.requests == s.requests[q := Request(Refused, NoSlot, None, 1, 0)]
                    && s'.inflight == s.inflight
  {
    var s := run[|run| - 1];
    run' := Extend(pool, run, Arrive(q));
    run' := Extend(pool, run', Load(q));
    if s.inflight < pool.limit {
      run' := Extend(pool, run', CompareExchange(q, false));
      run' := Extend(pool, run', OpenRequest(q));
    } else {
      run' := Extend(pool, run', Refuse(q));
    }
  }

  lemma {:induction false} UndisturbedClaim(pool: Pool, run: seq<State>, q: RequestId, f: FireId)
    returns (run': seq<State>)
    requires IsRun(pool, run) && f !in run[|run| - 1].fires
    requires q in run[|run| - 1].requests
    requires run[|run| - 1].requests[q].stage.Open? && run[|run| - 1].requests[q].winner.None?
    ensures IsRun(pool, run') && run <= run'
    ensures var s, s' := run[|run| - 1], run'[|run'| - 1];
            && s'.inflight == s.inflight
            && s'.requests == s.requests[q := s.requests[q].(winner := Some(f))]
            && s'.fires == s.fires[f := Fire(q, Won)]
  {
    run' := Extend(pool, run, Complete(q, f));
    run' := Extend(pool, run', Exchange(q, f));
  }

  lemma {:induction false} UndisturbedFinish(pool: Pool, run: seq<State>, q: RequestId, f: FireId)
    returns (run': seq<State>)
    requires IsRun(pool, run) && f in run[|run| - 1].fires && run[|run| - 1].fires[f] == Fire(q, Won)
    requires q in run[|run| - 1].requests
    requires run[|run| - 1].requests[q] == Request(Open, Held, Some(f), 0, 0) && run[|run| - 1].inflight > 0
    ensures IsRun(pool, run') && run <= run'
    ensures var s, s' := run[|run| - 1], run'[|run'| - 1];
            && s'.inflight == s.inflight - 1
            && s'.requests == s.requests[q := Request(Open, Returned, Some(f), 1, 1)]
            && s'.fires == s.fires[f := Fire(q, Done)]
  {
    run' := Extend(pool, run, Free(q, f));
    run' := Extend(pool, run', Deliver(q, f));
  }

  /** From any reachable state, the first completion of an open request gives its slot back and
      delivers its one reply. */
  lemma {:induction false} UndisturbedCompletion(pool: Pool, run: seq<State>, q: RequestId, f: FireId)
    returns (run': seq<State>)
    requires IsRun(pool, run) && f !in run[|run| - 1].fires
    requires q in run[|run| - 1].requests
    requires run[|run| - 1].requests[q].stage.Open? && run[|run| - 1].requests[q].winner.None?
    ensures IsRun(pool, run') && run <= run'
    ensures var s, s' := run[|run| - 1], run'[|run'| - 1];
            && s'.inflight == s.inflight - 1
            && s'.requests == s.requests[q := Request(Open, Returned, Some(f), 1, 1)]
            && s'.fires == s.fires[f := Fire(q, Done)]
  {
    RunKeepsInv(pool, run, |run| - 1);
    assert RequestFits(pool, run[|run| - 1], q);
    assert q in Holders(run[|run| - 1].requests);
    run' := UndisturbedClaim(pool, run, q, f);
    run' := UndisturbedFinish(pool, run', q, f);
  }

  predicate NeverCompleted(s: State, q: RequestId) {
    forall f :: f in s.fires ==> s.fires[f].request != q
  }

  /** Destroying an open request that no completion ever reached gives its slot back exactly if the
      slot has an owner, and answers nobody. */
  lemma {:induction false} UncalledRequestIsDropped(pool: Pool, run: seq<State>, q: RequestId)
    requires IsRun(pool, run) && q in run[|run| - 1].requests && run[|run| - 1].requests[q].stage.Open?
    requires NeverCompleted(run[|run| - 1], q)
    ensures Possible(pool, run[|run| - 1], Drop(q))
    ensures var s, s' := run[|run| - 1], After(pool, run[|run| - 1], Drop(q));
            && s'.inflight == (if pool.owned then s.inflight - 1 else s.inflight)
            && s'.requests[q].replies == 0
            && (s'.requests[q].releases == 1 <==> pool.owned)
  {
    RunKeepsInv(pool, run, |run| - 1);
    assert RequestFits(pool, run[|run| - 1], q);
    assert q in Holders(run[|run| - 1].requests);
  }

  /** The concrete run: submit has four requests in flight at once, and refuses the fifth. */
  lemma {:induction false} SubmitHoldsFour() returns (run: seq<State>)
    ensures IsRun(SUBMIT, run)
    ensures UnfinishedRequests(run[|run| - 1].requests) == {0, 1, 2, 3}
    ensures 4 in run[|run| - 1].requests && run[|run| - 1].requests[4].stage.Refused?
  {
    run := UndisturbedRequest(SUBMIT, [IDLE], 0);
    run := UndisturbedRequest(SUBMIT, run, 1);
    run := UndisturbedRequest(SUBMIT, run, 2);
    run := UndisturbedRequest(SUBMIT, run, 3);
    run := UndisturbedRequest(SUBMIT, run, 4);
  }
}
