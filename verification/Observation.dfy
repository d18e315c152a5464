/** Lifetime tracking of asynchronous work: a map of pending observations, a multiset of their
    start times kept beside it so that the oldest is found at once, and the high-water mark. */
module Observation {
  import opened Counting

  /** Clock ticks of the steady clock. */
  type Time = int
  type Id = nat

  datatype Outcome = Success | Empty | Failed | Timeout | Abandoned

  /** What the sink receives. */
  datatype Report = Report(
    pending: nat, highWater: nat, oldest: int, elapsed: int, outcome: Outcome, completed: bool)

  datatype Completion = Completion(id: Id, elapsed: int, outcome: Outcome)

  /** `completions` lists what was published as completed, in order. */
  datatype Series = Series(
    pending: map<Id, Time>, starts: multiset<Time>, sequence: nat, highWater: nat,
    completions: seq<Completion>)

  const FRESH_SERIES := Series(map[], multiset{}, 0, 0, [])

  // ----- The operations, as functions ---------------------------------------------------------------

  function Max(a: nat, b: nat): nat {
    if a < b then b else a
  }

  function Begin(s: Series, now: Time): Series {
    var pending := s.pending[s.sequence + 1 := now];
    s.(sequence := s.sequence + 1, pending := pending, starts := s.starts + multiset{now},
       highWater := Max(s.highWater, |pending|))
  }

  function Finish(s: Series, id: Id, now: Time, outcome: Outcome): Series {
    if id !in s.pending then
      s
    else
      var start := s.pending[id];
      s.(pending := s.pending - {id}, starts := s.starts - multiset{start},
         completions := s.completions + [Completion(id, now - start, outcome)])
  }

  datatype Op =
    | OpBegin(now: Time)
    | OpFinish(id: Id, now: Time, outcome: Outcome)
    | OpSample(now: Time)

  function Apply(s: Series, op: Op): Series {
    match op
    case OpBegin(now) => Begin(s, now)
    case OpFinish(id, now, outcome) => Finish(s, id, now, outcome)
    case OpSample(_) => s
  }

  /** The state after the first n operations. */
  function Run(ops: seq<Op>, n: nat): Series
    requires n <= |ops|
  {
    if n == 0 then FRESH_SERIES else Apply(Run(ops, n - 1), ops[n - 1])
  }

  // ----- Map and multiset agree -----------------------------------------------------------------------

  function StartedAt(pending: map<Id, Time>, t: Time): set<Id> {
    set id | id in pending && pending[id] == t
  }

  ghost predicate Agrees(pending: map<Id, Time>, starts: multiset<Time>) {
    forall t: Time :: starts[t] == |StartedAt(pending, t)|
  }

  ghost predicate Inv(s: Series) {
    Agrees(s.pending, s.starts) && Accounted(s)
  }

  /** Every id handed out is pending or has been completed once. */
  ghost predicate Accounted(s: Series) {
    && (forall id :: id in s.pending ==> 1 <= id <= s.sequence)
    && |s.pending| <= s.highWater
    && (forall k :: 0 <= k < |s.completions| ==>
          1 <= s.completions[k].id <= s.sequence && s.completions[k].id !in s.pending)
    && (forall j, k :: 0 <= j < k < |s.completions| ==> s.completions[j].id != s.completions[k].id)
    && (forall id :: 1 <= id <= s.sequence ==> id in s.pending || Completed(s, id))
  }

  predicate Completed(s: Series, id: Id) {
    exists k :: 0 <= k < |s.completions| && s.completions[k].id == id
  }

  lemma {:induction false} BeginAgrees(s: Series, now: Time)
    requires Agrees(s.pending, s.starts) && s.sequence + 1 !in s.pending
    ensures Agrees(Begin(s, now).pending, Begin(s, now).starts)
  {
    var id, s' := s.sequence + 1, Begin(s, now);
    forall t: Time ensures s'.starts[t] == |StartedAt(s'.pending, t)| {
      var a, b := StartedAt(s.pending, t), StartedAt(s'.pending, t);
      assert a - {id} == b - {id};
      CountWithout(a, b, id);
    }
  }

  lemma {:induction false} FinishAgrees(s: Series, id: Id, now: Time, outcome: Outcome)
    requires Agrees(s.pending, s.starts) && id in s.pending
    ensures s.pending[id] in s.starts
    ensures Agrees(Finish(s, id, now, outcome).pending, Finish(s, id, now, outcome).starts)
  {
    var s' := Finish(s, id, now, outcome);
    assert id in StartedAt(s.pending, s.pending[id]);
    forall t: Time ensures s'.starts[t] == |StartedAt(s'.pending, t)| {
      var a, b := StartedAt(s.pending, t), StartedAt(s'.pending, t);
      assert a - {id} == b - {id};
      CountWithout(a, b, id);
    }
  }

  lemma {:induction false} BeginAccounts(s: Series, now: Time)
    requires Accounted(s)
    ensures Accounted(Begin(s, now))
  {
    var s' := Begin(s, now);
    forall id | 1 <= id <= s'.sequence ensures id in s'.pending || Completed(s', id) {
      if id <= s.sequence && id !in s.pending {
        assert Completed(s, id);
      }
    }
  }

  lemma {:induction false} CompletionsAfter(s: Series, id: Id, now: Time, outcome: Outcome, other: Id)
    requires id in s.pending
    ensures Completed(s, other) || other == id ==> Completed(Finish(s, id, now, outcome), other)
  {
    var s' := Finish(s, id, now, outcome);
    if Completed(s, other) {
      var k :| 0 <= k < |s.completions| && s.completions[k].id == other;
      assert s'.completions[k].id == other;
    }
    assert s'.completions[|s.completions|].id == id;
  }

  lemma {:induction false} FinishAccounts(s: Series, id: Id, now: Time, outcome: Outcome)
    requires Accounted(s) && id in s.pending
    ensures Accounted(Finish(s, id, now, outcome))
    ensures |Finish(s, id, now, outcome).pending| < |s.pending|
  {
    var s' := Finish(s, id, now, outcome);
    assert s'.pending.Keys == s.pending.Keys - {id};
    assert |s'.pending| == |s'.pending.Keys| == |s.pending.Keys| - 1;
    forall other | 1 <= other <= s'.sequence ensures other in s'.pending || Completed(s', other) {
      CompletionsAfter(s, id, now, outcome, other);
    }
  }

  lemma {:induction false} ApplyKeepsInv(s: Series, op: Op)
    requires Inv(s)
    ensures Inv(Apply(s, op))
  {
    match op
    case OpBegin(now) =>
      BeginAgrees(s, now);
      BeginAccounts(s, now);
    case OpFinish(id, now, outcome) =>
      if id in s.pending {
        FinishAgrees(s, id, now, outcome);
        FinishAccounts(s, id, now, outcome);
      }
    case OpSample(_) =>
  }

  lemma {:induction false} FreshInv()
    ensures Inv(FRESH_SERIES)
  {
    assert forall t: Time :: StartedAt(map[], t) == {};
  }

  lemma {:induction false} RunKeepsInv(ops: seq<Op>, n: nat)
    requires n <= |ops|
    ensures Inv(Run(ops, n))
  {
    if n == 0 {
      FreshInv();
    } else {
      RunKeepsInv(ops, n - 1);
      ApplyKeepsInv(Run(ops, n - 1), ops[n - 1]);
    }
  }

  /** The largest number of pending observations there has been within the first n operations. */
  ghost function LargestPending(ops: seq<Op>, n: nat): nat
    requires n <= |ops|
  {
    if n == 0 then 0 else Max(LargestPending(ops, n - 1), |Run(ops, n).pending|)
  }

  lemma {:induction false} PendingIsBelowLargest(ops: seq<Op>, m: nat, n: nat)
    requires m <= n <= |ops|
    ensures |Run(ops, m).pending| <= LargestPending(ops, n)
  {
    if m < n {
      PendingIsBelowLargest(ops, m, n - 1);
    }
  }

  /** That many were pending at some moment, and never more. */
  lemma {:induction false} LargestPendingIsMaximum(ops: seq<Op>, n: nat) returns (m: nat)
    requires n <= |ops|
    ensures m <= n && |Run(ops, m).pending| == LargestPending(ops, n)
    ensures forall k :: 0 <= k <= n ==> |Run(ops, k).pending| <= LargestPending(ops, n)
  {
    if n == 0 || |Run(ops, n).pending| == LargestPending(ops, n) {
      m := n;
    } else {
      m := LargestPendingIsMaximum(ops, n - 1);
    }
    forall k | 0 <= k <= n ensures |Run(ops, k).pending| <= LargestPending(ops, n) {
      PendingIsBelowLargest(ops, k, n);
    }
  }

  /** After any operations the high-water mark is the largest pending count ever. */
  lemma {:induction false} HighWaterIsLargestPending(ops: seq<Op>, n: nat)
    requires n <= |ops|
    ensures Run(ops, n).highWater == LargestPending(ops, n)
  {
    if n > 0 {
      var op, s := ops[n - 1], Run(ops, n - 1);
      HighWaterIsLargestPending(ops, n - 1);
      RunKeepsInv(ops, n - 1);
      if op.OpFinish? && op.id in s.pending {
        FinishAccounts(s, op.id, op.now, op.outcome);
      }
    }
  }

  /** Every observation is completed at most once, and none is lost: each id handed out is pending
      or completed, and never both. */
  lemma {:induction false} CompletedExactlyOnce(ops: seq<Op>, n: nat, id: Id)
    requires n <= |ops| && 1 <= id <= Run(ops, n).sequence
    ensures id in Run(ops, n).pending <==> !Completed(Run(ops, n), id)
    ensures var done := Run(ops, n).completions;
            forall j, k :: 0 <= j < |done| && 0 <= k < |done| && done[j].id == id == done[k].id ==> j == k
  {
    RunKeepsInv(ops, n);
  }

  // ----- The oldest observation -----------------------------------------------------------------------

  ghost predicate IsOldestAge(pending: map<Id, Time>, now: Time, age: int) {
    if pending == map[] then
      age == 0
    else
      && (exists id :: id in pending && now - pending[id] == age)
      && (forall id :: id in pending ==> now - pending[id] <= age)
  }

  lemma {:induction false} AgreesOnMembers(pending: map<Id, Time>, starts: multiset<Time>)
    requires Agrees(pending, starts)
    ensures forall id :: id in pending ==> pending[id] in starts
    ensures forall t :: t in starts ==> exists id :: id in pending && pending[id] == t
    ensures starts == multiset{} <==> pending == map[]
  {
    forall id | id in pending ensures pending[id] in starts {
      assert id in StartedAt(pending, pending[id]);
    }
    forall t | t in starts ensures exists id :: id in pending && pending[id] == t {
      assert |StartedAt(pending, t)| > 0;
      var id :| id in StartedAt(pending, t);
    }
    if pending != map[] {
      var id :| id in pending;
      assert pending[id] in starts;
    } else {
      assert forall t: Time :: StartedAt(pending, t) == {};
    }
  }

  lemma {:induction false} SmallestExists(starts: multiset<Time>) returns (smallest: Time)
    requires starts != multiset{}
    ensures smallest in starts && forall t :: t in starts ==> smallest <= t
    decreases |starts|
  {
    assert (forall t :: t !in starts) ==> starts == multiset{};
    var t :| t in starts;
    var rest := starts - multiset{t};
    if rest == multiset{} {
      smallest := t;
      assert forall u :: u in starts ==> u == t || u in rest;
    } else {
      smallest := SmallestExists(rest);
      assert forall u :: u in starts ==> u == t || u in rest;
      if t < smallest {
        smallest := t;
      }
    }
  }

  // ----- What the sink receives -------------------------------------------------------------------------

  /** Elapsed time and outcome of the reports that announce a completion. */
  function CompletedReports(reports: seq<Report>): seq<(int, Outcome)> {
    if reports == [] then []
    else
      var r := reports[|reports| - 1];
      CompletedReports(reports[..|reports| - 1]) + if r.completed then [(r.elapsed, r.outcome)] else []
  }

  function Announced(completions: seq<Completion>): (announced: seq<(int, Outcome)>)
    ensures |announced| == |completions|
  {
    seq(|completions|, k requires 0 <= k < |completions| => (completions[k].elapsed, completions[k].outcome))
  }

  lemma {:induction false} CompletedReportsAppend(reports: seq<Report>, r: Report)
    ensures CompletedReports(reports + [r])
         == CompletedReports(reports) + if r.completed then [(r.elapsed, r.outcome)] else []
  {
    assert (reports + [r])[..|reports|] == reports;
  }

  lemma {:induction false} AnnouncedAppend(completions: seq<Completion>, c: Completion)
    ensures Announced(completions + [c]) == Announced(completions) + [(c.elapsed, c.outcome)]
  {
  }

  /** Exactly one report is new; it carries the given values and the true oldest age. */
  ghost predicate Published(before: seq<Report>, after: seq<Report>, pending: map<Id, Time>, highWater: nat,
                            now: Time, elapsed: int, outcome: Outcome, completed: bool)
  {
    && |after| == |before| + 1
    && var r := after[|before|];
       && after == before + [r]
       && r == Report(|pending|, highWater, r.oldest, elapsed, outcome, completed)
       && IsOldestAge(pending, now, r.oldest)
  }

  function IdsOf(completions: seq<Completion>): set<Id> {
    set k | 0 <= k < |completions| :: completions[k].id
  }

  lemma {:induction false} DistinctIds(completions: seq<Completion>)
    requires forall j, k :: 0 <= j < k < |completions| ==> completions[j].id != completions[k].id
    ensures |IdsOf(completions)| == |completions|
  {
    if completions != [] {
      var n := |completions| - 1;
      DistinctIds(completions[..n]);
      assert IdsOf(completions) == IdsOf(completions[..n]) + {completions[n].id};
    }
  }

  function FirstIds(n: nat): set<Id> {
    if n == 0 then {} else FirstIds(n - 1) + {n}
  }

  lemma {:induction false} CountFirstIds(n: nat)
    ensures |FirstIds(n)| == n
    ensures forall id :: id in FirstIds(n) <==> 1 <= id <= n
  {
    if n > 0 {
      CountFirstIds(n - 1);
    }
  }

  lemma {:induction false} SplitSet(a: set<Id>, b: set<Id>, c: set<Id>)
    requires forall id :: id in c <==> id in a || id in b
    requires forall id :: id in a ==> id !in b
    ensures |a| + |b| == |c|
  {
    assert a !! b && a + b == c;
  }

  /** The ids handed out are split between the pending ones and the completed ones. */
  lemma {:induction false} IdsAreSplit(s: Series)
    requires Accounted(s)
    ensures |s.completions| + |s.pending| == s.sequence
  {
    DistinctIds(s.completions);
    CountFirstIds(s.sequence);
    forall id ensures id in IdsOf(s.completions) <==> 1 <= id <= s.sequence && id !in s.pending {
      if 1 <= id <= s.sequence && id !in s.pending {
        assert Completed(s, id);
      }
    }
    SplitSet(IdsOf(s.completions), s.pending.Keys, FirstIds(s.sequence));
    assert |s.pending.Keys| == |s.pending|;
  }

  /** What has become of the observation that operation i began: it is pending with that operation's
      time, or one later finish completed it, with the time between the two as elapsed. */
  ghost predicate Timed(ops: seq<Op>, i: nat, n: nat)
    requires i < n <= |ops| && ops[i].OpBegin?
  {
    var id, s := Run(ops, i).sequence + 1, Run(ops, n);
    && id <= s.sequence
    && (id in s.pending ==> s.pending[id] == ops[i].now)
    && forall k :: 0 <= k < |s.completions| && s.completions[k].id == id ==> FinishedBy(ops, i, n, s.completions[k])
  }

  predicate FinishedBy(ops: seq<Op>, i: nat, n: nat, c: Completion)
    requires i < n <= |ops| && ops[i].OpBegin?
  {
    exists j :: i < j < n && ops[j].OpFinish? && c == Completion(ops[j].id, ops[j].now - ops[i].now, ops[j].outcome)
  }

  lemma {:induction false} TimedFirst(ops: seq<Op>, i: nat, next: nat)
    requires i < next == i + 1 <= |ops| && ops[i].OpBegin?
    ensures Timed(ops, i, next)
  {
    RunKeepsInv(ops, i);
  }

  lemma {:induction false} TimedNext(ops: seq<Op>, i: nat, n: nat, next: nat)
    requires i < n < next == n + 1 <= |ops| && ops[i].OpBegin? && Timed(ops, i, n)
    ensures Timed(ops, i, next)
  {
    var id, s, s' := Run(ops, i).sequence + 1, Run(ops, n), Run(ops, next);
    forall k | 0 <= k < |s'.completions| && s'.completions[k].id == id
      ensures FinishedBy(ops, i, next, s'.completions[k])
    {
      if k < |s.completions| {
        assert s'.completions[k] == s.completions[k];
        assert FinishedBy(ops, i, n, s.completions[k]);
      } else {
        assert ops[n].OpFinish? && s'.completions[k] == Completion(ops[n].id, ops[n].now - ops[i].now, ops[n].outcome);
      }
    }
  }

  /** In every run, a completed observation was finished after it began, and its elapsed time is
      what lies between the two. */
  lemma {:induction false} ElapsedIsBetween(ops: seq<Op>, i: nat, n: nat)
    requires i < n <= |ops| && ops[i].OpBegin?
    ensures Timed(ops, i, n)
  {
    if n == i + 1 {
      TimedFirst(ops, i, n);
    } else {
      ElapsedIsBetween(ops, i, n - 1);
      TimedNext(ops, i, n - 1, n);
    }
  }

  class ObservationSeries {
    var pending: map<Id, Time>
    var starts: multiset<Time>
    var sequence: nat
    var highWater: nat
    /** What the sink has received, latest last. */
    var reports: seq<Report>
    ghost var completions: seq<Completion>

    ghost function View(): Series
      reads this
    {
      Series(pending, starts, sequence, highWater, completions)
    }

    /** What the sink received as completed is what was completed, in order. */
    ghost predicate Valid()
      reads this
    {
      Inv(View()) && CompletedReports(reports) == Announced(completions)
    }

    constructor ()
      ensures Valid() && View() == FRESH_SERIES && reports == []
    {
      pending, starts, sequence, highWater, reports, completions := map[], multiset{}, 0, 0, [], [];
      new;
      FreshInv();
    }

    method Publish(now: Time, elapsed: int, outcome: Outcome, completed: bool)
      requires Agrees(pending, starts)
      modifies this`reports
      ensures Published(old(reports), reports, pending, highWater, now, elapsed, outcome, completed)
      ensures |reports| == |old(reports)| + 1 && reports[..|old(reports)|] == old(reports)
      ensures var r := reports[|old(reports)|];
              && r == Report(|pending|, highWater, r.oldest, elapsed, outcome, completed)
              && (|pending| == 0 ==> r.oldest == 0)
              && (forall id :: id in pending ==> now - pending[id] <= r.oldest)
              && (|pending| > 0 ==> exists id :: id in pending && now - pending[id] == r.oldest)
      ensures CompletedReports(reports)
           == CompletedReports(old(reports)) + if completed then [(elapsed, outcome)] else []
    {
      AgreesOnMembers(pending, starts);
      var oldest := 0;
      if starts != multiset{} {
        ghost var least := SmallestExists(starts);
        var smallest :| smallest in starts && forall t :: t in starts ==> smallest <= t;
        oldest := now - smallest;
      }
      CompletedReportsAppend(reports, Report(|pending|, highWater, oldest, elapsed, outcome, completed));
      reports := reports + [Report(|pending|, highWater, oldest, elapsed, outcome, completed)];
    }

    method BeginObservation(now: Time) returns (id: Id)
      requires Valid()
      modifies this
      ensures Valid() && View() == Begin(old(View()), now) && id == sequence == old(sequence) + 1
      ensures pending == old(pending)[id := now]
      ensures Published(old(reports), reports, pending, highWater, now, 0, Success, false)
    {
      ApplyKeepsInv(View(), OpBegin(now));
      sequence := sequence + 1;
      id := sequence;
      pending := pending[id := now];
      starts := starts + multiset{now};
      highWater := Max(highWater, |pending|);
      assert View() == Begin(old(View()), now);
      Publish(now, 0, Success, false);
    }

    method FinishObservation(id: Id, now: Time, outcome: Outcome)
      requires Valid()
      modifies this
      ensures Valid() && View() == Finish(old(View()), id, now, outcome)
      ensures id !in old(pending) ==> reports == old(reports)
      ensures id in old(pending) ==>
                Published(old(reports), reports, pending, highWater, now, now - old(pending)[id], outcome, true)
    {
      if id !in pending {
        return;
      }
      ApplyKeepsInv(View(), OpFinish(id, now, outcome));
      var start := pending[id];
      var elapsed := now - start;
      AnnouncedAppend(completions, Completion(id, elapsed, outcome));
      starts := starts - multiset{start};
      pending := pending - {id};
      completions := completions + [Completion(id, elapsed, outcome)];
      assert View() == Finish(old(View()), id, now, outcome);
      Publish(now, elapsed, outcome, true);
    }

    method Sample(now: Time)
      requires Valid()
      modifies this`reports
      ensures Valid()
      ensures Published(old(reports), reports, pending, highWater, now, 0, Success, false)
    {
      Publish(now, 0, Success, false);
    }

    /** Every observation ever begun is pending, or exactly one completed report is its own: the
        completed reports and the pending observations together are as many as were begun, and each
        finished one has its report, with its elapsed time and outcome. */
    lemma {:induction false} EachIsPublishedOnce()
      requires Valid()
      ensures |CompletedReports(reports)| == |completions| && |completions| + |pending| == sequence
      ensures forall id: Id :: 1 <= id <= sequence && id !in pending ==> PublishedAs(id)
      ensures forall k :: 0 <= k < |completions| ==>
                CompletedReports(reports)[k] == (completions[k].elapsed, completions[k].outcome)
    {
      IdsAreSplit(View());
      forall id: Id | 1 <= id <= sequence && id !in pending ensures PublishedAs(id) {
        assert Completed(View(), id);
      }
    }

    /** There is one completion of id, and the completed report at its place announces it. */
    ghost predicate PublishedAs(id: Id)
      reads this
    {
      exists k :: 0 <= k < |completions| && completions[k].id == id
        && (forall j :: 0 <= j < |completions| && completions[j].id == id ==> j == k)
        && k < |CompletedReports(reports)|
        && CompletedReports(reports)[k] == (completions[k].elapsed, completions[k].outcome)
    }
  }

  /** One observation; destroying it finishes it as abandoned. */
  class AsyncObservation {
    const series: ObservationSeries
    const id: Id
    var completed: bool

    ghost predicate Valid()
      reads this, series
    {
      series.Valid() && 1 <= id <= series.sequence && (completed <==> id !in series.pending)
    }

    constructor (series: ObservationSeries, now: Time)
      requires series.Valid()
      modifies series
      ensures Valid() && this.series == series && !completed && fresh(this)
      ensures series.View() == Begin(old(series.View()), now) && id == series.sequence
    {
      this.series := series;
      var begun := series.BeginObservation(now);
      this.id := begun;
      completed := false;
    }

    method Complete(outcome: Outcome, now: Time)
      requires Valid()
      modifies this, series
      ensures Valid() && completed
      ensures old(completed) ==> series.View() == old(series.View()) && series.reports == old(series.reports)
      ensures !old(completed) ==>
                && series.View() == Finish(old(series.View()), id, now, outcome)
                && series.View().completions
                     == old(series.View().completions) + [Completion(id, now - old(series.pending)[id], outcome)]
                && Published(old(series.reports), series.reports, series.pending, series.highWater,
                             now, now - old(series.pending)[id], outcome, true)
    {
      var was := completed;
      completed := true;
      if !was {
        series.FinishObservation(id, now, outcome);
      }
    }

    method Destroy(now: Time)
      requires Valid()
      modifies this, series
      ensures Valid() && completed
      ensures old(completed) ==> series.View() == old(series.View()) && series.reports == old(series.reports)
      ensures !old(completed) ==>
                && series.View() == Finish(old(series.View()), id, now, Abandoned)
                && Published(old(series.reports), series.reports, series.pending, series.highWater,
                             now, now - old(series.pending)[id], Abandoned, true)
    {
      Complete(Abandoned, now);
    }
  }

  // ----- One observation among others ------------------------------------------------------------------

  /** Calls of finish() on one observation, from any thread, among operations on the others. */
  datatype Event = Mine(outcome: Outcome, now: Time) | Theirs(op: Op)

  /** The state after the first n events. */
  function Observe(s: Series, id: Id, events: seq<Event>, n: nat): Series
    requires n <= |events|
  {
    if n == 0 then
      s
    else
      var before := Observe(s, id, events, n - 1);
      match events[n - 1]
      case Mine(outcome, now) => Finish(before, id, now, outcome)
      case Theirs(op) => Apply(before, op)
  }

  predicate Foreign(id: Id, events: seq<Event>) {
    forall k :: 0 <= k < |events| && events[k].Theirs? && events[k].op.OpFinish? ==> events[k].op.id != id
  }

  predicate NoneMine(events: seq<Event>, n: nat)
    requires n <= |events|
  {
    forall j :: 0 <= j < n ==> events[j].Theirs?
  }

  /** The observation was published with this outcome and is gone for good. */
  predicate FinishedAs(s: Series, id: Id, outcome: Outcome) {
    && id !in s.pending && id <= s.sequence
    && exists k :: 0 <= k < |s.completions| && s.completions[k].id == id && s.completions[k].outcome == outcome
  }

  lemma {:induction false} FinishedStays(s: Series, op: Op, id: Id, outcome: Outcome)
    requires FinishedAs(s, id, outcome)
    ensures FinishedAs(Apply(s, op), id, outcome)
  {
    var k :| 0 <= k < |s.completions| && s.completions[k].id == id && s.completions[k].outcome == outcome;
    assert Apply(s, op).completions[k] == s.completions[k];
  }

  lemma {:induction false} FinishDecides(s: Series, id: Id, now: Time, outcome: Outcome)
    requires id in s.pending && id <= s.sequence
    ensures FinishedAs(Finish(s, id, now, outcome), id, outcome)
  {
    assert Finish(s, id, now, outcome).completions[|s.completions|].id == id;
  }

  lemma {:induction false} UntouchedStaysPending(s: Series, id: Id, events: seq<Event>, n: nat)
    requires id in s.pending && id <= s.sequence && Foreign(id, events) && n <= |events| && NoneMine(events, n)
    ensures id in Observe(s, id, events, n).pending && id <= Observe(s, id, events, n).sequence
  {
    if n > 0 {
      UntouchedStaysPending(s, id, events, n - 1);
    }
  }

  /** The first finish() decides the published outcome; the destructor's Abandoned is published
      exactly when it comes first, that is when nobody finished the observation before. */
  lemma {:induction false} FirstFinishDecides(s: Series, id: Id, events: seq<Event>, k: nat, n: nat)
    requires id in s.pending && id <= s.sequence && Foreign(id, events)
    requires k < n <= |events| && events[k].Mine? && NoneMine(events, k)
    ensures FinishedAs(Observe(s, id, events, n), id, events[k].outcome)
    ensures id !in Observe(s, id, events, n).pending
    decreases n
  {
    var before, e := Observe(s, id, events, n - 1), events[n - 1];
    if k < n - 1 {
      FirstFinishDecides(s, id, events, k, n - 1);
      FinishedStays(before, if e.Mine? then OpFinish(id, e.now, e.outcome) else e.op, id, events[k].outcome);
    } else {
      UntouchedStaysPending(s, id, events, k);
      FinishDecides(before, id, e.now, e.outcome);
    }
  }
}
