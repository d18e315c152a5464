/** The online load plan: ramp and hold phases, the users that enter in them, the refreshes they
    cause, and the scenarios that let them in. */
module LoadPlan {
  import opened Wrappers

  datatype Stage = Stage(users: int, ramp: int, hold: int)

  /** `before` users are online when the phase starts and `users` when it ends. */
  datatype Phase = Phase(start: int, duration: int, before: int, users: int, refreshes: real)

  function EnterCount(p: Phase): int {
    p.users - p.before
  }

  /** The area under a population that goes linearly from a to b. */
  function Trapezoid(a: int, b: int, duration: int): real {
    (a + b) as real / 2.0 * duration as real
  }

  // ----- The plan --------------------------------------------------------------------------------

  /** When the first k phases are over, and how many users they leave online. */
  function EndAt(plan: seq<Phase>, k: int): int
    requires 0 <= k <= |plan|
  {
    if k == 0 then 0 else plan[k - 1].start + plan[k - 1].duration
  }

  function UsersAt(plan: seq<Phase>, k: int): int
    requires 0 <= k <= |plan|
  {
    if k == 0 then 0 else plan[k - 1].users
  }

  /** Phase k starts when, and with as many users as, the one before it ended. */
  predicate ChainedAt(plan: seq<Phase>, k: int)
    requires 0 <= k < |plan|
  {
    plan[k].start == EndAt(plan, k) && plan[k].before == UsersAt(plan, k)
  }

  predicate Chained(plan: seq<Phase>) {
    forall k :: 0 <= k < |plan| ==> ChainedAt(plan, k)
  }

  /** Phase 2k climbs to the users of stage k during its ramp, phase 2k + 1 keeps them during its hold. */
  predicate StageAt(stages: seq<Stage>, plan: seq<Phase>, k: int)
    requires 0 <= k < |stages| && 2 * k + 1 < |plan|
  {
    && plan[2 * k].duration == stages[k].ramp && plan[2 * k].users == stages[k].users
    && plan[2 * k + 1].duration == stages[k].hold && plan[2 * k + 1].users == stages[k].users
  }

  predicate FollowsStages(stages: seq<Stage>, plan: seq<Phase>, n: int)
    requires 0 <= n <= |stages|
  {
    |plan| == 2 * n && forall k :: 0 <= k < n ==> StageAt(stages, plan, k)
  }

  predicate RefreshesFit(plan: seq<Phase>, mean: real)
    requires mean > 0.0
  {
    forall k :: 0 <= k < |plan| ==>
      plan[k].refreshes == Trapezoid(plan[k].before, plan[k].users, plan[k].duration) / mean
  }

  lemma {:induction false} PlanGrows(plan: seq<Phase>, p: Phase, mean: real)
    requires mean > 0.0 && Chained(plan) && RefreshesFit(plan, mean)
    requires p.start == EndAt(plan, |plan|) && p.before == UsersAt(plan, |plan|)
    requires p.refreshes == Trapezoid(p.before, p.users, p.duration) / mean
    ensures Chained(plan + [p]) && RefreshesFit(plan + [p], mean)
  {
    forall k | 0 <= k < |plan + [p]| ensures ChainedAt(plan + [p], k) {
      if k < |plan| {
        assert ChainedAt(plan, k);
      }
    }
  }

  lemma {:induction false} StageGrows(stages: seq<Stage>, plan: seq<Phase>, n: int, p: Phase, q: Phase)
    requires 0 <= n < |stages| && FollowsStages(stages, plan, n)
    requires p.duration == stages[n].ramp && p.users == stages[n].users
    requires q.duration == stages[n].hold && q.users == stages[n].users
    ensures FollowsStages(stages, plan + [p] + [q], n + 1)
  {
    var longer := plan + [p] + [q];
    forall k | 0 <= k < n + 1 ensures StageAt(stages, longer, k) {
      if k < n {
        assert StageAt(stages, plan, k);
      }
    }
  }

  method OnlinePlan(stages: seq<Stage>, mean: real) returns (plan: seq<Phase>)
    requires mean > 0.0
    ensures Chained(plan) && FollowsStages(stages, plan, |stages|) && RefreshesFit(plan, mean)
  {
    var elapsed, previous := 0, 0;
    plan := [];
    var i := 0;
    while i < |stages|
      invariant i <= |stages|
      invariant Chained(plan) && FollowsStages(stages, plan, i) && RefreshesFit(plan, mean)
      invariant elapsed == EndAt(plan, |plan|) && previous == UsersAt(plan, |plan|)
    {
      var n, ramp, hold := stages[i].users, stages[i].ramp, stages[i].hold;
      var p := Phase(elapsed, ramp, previous, n, Trapezoid(previous, n, ramp) / mean);
      var q := Phase(elapsed + ramp, hold, n, n, Trapezoid(n, n, hold) / mean);
      PlanGrows(plan, p, mean);
      PlanGrows(plan + [p], q, mean);
      StageGrows(stages, plan, i, p, q);
      plan := plan + [p];
      elapsed := elapsed + ramp;
      plan := plan + [q];
      elapsed := elapsed + hold;
      previous := n;
      i := i + 1;
    }
  }

  /** Chaining, the stages and the mean leave no freedom: there is one plan. */
  lemma {:induction false} PlanIsDetermined(stages: seq<Stage>, mean: real, x: seq<Phase>, y: seq<Phase>, k: int)
    requires mean > 0.0
    requires Chained(x) && FollowsStages(stages, x, |stages|) && RefreshesFit(x, mean)
    requires Chained(y) && FollowsStages(stages, y, |stages|) && RefreshesFit(y, mean)
    requires 0 <= k < |x|
    ensures |x| == |y| && x[k] == y[k]
    decreases k
  {
    if k > 0 {
      PlanIsDetermined(stages, mean, x, y, k - 1);
    }
    assert ChainedAt(x, k) && ChainedAt(y, k);
    assert StageAt(stages, x, k / 2) && StageAt(stages, y, k / 2);
    assert k == 2 * (k / 2) || k == 2 * (k / 2) + 1;
  }

  /** How long the first k stages take. */
  function Elapsed(stages: seq<Stage>, k: int): int
    requires 0 <= k <= |stages|
  {
    if k == 0 then 0 else Elapsed(stages, k - 1) + stages[k - 1].ramp + stages[k - 1].hold
  }

  /** Stage by stage: where the two phases of stage k lie, and between which populations. */
  lemma {:induction false} PlanOfStage(stages: seq<Stage>, plan: seq<Phase>, k: int)
    requires Chained(plan) && FollowsStages(stages, plan, |stages|) && 0 <= k < |stages|
    ensures |plan| == 2 * |stages|
    ensures var ramp, hold := plan[2 * k], plan[2 * k + 1];
            && ramp.start == Elapsed(stages, k) && ramp.duration == stages[k].ramp
            && ramp.before == (if k == 0 then 0 else stages[k - 1].users) && ramp.users == stages[k].users
            && hold.start == Elapsed(stages, k) + stages[k].ramp && hold.duration == stages[k].hold
            && hold.before == hold.users == stages[k].users
  {
    assert StageAt(stages, plan, k) && ChainedAt(plan, 2 * k) && ChainedAt(plan, 2 * k + 1);
    if k > 0 {
      PlanOfStage(stages, plan, k - 1);
      assert EndAt(plan, 2 * k) == plan[2 * (k - 1) + 1].start + plan[2 * (k - 1) + 1].duration;
      assert UsersAt(plan, 2 * k) == plan[2 * (k - 1) + 1].users;
    }
  }

  // ----- Refreshes are the integral of the population -----------------------------------------------

  /** The population at fraction k/n of a phase. */
  function PopulationAt(p: Phase, k: nat, n: nat): real
    requires n > 0
  {
    p.before as real + (p.users - p.before) as real * (k as real / n as real)
  }

  /** The Riemann sums over the first m of n equal slices, with the population at the left or at
      the right end of each slice. */
  function LeftSum(p: Phase, m: nat, n: nat): real
    requires n > 0
  {
    if m == 0 then 0.0 else LeftSum(p, m - 1, n) + PopulationAt(p, m - 1, n) * (p.duration as real / n as real)
  }

  function RightSum(p: Phase, m: nat, n: nat): real
    requires n > 0
  {
    if m == 0 then 0.0 else RightSum(p, m - 1, n) + PopulationAt(p, m, n) * (p.duration as real / n as real)
  }

  /** The sum of m terms x, x + y, x + 2y, ... */
  function Progression(m: real, x: real, y: real): real {
    m * x + m * (m - 1.0) / 2.0 * y
  }

  lemma {:induction false} ProgressionStep(m: real, x: real, y: real)
    ensures Progression(m + 1.0, x, y) == Progression(m, x, y) + x + m * y
  {
    assert (m + 1.0) * x == m * x + x;
    var c := m * (m - 1.0) / 2.0;
    assert (m + 1.0) * m / 2.0 == c + m;
    assert (c + m) * y == c * y + m * y;
  }

  lemma {:induction false} PopulationSlice(p: Phase, k: nat, n: nat)
    requires n > 0
    ensures var w := p.duration as real / n as real;
            var d := (p.users - p.before) as real / n as real;
            PopulationAt(p, k, n) * w == p.before as real * w + k as real * (d * w)
  {
    var w, x, y, z := p.duration as real / n as real, (p.users - p.before) as real, k as real, n as real;
    assert x * (y / z) == y * (x / z);
    assert (p.before as real + y * (x / z)) * w == p.before as real * w + y * ((x / z) * w);
  }

  lemma {:induction false} PartialSums(p: Phase, m: nat, n: nat, x: real, y: real)
    requires n > 0
    requires x == p.before as real * (p.duration as real / n as real)
    requires y == (p.users - p.before) as real / n as real * (p.duration as real / n as real)
    ensures LeftSum(p, m, n) == Progression(m as real, x, y)
    ensures RightSum(p, m, n) == Progression(m as real, x + y, y)
  {
    if m > 0 {
      PartialSums(p, m - 1, n, x, y);
      PopulationSlice(p, m - 1, n);
      PopulationSlice(p, m, n);
      ProgressionStep((m - 1) as real, x, y);
      ProgressionStep((m - 1) as real, x + y, y);
      assert x + m as real * y == x + y + (m - 1) as real * y;
    }
  }

  lemma {:induction false} ProgressionPair(m: real, x: real, y: real)
    ensures Progression(m, x, y) + Progression(m, x + y, y) == 2.0 * (m * x) + m * (m * y)
    ensures Progression(m, x + y, y) - Progression(m, x, y) == m * y
  {
    assert m * (x + y) == m * x + m * y;
    assert m * (m - 1.0) * y == m * (m * y) - m * y;
  }

  lemma {:induction false} Cancel(x: real, n: real)
    requires n > 0.0
    ensures n * (x / n) == x
  {
  }

  /** For every number of slices, the trapezoid lies halfway between the two Riemann sums, and they
      differ by the change of population in one slice: the trapezoid is the integral. */
  lemma {:induction false} TrapezoidIsIntegral(p: Phase, n: nat)
    requires n > 0
    ensures LeftSum(p, n, n) + RightSum(p, n, n) == 2.0 * Trapezoid(p.before, p.users, p.duration)
    ensures RightSum(p, n, n) - LeftSum(p, n, n) == (p.users - p.before) as real * (p.duration as real / n as real)
  {
    var z, w := n as real, p.duration as real / n as real;
    var change := (p.users - p.before) as real;
    var x, y := p.before as real * w, change / z * w;
    PartialSums(p, n, n, x, y);
    ProgressionPair(z, x, y);
    Cancel(p.duration as real, z);
    Cancel(change, z);
    assert z * x == p.before as real * (z * w);
    assert z * y == z * (change / z) * w;
    assert z * (change * w) == change * (z * w);
    TrapezoidParts(p);
  }

  lemma {:induction false} TrapezoidParts(p: Phase)
    ensures 2.0 * Trapezoid(p.before, p.users, p.duration)
         == 2.0 * (p.before as real * p.duration as real) + (p.users - p.before) as real * p.duration as real
  {
    var a, x, d := p.before as real, (p.users - p.before) as real, p.duration as real;
    assert (p.before + p.users) as real == 2.0 * a + x;
    assert (2.0 * a + x) / 2.0 * d == a * d + x * d / 2.0;
  }

  function TotalRefreshes(plan: seq<Phase>): real {
    if plan == [] then 0.0 else TotalRefreshes(plan[..|plan| - 1]) + plan[|plan| - 1].refreshes
  }

  function TotalArea(plan: seq<Phase>): real {
    if plan == [] then 0.0
    else var p := plan[|plan| - 1]; TotalArea(plan[..|plan| - 1]) + Trapezoid(p.before, p.users, p.duration)
  }

  /** All refreshes together are the area under the population curve divided by the mean pause. */
  lemma {:induction false} RefreshesAreArea(plan: seq<Phase>, mean: real)
    requires mean > 0.0 && RefreshesFit(plan, mean)
    ensures TotalRefreshes(plan) * mean == TotalArea(plan)
  {
    if plan != [] {
      var p := plan[|plan| - 1];
      RefreshesAreArea(plan[..|plan| - 1], mean);
      Cancel(Trapezoid(p.before, p.users, p.duration), mean);
      assert (TotalRefreshes(plan[..|plan| - 1]) + p.refreshes) * mean
          == TotalRefreshes(plan[..|plan| - 1]) * mean + p.refreshes * mean;
    }
  }

  /** What the refresh executor schedules: its rates go from `before` to `users` per time unit, and
      the time unit is the mean pause cut to whole seconds. */
  function Scheduled(p: Phase, unit: int): real
    requires unit > 0
  {
    Trapezoid(p.before, p.users, p.duration) / unit as real
  }

  /** The executor delivers the planned refreshes exactly when the mean pause is a whole number of
      seconds (or there is nothing to deliver). */
  lemma {:induction false} ScheduleMatchesIffMeanIsWhole(p: Phase, mean: real)
    requires mean >= 1.0
    ensures mean.Floor >= 1
    ensures Scheduled(p, mean.Floor) == Trapezoid(p.before, p.users, p.duration) / mean
            <==> mean == mean.Floor as real || Trapezoid(p.before, p.users, p.duration) == 0.0
  {
    var area, unit := Trapezoid(p.before, p.users, p.duration), mean.Floor as real;
    Cancel(area, mean);
    Cancel(area, unit);
    if area / unit == area / mean {
      var rate := area / mean;
      assert unit * rate == mean * rate;
      assert (mean - unit) * rate == 0.0;
      assert mean == unit || rate == 0.0;
    }
  }

  // ----- Users enter once ------------------------------------------------------------------------------

  /** The arrival scenario of the users with indices offset up to offset + count. */
  datatype Enter = Enter(offset: int, count: int, start: int, duration: int, rate: real)

  predicate Enters(e: Enter, user: int) {
    e.offset <= user < e.offset + e.count
  }

  /** arrival() refuses an empty or backward schedule. */
  predicate Deliverable(p: Phase) {
    EnterCount(p) == 0 || (EnterCount(p) > 0 && p.duration > 0)
  }

  /** The stages validate() admits: the population strictly grows and every ramp takes time. */
  predicate ValidStageAt(stages: seq<Stage>, k: int)
    requires 0 <= k < |stages|
  {
    && stages[k].users > (if k == 0 then 0 else stages[k - 1].users)
    && stages[k].ramp > 0 && stages[k].hold > 0
  }

  predicate ValidStages(stages: seq<Stage>) {
    forall k :: 0 <= k < |stages| ==> ValidStageAt(stages, k)
  }

  /** Every phase of a validated plan is one that arrival() accepts. */
  lemma {:induction false} ValidPlanIsDeliverable(stages: seq<Stage>, plan: seq<Phase>)
    requires forall k :: 0 <= k < |stages| ==>
               && stages[k].users > (if k == 0 then 0 else stages[k - 1].users)
               && stages[k].ramp > 0 && stages[k].hold > 0
    requires Chained(plan) && FollowsStages(stages, plan, |stages|)
    ensures forall k :: 0 <= k < |plan| ==> Deliverable(plan[k])
  {
    assert ValidStages(stages);
    forall k | 0 <= k < |plan| ensures Deliverable(plan[k]) {
      var i := k / 2;
      assert ChainedAt(plan, k) && StageAt(stages, plan, i) && ValidStageAt(stages, i);
      if k == 2 * i {
        if i > 0 {
          assert StageAt(stages, plan, i - 1);
          assert UsersAt(plan, k) == plan[2 * (i - 1) + 1].users;
        }
        assert plan[k].users == stages[i].users > plan[k].before;
      } else {
        assert k == 2 * i + 1;
        assert plan[k].before == stages[i].users == plan[k].users;
      }
    }
  }

  function Covered(enters: seq<Enter>, k: int): int
    requires 0 <= k <= |enters|
  {
    if k == 0 then 0 else enters[k - 1].offset + enters[k - 1].count
  }

  predicate AdjacentAt(enters: seq<Enter>, k: int)
    requires 0 <= k < |enters|
  {
    enters[k].offset == Covered(enters, k) && enters[k].count > 0
  }

  predicate Adjacent(enters: seq<Enter>) {
    forall k :: 0 <= k < |enters| ==> AdjacentAt(enters, k)
  }

  /** Scenario e brings in the users of phase p, spread evenly over that phase. */
  predicate Serves(e: Enter, p: Phase) {
    && e.offset == p.before && e.count == EnterCount(p) && e.start == p.start && e.duration == p.duration
    && e.rate * e.duration as real == e.count as real
  }

  predicate ServesSome(e: Enter, plan: seq<Phase>) {
    exists k :: 0 <= k < |plan| && Serves(e, plan[k])
  }

  /** What the U2 branch of build_spec has built after the first n phases. */
  predicate Entering(enters: seq<Enter>, plan: seq<Phase>, n: int)
    requires 0 <= n <= |plan|
  {
    && Adjacent(enters)
    && Covered(enters, |enters|) == UsersAt(plan, n)
    && forall k :: 0 <= k < |enters| ==> ServesSome(enters[k], plan)
  }

  lemma {:induction false} EnteringGrows(enters: seq<Enter>, plan: seq<Phase>, n: int, e: Enter)
    requires 0 <= n < |plan| && ChainedAt(plan, n) && Entering(enters, plan, n) && Serves(e, plan[n]) && e.count > 0
    ensures Entering(enters + [e], plan, n + 1)
  {
    forall k | 0 <= k < |enters + [e]|
      ensures AdjacentAt(enters + [e], k) && ServesSome((enters + [e])[k], plan)
    {
      if k < |enters| {
        assert AdjacentAt(enters, k) && ServesSome(enters[k], plan);
      }
    }
  }

  method BuildEnters(plan: seq<Phase>) returns (r: Result<seq<Enter>, string>)
    requires Chained(plan)
    ensures r.Success? <==> forall k :: 0 <= k < |plan| ==> Deliverable(plan[k])
    ensures r.Success? ==> Entering(r.value, plan, |plan|)
    ensures r.Success? ==> forall k :: 0 <= k < |plan| ==>
              plan[k].users == plan[k].before || (plan[k].users > plan[k].before && plan[k].duration > 0)
  {
    var enters: seq<Enter> := [];
    var i := 0;
    while i < |plan|
      invariant i <= |plan|
      invariant forall k :: 0 <= k < i ==> Deliverable(plan[k])
      invariant Entering(enters, plan, i)
    {
      var x := plan[i];
      assert ChainedAt(plan, i);
      if EnterCount(x) != 0 {
        if EnterCount(x) <= 0 || x.duration <= 0 {
          return Failure("invalid arrival schedule");
        }
        var rate := EnterCount(x) as real / x.duration as real;
        Cancel(EnterCount(x) as real, x.duration as real);
        var e := Enter(x.before, EnterCount(x), x.start, x.duration, rate);
        EnteringGrows(enters, plan, i, e);
        enters := enters + [e];
      }
      i := i + 1;
    }
    return Success(enters);
  }

  /** The scenario of a phase starts and ends with it, and its rate brings in, over its duration, the
      users that the population grows by. */
  lemma {:induction false} EntersWithItsPhase(enters: seq<Enter>, plan: seq<Phase>, n: int, k: int)
    requires 0 <= n <= |plan| && Entering(enters, plan, n) && 0 <= k < |enters|
    ensures exists i :: 0 <= i < |plan|
              && enters[k].start == plan[i].start && enters[k].duration == plan[i].duration
              && enters[k].offset == plan[i].before && enters[k].offset + enters[k].count == plan[i].users
              && enters[k].rate * plan[i].duration as real == (plan[i].users - plan[i].before) as real > 0.0
  {
    assert AdjacentAt(enters, k) && ServesSome(enters[k], plan);
    var i :| 0 <= i < |plan| && Serves(enters[k], plan[i]);
    assert plan[i].start == enters[k].start;
  }

  lemma {:induction false} CoveredGrows(enters: seq<Enter>, j: int, k: int)
    requires Adjacent(enters) && 0 <= j <= k <= |enters|
    ensures 0 <= Covered(enters, j) <= Covered(enters, k)
    ensures j < k ==> Covered(enters, j) < Covered(enters, k)
    decreases k
  {
    if k > 0 {
      assert AdjacentAt(enters, k - 1);
      if j < k {
        CoveredGrows(enters, j, k - 1);
      } else {
        CoveredGrows(enters, k - 1, k - 1);
      }
    }
  }

  lemma {:induction false} SomeScenarioHas(enters: seq<Enter>, n: int, user: int)
    requires Adjacent(enters) && 0 <= n <= |enters| && 0 <= user < Covered(enters, n)
    ensures exists k :: 0 <= k < n && Enters(enters[k], user)
  {
    assert AdjacentAt(enters, n - 1);
    if user < enters[n - 1].offset {
      SomeScenarioHas(enters, n - 1, user);
    } else {
      assert Enters(enters[n - 1], user);
    }
  }

  /** The enter scenarios partition the users: each index below the final population, and no
      other, belongs to exactly one of them. */
  lemma {:induction false} EveryUserEntersOnce(enters: seq<Enter>, user: int)
    requires Adjacent(enters)
    ensures 0 <= user < Covered(enters, |enters|) <==> exists k :: 0 <= k < |enters| && Enters(enters[k], user)
    ensures forall j, k | 0 <= j < |enters| && 0 <= k < |enters| ::
              Enters(enters[j], user) && Enters(enters[k], user) ==> j == k
  {
    if 0 <= user < Covered(enters, |enters|) {
      SomeScenarioHas(enters, |enters|, user);
    }
    forall k | 0 <= k < |enters| && Enters(enters[k], user)
      ensures Covered(enters, k) <= user < Covered(enters, k + 1)
      ensures 0 <= user < Covered(enters, |enters|)
    {
      assert AdjacentAt(enters, k);
      CoveredGrows(enters, k, k);
      CoveredGrows(enters, k + 1, |enters|);
    }
    forall j, k | 0 <= j < k < |enters| ensures !(Enters(enters[j], user) && Enters(enters[k], user)) {
      assert AdjacentAt(enters, j) && AdjacentAt(enters, k);
      CoveredGrows(enters, j + 1, k);
    }
  }
}
