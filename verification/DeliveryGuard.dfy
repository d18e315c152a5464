/** guard_delivery keeps arrival-rate executors alive past the end of their curve without changing
    the curve on the business window. */
module DeliveryGuard {
  import opened Wrappers

  datatype RateStage = RateStage(target: real, duration: real)

  datatype Scenario =
    | Constant(rate: real, duration: real)
    | Ramping(startRate: real, stages: seq<RateStage>)
    | Other(executor: string)

  datatype Entry = Entry(business: Scenario, businessWindow: real, guardSeconds: real, executorWindow: real)

  function Length(stages: seq<RateStage>): real {
    if stages == [] then 0.0 else stages[0].duration + Length(stages[1..])
  }

  /** The rate t seconds into a ramp that starts at rate `from`: linear in each stage, zero after the last. */
  function RampAt(from: real, stages: seq<RateStage>, t: real): real
    requires t >= 0.0
    decreases |stages|
  {
    if stages == [] then 0.0
    else if t < stages[0].duration then from + (stages[0].target - from) * (t / stages[0].duration)
    else RampAt(stages[0].target, stages[1..], t - stages[0].duration)
  }

  /** Within a stage the rate goes on a straight line from where the stage starts to its target. */
  lemma {:induction false} RampIsLinear(from: real, stages: seq<RateStage>, t: real)
    requires stages != [] && 0.0 <= t < stages[0].duration
    ensures (RampAt(from, stages, t) - from) * stages[0].duration == (stages[0].target - from) * t
  {
    var change, duration := stages[0].target - from, stages[0].duration;
    assert RampAt(from, stages, t) - from == change * (t / duration);
    assert t / duration * duration == t;
    Regroup(change, t / duration, duration);
  }

  lemma {:induction false} Regroup(x: real, y: real, z: real)
    ensures x * y * z == x * (y * z)
  {
  }

  /** The arrival rate of a scenario t seconds after it starts. */
  function RateAt(s: Scenario, t: real): real
    requires t >= 0.0
  {
    match s
    case Constant(rate, duration) => if t < duration then rate else 0.0
    case Ramping(startRate, stages) => RampAt(startRate, stages, t)
    case Other(_) => 0.0
  }

  function Window(s: Scenario): real {
    match s
    case Constant(_, duration) => duration
    case Ramping(_, stages) => Length(stages)
    case Other(_) => 0.0
  }

  function FinalRate(s: Scenario): real {
    match s
    case Constant(rate, _) => rate
    case Ramping(startRate, stages) => if stages == [] then startRate else stages[|stages| - 1].target
    case Other(_) => 0.0
  }

  /** A ramp without stages has no last target to hold. */
  predicate CanGuard(s: Scenario) {
    s.Ramping? ==> s.stages != []
  }

  function Guarded(s: Scenario, seconds: real): Scenario
    requires CanGuard(s)
  {
    match s
    case Constant(rate, duration) => Constant(rate, duration + seconds)
    case Ramping(startRate, stages) =>
      Ramping(startRate, stages + [RateStage(stages[|stages| - 1].target, seconds)])
    case Other(_) => s
  }

  predicate Forward(stages: seq<RateStage>) {
    forall k :: 0 <= k < |stages| ==> stages[k].duration >= 0.0
  }

  lemma {:induction false} LengthOfForward(stages: seq<RateStage>)
    requires Forward(stages)
    ensures Length(stages) >= 0.0
  {
    if stages != [] {
      LengthOfForward(stages[1..]);
    }
  }

  lemma {:induction false} LengthGrows(stages: seq<RateStage>, last: RateStage)
    ensures Length(stages + [last]) == Length(stages) + last.duration
  {
    if stages == [] {
      assert [last][1..] == [];
    } else {
      assert (stages + [last])[1..] == stages[1..] + [last];
      LengthGrows(stages[1..], last);
    }
  }

  lemma {:induction false} HoldKeepsRamp(from: real, stages: seq<RateStage>, last: RateStage, t: real)
    requires 0.0 <= t < Length(stages)
    ensures RampAt(from, stages + [last], t) == RampAt(from, stages, t)
    decreases |stages|
  {
    assert (stages + [last])[0] == stages[0];
    assert (stages + [last])[1..] == stages[1..] + [last];
    if t >= stages[0].duration {
      HoldKeepsRamp(stages[0].target, stages[1..], last, t - stages[0].duration);
    }
  }

  lemma {:induction false} HoldHoldsFinalTarget(from: real, stages: seq<RateStage>, seconds: real, t: real)
    requires Forward(stages) && Length(stages) <= t
    ensures t >= 0.0
    ensures var last := if stages == [] then from else stages[|stages| - 1].target;
            RampAt(from, stages + [RateStage(last, seconds)], t) == if t < Length(stages) + seconds then last else 0.0
    decreases |stages|
  {
    LengthOfForward(stages);
    if stages == [] {
      var hold := [RateStage(from, seconds)];
      assert stages + hold == hold && hold[1..] == [];
    } else {
      var last := stages[|stages| - 1].target;
      var longer := stages + [RateStage(last, seconds)];
      assert longer[0] == stages[0];
      assert longer[1..] == stages[1..] + [RateStage(last, seconds)];
      LengthOfForward(stages[1..]);
      HoldHoldsFinalTarget(stages[0].target, stages[1..], seconds, t - stages[0].duration);
    }
  }

  /** On the business window the guarded curve is the original one; during the guard it stays at
      the final rate; afterwards it is over. */
  lemma {:induction false} GuardKeepsCurve(s: Scenario, seconds: real, t: real)
    requires CanGuard(s) && t >= 0.0 && seconds >= 0.0
    ensures t < Window(s) ==> RateAt(Guarded(s, seconds), t) == RateAt(s, t)
    ensures !s.Other? && (s.Ramping? ==> forall k :: 0 <= k < |s.stages| ==> s.stages[k].duration >= 0.0)
            && Window(s) <= t ==>
              RateAt(Guarded(s, seconds), t) == if t < Window(s) + seconds then FinalRate(s) else 0.0
    ensures !s.Other? ==> Window(Guarded(s, seconds)) == Window(s) + seconds
    ensures FinalRate(Guarded(s, seconds)) == FinalRate(s)
  {
    if s.Ramping? {
      var last := RateStage(s.stages[|s.stages| - 1].target, seconds);
      LengthGrows(s.stages, last);
      if t < Length(s.stages) {
        HoldKeepsRamp(s.startRate, s.stages, last, t);
      } else if Forward(s.stages) {
        HoldHoldsFinalTarget(s.startRate, s.stages, seconds, t);
      }
    }
  }

  function EntryOf(s: Scenario, seconds: real): Entry {
    Entry(s, Window(s), seconds, Window(s) + seconds)
  }

  class Scenarios {
    var table: map<string, Scenario>

    constructor (table: map<string, Scenario>)
      ensures this.table == table
    {
      this.table := table;
    }

    method StagesWindow(stages: seq<RateStage>) returns (seconds: real)
      ensures seconds == Length(stages)
    {
      seconds := 0.0;
      var i := 0;
      while i < |stages|
        invariant i <= |stages|
        invariant seconds + Length(stages[i..]) == Length(stages)
      {
        assert stages[i..][0] == stages[i] && stages[i..][1..] == stages[i + 1..];
        seconds := seconds + stages[i].duration;
        i := i + 1;
      }
    }

    /** Guards every arrival-rate scenario in place and reports what it replaced; a ramp without
        stages stops it half way. */
    method GuardDelivery(seconds: real) returns (r: Result<map<string, Entry>, string>)
      modifies this
      ensures r.Success? <==> forall name :: name in old(table) ==> CanGuard(old(table)[name])
      ensures table.Keys == old(table).Keys
      ensures r.Success? ==> forall name :: name in table ==> table[name] == Guarded(old(table)[name], seconds)
      ensures r.Failure? ==> forall name :: name in table ==>
                || table[name] == old(table)[name]
                || (CanGuard(old(table)[name]) && table[name] == Guarded(old(table)[name], seconds))
      ensures r.Success? ==> forall name :: name in r.value <==> name in old(table) && !old(table)[name].Other?
      ensures r.Success? ==> forall name :: name in r.value ==>
                && r.value[name] == EntryOf(old(table)[name], seconds)
                && r.value[name].business == old(table)[name] && r.value[name].guardSeconds == seconds
                && r.value[name].businessWindow == Window(old(table)[name])
                && r.value[name].executorWindow == Window(old(table)[name]) + seconds
    {
      var schedule: map<string, Entry> := map[];
      var waiting := table.Keys;
      while waiting != {}
        invariant waiting <= table.Keys == old(table).Keys
        invariant forall name :: name in waiting ==> table[name] == old(table)[name]
        invariant forall name :: name in table.Keys - waiting ==>
                    CanGuard(old(table)[name]) && table[name] == Guarded(old(table)[name], seconds)
        invariant forall name :: name in schedule <==> name in table.Keys - waiting && !old(table)[name].Other?
        invariant forall name :: name in schedule ==> schedule[name] == EntryOf(old(table)[name], seconds)
        decreases |waiting|
      {
        var name :| name in waiting;
        waiting := waiting - {name};
        var original := table[name];
        match original
        case Other(_) =>
        case Constant(rate, duration) =>
          table := table[name := Constant(rate, duration + seconds)];
          schedule := schedule[name := Entry(original, duration, seconds, duration + seconds)];
        case Ramping(startRate, stages) =>
          var duration := StagesWindow(stages);
          if stages == [] {
            return Failure("list index out of range");
          }
          table := table[name := Ramping(startRate, stages + [RateStage(stages[|stages| - 1].target, seconds)])];
          schedule := schedule[name := Entry(original, duration, seconds, duration + seconds)];
      }
      return Success(schedule);
    }
  }
}
