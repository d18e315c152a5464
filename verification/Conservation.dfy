/** The conservation checks of an aggregated run: what was planned, started, completed and classified. */
module Conservation {
  import opened Wrappers

  datatype Key = Key(metric: string, scenario: string, step: string, result: string)

  /** One line of raw evidence: a metric is declared with its type, or a point is added to it. */
  datatype Record = Metric(name: string, kind: string) | Point(key: Key, value: real)

  datatype Row = Row(key: Key, count: real)

  /** The arguments of count(): a part that is absent matches everything. */
  datatype Filter = Filter(metric: string, scenario: Option<string>, step: Option<string>, result: Option<string>)

  predicate Fits(wanted: Option<string>, actual: string) {
    wanted.None? || wanted.value == actual
  }

  predicate Matches(f: Filter, k: Key) {
    f.metric == k.metric && Fits(f.scenario, k.scenario) && Fits(f.step, k.step) && Fits(f.result, k.result)
  }

  // ----- What the raw records say ------------------------------------------------------------------------

  function TypesAfter(records: seq<Record>): map<string, string> {
    if records == [] then map[]
    else
      var types := TypesAfter(records[..|records| - 1]);
      match records[|records| - 1]
      case Metric(name, kind) => types[name := kind]
      case Point(_, _) => types
  }

  /** A point counts when its metric has been declared a counter on an earlier line. */
  predicate Counts(types: map<string, string>, r: Record) {
    r.Point? && r.key.metric in types && types[r.key.metric] == "counter"
  }

  predicate CountsAt(records: seq<Record>, i: int)
    requires 0 <= i < |records|
  {
    Counts(TypesAfter(records[..i]), records[i])
  }

  function Sum(records: seq<Record>, f: Filter): real {
    if records == [] then 0.0
    else
      var init, last := records[..|records| - 1], records[|records| - 1];
      Sum(init, f) + if Counts(TypesAfter(init), last) && Matches(f, last.key) then last.value else 0.0
  }

  predicate Occurs(records: seq<Record>, k: Key) {
    exists i :: 0 <= i < |records| && CountsAt(records, i) && records[i].key == k
  }

  lemma {:induction false} OccursAfter(records: seq<Record>, r: Record, k: Key)
    ensures Occurs(records + [r], k) <==> Occurs(records, k) || (Counts(TypesAfter(records), r) && r.key == k)
  {
    var all := records + [r];
    assert forall i :: 0 <= i < |records| ==> all[..i] == records[..i] && all[i] == records[i];
    assert all[..|records|] == records;
    if Occurs(records, k) {
      var i :| 0 <= i < |records| && CountsAt(records, i) && records[i].key == k;
      assert CountsAt(all, i);
    }
    if Counts(TypesAfter(records), r) && r.key == k {
      assert CountsAt(all, |records|);
    }
    if Occurs(all, k) {
      var i :| 0 <= i < |all| && CountsAt(all, i) && all[i].key == k;
      if i < |records| {
        assert CountsAt(records, i);
      }
    }
  }

  lemma {:induction false} SumAfter(records: seq<Record>, r: Record, f: Filter)
    ensures Sum(records + [r], f)
         == Sum(records, f) + if Counts(TypesAfter(records), r) && Matches(f, r.key) then r.value else 0.0
    ensures TypesAfter(records + [r])
         == if r.Metric? then TypesAfter(records)[r.name := r.kind] else TypesAfter(records)
  {
    assert (records + [r])[..|records|] == records;
  }

  // ----- The rows ------------------------------------------------------------------------------------------

  function RowSum(rows: seq<Row>, f: Filter): real {
    if rows == [] then 0.0
    else RowSum(rows[..|rows| - 1], f) + if Matches(f, rows[|rows| - 1].key) then rows[|rows| - 1].count else 0.0
  }

  lemma {:induction false} RowSumAppend(rows: seq<Row>, row: Row, f: Filter)
    ensures RowSum(rows + [row], f) == RowSum(rows, f) + if Matches(f, row.key) then row.count else 0.0
  {
    assert (rows + [row])[..|rows|] == rows;
  }

  lemma {:induction false} RowSumUpdate(rows: seq<Row>, i: nat, value: real, f: Filter)
    requires i < |rows|
    ensures RowSum(rows[i := Row(rows[i].key, rows[i].count + value)], f)
         == RowSum(rows, f) + if Matches(f, rows[i].key) then value else 0.0
  {
    var n := |rows| - 1;
    var updated := rows[i := Row(rows[i].key, rows[i].count + value)];
    if i < n {
      RowSumUpdate(rows[..n], i, value, f);
      assert updated[..n] == rows[..n][i := Row(rows[i].key, rows[i].count + value)];
    } else {
      assert updated[..n] == rows[..n];
    }
  }

  predicate HasRow(rows: seq<Row>, k: Key) {
    exists i :: 0 <= i < |rows| && rows[i].key == k
  }

  /** The rows hold the same sums as the records, and a row for exactly the keys that were counted. */
  ghost predicate Tallies(rows: seq<Row>, records: seq<Record>) {
    && (forall f :: RowSum(rows, f) == Sum(records, f))
    && (forall k :: HasRow(rows, k) <==> Occurs(records, k))
  }

  lemma {:induction false} TalliesAppend(rows: seq<Row>, records: seq<Record>, r: Record)
    requires Tallies(rows, records) && Counts(TypesAfter(records), r)
    ensures Tallies(rows + [Row(r.key, r.value)], records + [r])
  {
    var longer := rows + [Row(r.key, r.value)];
    forall f ensures RowSum(longer, f) == Sum(records + [r], f) {
      SumAfter(records, r, f);
      RowSumAppend(rows, Row(r.key, r.value), f);
    }
    forall k ensures HasRow(longer, k) <==> Occurs(records + [r], k) {
      OccursAfter(records, r, k);
      assert HasRow(rows, k) <==> Occurs(records, k);
      assert longer[|rows|].key == r.key;
      assert forall i :: 0 <= i < |rows| ==> longer[i] == rows[i];
    }
  }

  lemma {:induction false} TalliesUpdate(rows: seq<Row>, records: seq<Record>, r: Record, i: nat)
    requires Tallies(rows, records) && Counts(TypesAfter(records), r) && i < |rows| && rows[i].key == r.key
    ensures Tallies(rows[i := Row(rows[i].key, rows[i].count + r.value)], records + [r])
  {
    var updated := rows[i := Row(rows[i].key, rows[i].count + r.value)];
    forall f ensures RowSum(updated, f) == Sum(records + [r], f) {
      SumAfter(records, r, f);
      RowSumUpdate(rows, i, r.value, f);
    }
    forall k ensures HasRow(updated, k) <==> Occurs(records + [r], k) {
      OccursAfter(records, r, k);
      assert HasRow(rows, k) <==> Occurs(records, k);
      assert forall j :: 0 <= j < |rows| ==> updated[j].key == rows[j].key;
    }
  }

  lemma {:induction false} TalliesSkip(rows: seq<Row>, records: seq<Record>, r: Record)
    requires Tallies(rows, records) && !Counts(TypesAfter(records), r)
    ensures Tallies(rows, records + [r])
  {
    forall f ensures RowSum(rows, f) == Sum(records + [r], f) {
      SumAfter(records, r, f);
    }
    forall k ensures HasRow(rows, k) <==> Occurs(records + [r], k) {
      OccursAfter(records, r, k);
    }
  }

  // ----- The verdict -----------------------------------------------------------------------------------------

  datatype Error =
    | PlannedNotStarted(scenario: string)
    | MissingOrInterrupted(scenario: string)
    | NotConserved(scenario: string, step: string)
    | DroppedIterations

  function InScenario(metric: string, scenario: string): Filter {
    Filter(metric, Some(scenario), None, None)
  }

  function InStep(metric: string, scenario: string, step: string): Filter {
    Filter(metric, Some(scenario), Some(step), None)
  }

  const DROPPED := Filter("dropped_iterations", None, None, None)

  ghost predicate Started(records: seq<Record>, scenario: string, step: string) {
    exists result :: Occurs(records, Key("phase14_started", scenario, step, result))
  }

  /** What each error of the report means in terms of the raw records. */
  ghost predicate Raised(e: Error, records: seq<Record>, plan: map<string, Option<real>>) {
    match e
    case PlannedNotStarted(s) =>
      s in plan && plan[s].Some? && Sum(records, InScenario("phase14_iterations_started", s)) != plan[s].value
    case MissingOrInterrupted(s) =>
      var started := Sum(records, InScenario("phase14_iterations_started", s));
      s in plan && (started == 0.0 || started != Sum(records, InScenario("phase14_iterations_completed", s)))
    case NotConserved(s, t) =>
      && Started(records, s, t)
      && Sum(records, InStep("phase14_started", s, t)) != Sum(records, InStep("phase14_results", s, t))
    case DroppedIterations => Sum(records, DROPPED) != 0.0
  }

  class Ledger {
    var types: map<string, string>
    var rows: seq<Row>
    ghost var records: seq<Record>

    ghost predicate Valid()
      reads this
    {
      types == TypesAfter(records) && Tallies(rows, records)
    }

    constructor ()
      ensures Valid() && records == []
    {
      types, rows, records := map[], [], [];
    }

    /** Reads one line: a declaration is remembered, a counter point is added to its row. */
    method Add(r: Record)
      requires Valid()
      modifies this
      ensures Valid() && records == old(records) + [r]
    {
      SumAfter(records, r, DROPPED);
      match r {
      case Metric(name, kind) =>
        TalliesSkip(rows, records, r);
        types := types[name := kind];
      case Point(key, value) =>
        if key.metric in types && types[key.metric] == "counter" {
          var i := 0;
          while i < |rows| && rows[i].key != key
            invariant i <= |rows|
          {
            i := i + 1;
          }
          if i < |rows| {
            TalliesUpdate(rows, records, r, i);
            rows := rows[i := Row(key, rows[i].count + value)];
          } else {
            TalliesAppend(rows, records, r);
            rows := rows + [Row(key, value)];
          }
        } else {
          TalliesSkip(rows, records, r);
        }
      }
      records := records + [r];
    }

    method Count(f: Filter) returns (total: real)
      requires Valid()
      ensures total == Sum(records, f)
    {
      total := 0.0;
      var i := 0;
      while i < |rows|
        invariant i <= |rows| && total == RowSum(rows[..i], f)
      {
        if Matches(f, rows[i].key) {
          total := total + rows[i].count;
        }
        i := i + 1;
        assert rows[..i][..i - 1] == rows[..i - 1];
      }
      assert rows[..i] == rows;
    }

    /** The errors of the report. */
    method Check(plan: map<string, Option<real>>) returns (errors: set<Error>)
      requires Valid()
      ensures forall e :: e in errors <==> Raised(e, records, plan)
      ensures forall s :: PlannedNotStarted(s) in errors <==>
                && s in plan && plan[s].Some?
                && Sum(records, Filter("phase14_iterations_started", Some(s), None, None)) != plan[s].value
      ensures forall s :: MissingOrInterrupted(s) in errors <==>
                && s in plan
                && var started := Sum(records, Filter("phase14_iterations_started", Some(s), None, None));
                   started == 0.0
                   || started != Sum(records, Filter("phase14_iterations_completed", Some(s), None, None))
      ensures forall s, t :: NotConserved(s, t) in errors <==>
                && (exists result :: Occurs(records, Key("phase14_started", s, t, result)))
                && Sum(records, Filter("phase14_started", Some(s), Some(t), None))
                   != Sum(records, Filter("phase14_results", Some(s), Some(t), None))
      ensures DroppedIterations in errors <==> Sum(records, Filter("dropped_iterations", None, None, None)) != 0.0
    {
      var scenarioErrors := CheckScenarios(plan);
      var stepErrors := CheckSteps();
      errors := scenarioErrors + stepErrors;
      var dropped := Count(DROPPED);
      if dropped != 0.0 {
        errors := errors + {DroppedIterations};
      }
    }

    method CheckScenarios(plan: map<string, Option<real>>) returns (errors: set<Error>)
      requires Valid()
      ensures forall e :: e in errors <==> (e.PlannedNotStarted? || e.MissingOrInterrupted?) && Raised(e, records, plan)
    {
      errors := {};
      var waiting := plan.Keys;
      while waiting != {}
        invariant waiting <= plan.Keys
        invariant forall e :: e in errors <==>
                    && (e.PlannedNotStarted? || e.MissingOrInterrupted?)
                    && e.scenario !in waiting && Raised(e, records, plan)
        decreases |waiting|
      {
        var s :| s in waiting;
        var a := Count(InScenario("phase14_iterations_started", s));
        var b := Count(InScenario("phase14_iterations_completed", s));
        if plan[s].Some? && a != plan[s].value {
          errors := errors + {PlannedNotStarted(s)};
        }
        if a == 0.0 || a != b {
          errors := errors + {MissingOrInterrupted(s)};
        }
        waiting := waiting - {s};
      }
    }

    function StartedSteps(): set<(string, string)>
      reads this
    {
      set i | 0 <= i < |rows| && rows[i].key.metric == "phase14_started" :: (rows[i].key.scenario, rows[i].key.step)
    }

    lemma {:induction false} StepsAreStarted(s: string, t: string)
      requires Valid()
      ensures (s, t) in StartedSteps() <==> Started(records, s, t)
    {
      if (s, t) in StartedSteps() {
        var i :| 0 <= i < |rows| && rows[i].key.metric == "phase14_started"
                 && (rows[i].key.scenario, rows[i].key.step) == (s, t);
        var k := Key("phase14_started", s, t, rows[i].key.result);
        assert rows[i].key == k && HasRow(rows, k);
      }
      if Started(records, s, t) {
        var result :| Occurs(records, Key("phase14_started", s, t, result));
        assert HasRow(rows, Key("phase14_started", s, t, result));
      }
    }

    method CheckSteps() returns (errors: set<Error>)
      requires Valid()
      ensures forall e :: e in errors <==> e.NotConserved? && Raised(e, records, map[])
    {
      errors := {};
      var waiting := StartedSteps();
      while waiting != {}
        invariant waiting <= StartedSteps()
        invariant forall e :: e in errors <==>
                    && e.NotConserved? && (e.scenario, e.step) in StartedSteps() - waiting
                    && Sum(records, InStep("phase14_started", e.scenario, e.step))
                       != Sum(records, InStep("phase14_results", e.scenario, e.step))
        decreases |waiting|
      {
        var x :| x in waiting;
        var a := Count(InStep("phase14_started", x.0, x.1));
        var b := Count(InStep("phase14_results", x.0, x.1));
        if a != b {
          errors := errors + {NotConserved(x.0, x.1)};
        }
        waiting := waiting - {x};
      }
      forall e: Error | e.NotConserved?
        ensures (e.scenario, e.step) in StartedSteps() <==> Started(records, e.scenario, e.step)
      {
        StepsAreStarted(e.scenario, e.step);
      }
    }
  }

  // ----- What a clean verdict proves -----------------------------------------------------------------------------

  lemma {:induction false} NotStartedSumsToZero(records: seq<Record>, s: string, t: string)
    requires !Started(records, s, t)
    ensures Sum(records, InStep("phase14_started", s, t)) == 0.0
  {
    if records != [] {
      var init, last := records[..|records| - 1], records[|records| - 1];
      assert records == init + [last];
      forall result ensures !Occurs(init, Key("phase14_started", s, t, result)) {
        OccursAfter(init, last, Key("phase14_started", s, t, result));
      }
      NotStartedSumsToZero(init, s, t);
      if Counts(TypesAfter(init), last) && Matches(InStep("phase14_started", s, t), last.key) {
        var k := Key("phase14_started", s, t, last.key.result);
        OccursAfter(init, last, k);
      }
    }
  }

  ghost predicate Conserved(records: seq<Record>, s: string, t: string) {
    Sum(records, InStep("phase14_started", s, t)) == Sum(records, InStep("phase14_results", s, t))
  }

  ghost predicate ResultsNeedStarts(records: seq<Record>, s: string, t: string) {
    Started(records, s, t) || Sum(records, InStep("phase14_results", s, t)) == 0.0
  }

  /** The step check looks only at steps that were started. Without its errors every step is
      conserved exactly when no step has results without a start. */
  lemma {:induction false} ConservedIffAlsoStarted(
    records: seq<Record>, plan: map<string, Option<real>>, errors: set<Error>)
    requires forall e :: e in errors <==> Raised(e, records, plan)
    ensures (forall s, t :: Conserved(records, s, t))
            <==> (forall s, t :: NotConserved(s, t) !in errors) && (forall s, t :: ResultsNeedStarts(records, s, t))
  {
    forall s, t
      ensures Conserved(records, s, t) <==> NotConserved(s, t) !in errors && ResultsNeedStarts(records, s, t)
    {
      assert NotConserved(s, t) in errors <==> Raised(NotConserved(s, t), records, plan);
      if !Started(records, s, t) {
        NotStartedSumsToZero(records, s, t);
      }
    }
  }

  // ----- Evidence that passes and is not conserved ---------------------------------------------------------------

  const RESULTS := {
    "business_success", "business_conflict", "capacity_rejection", "system_error", "unexpected_contract"}

  /** The checks on scenario and result under which a point is read at all. */
  predicate Admitted(r: Record, plan: map<string, Option<real>>) {
    r.Point? ==>
      && ("phase14_" <= r.key.metric ==> r.key.scenario in plan)
      && (r.key.metric == "phase14_results" ==> r.key.result in RESULTS)
  }

  /** One planned iteration that was started and completed, and one result of a step. */
  function Unnoticed(s: string, t: string): seq<Record> {
    [Metric("phase14_iterations_started", "counter"), Metric("phase14_iterations_completed", "counter"),
     Metric("phase14_results", "counter"),
     Point(Key("phase14_iterations_started", s, "", ""), 1.0),
     Point(Key("phase14_iterations_completed", s, "", ""), 1.0),
     Point(Key("phase14_results", s, t, "business_success"), 1.0)]
  }

  lemma {:induction false} UnnoticedSums(s: string, t: string, f: Filter)
    ensures Sum(Unnoticed(s, t), f)
         == (if Matches(f, Key("phase14_iterations_started", s, "", "")) then 1.0 else 0.0)
          + (if Matches(f, Key("phase14_iterations_completed", s, "", "")) then 1.0 else 0.0)
          + (if Matches(f, Key("phase14_results", s, t, "business_success")) then 1.0 else 0.0)
  {
    var all := Unnoticed(s, t);
    var r0, r1, r2, r3, r4 := all[..1], all[..2], all[..3], all[..4], all[..5];
    assert r0 == [] + [all[0]] && r1 == r0 + [all[1]] && r2 == r1 + [all[2]];
    assert r3 == r2 + [all[3]] && r4 == r3 + [all[4]] && all == r4 + [all[5]];
    SumAfter([], all[0], f);
    SumAfter(r0, all[1], f);
    SumAfter(r1, all[2], f);
    SumAfter(r2, all[3], f);
    SumAfter(r3, all[4], f);
    SumAfter(r4, all[5], f);
  }

  lemma {:induction false} UnnoticedHasNoStart(s: string, t: string, x: string, y: string)
    ensures !Started(Unnoticed(s, t), x, y)
  {
    var all := Unnoticed(s, t);
    forall result ensures !Occurs(all, Key("phase14_started", x, y, result)) {
      assert forall i :: 0 <= i < |all| && all[i].Point? ==> all[i].key.metric != "phase14_started";
    }
  }

  /** A result without any start goes unnoticed: the whole report is free of errors, every point is
      one that the aggregation admits, and yet the step is not conserved. */
  lemma {:induction false} ResultWithoutStartGoesUnnoticed(s: string, t: string)
    ensures var records, plan := Unnoticed(s, t), map[s := Some(1.0)];
            && (forall r :: r in records ==> Admitted(r, plan))
            && (forall e :: !Raised(e, records, plan))
            && !Conserved(records, s, t)
  {
    var records, plan := Unnoticed(s, t), map[s := Some(1.0)];
    UnnoticedSums(s, t, DROPPED);
    UnnoticedSums(s, t, InScenario("phase14_iterations_started", s));
    UnnoticedSums(s, t, InScenario("phase14_iterations_completed", s));
    UnnoticedSums(s, t, InStep("phase14_started", s, t));
    UnnoticedSums(s, t, InStep("phase14_results", s, t));
    forall e ensures !Raised(e, records, plan) {
      if e.NotConserved? {
        UnnoticedHasNoStart(s, t, e.scenario, e.step);
      }
    }
  }
}
