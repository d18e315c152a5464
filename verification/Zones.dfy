/** Price zones: the cover check of a profile and the CASE expression generated from it. */
module Zones {
  import opened Wrappers

  datatype Zone = Zone(name: string, rows: int, price: int)

  /** WHEN row_index BETWEEN first AND last THEN the value of a zone. */
  datatype Clause = Clause(first: int, last: int, zone: Zone)

  function RowsBefore(zones: seq<Zone>, k: nat): int
    requires k <= |zones|
  {
    if k == 0 then 0 else RowsBefore(zones, k - 1) + zones[k - 1].rows
  }

  /** Row `row` belongs to zone k when the zones before it end above and zone k does not. */
  predicate InZone(zones: seq<Zone>, k: nat, row: int)
    requires k < |zones|
  {
    RowsBefore(zones, k) < row <= RowsBefore(zones, k + 1)
  }

  predicate PositiveRows(zones: seq<Zone>) {
    forall k :: 0 <= k < |zones| ==> zones[k].rows > 0
  }

  predicate IdentifierChar(c: char) {
    'a' <= c <= 'z' || 'A' <= c <= 'Z' || '0' <= c <= '9' || c == '-'
  }

  /** What the pattern admits once the name is in lower case. */
  predicate Identifier(name: string) {
    name != "" && forall k :: 0 <= k < |name| ==> IdentifierChar(name[k])
  }

  predicate ValidZone(z: Zone) {
    Identifier(z.name) && z.rows > 0 && z.price >= 0
  }

  /** A name of letters, digits and dashes, at least one row, and a price that is not negative. */
  lemma {:induction false} ValidZoneMeans(z: Zone)
    ensures ValidZone(z) <==>
              && |z.name| >= 1 && z.rows >= 1 && z.price >= 0
              && forall k :: 0 <= k < |z.name| ==>
                   var c := z.name[k]; c == '-' || '0' <= c <= '9' || 'A' <= c <= 'Z' || 'a' <= c <= 'z'
  {
  }

  predicate DistinctNames(zones: seq<Zone>) {
    forall i, j :: 0 <= i < j < |zones| ==> zones[i].name != zones[j].name
  }

  /** The zone part of validate_profile: valid zones with distinct names, whose rows add up to the
      layout. */
  method CheckCover(zones: seq<Zone>, layoutRows: int) returns (r: Result<(), string>)
    ensures r.Success? <==>
              && zones != [] && (forall k :: 0 <= k < |zones| ==> ValidZone(zones[k])) && DistinctNames(zones)
              && RowsBefore(zones, |zones|) == layoutRows
  {
    if zones == [] {
      return Failure("priceZones must be a non-empty array");
    }
    var zoneRows := 0;
    var zoneNames: set<string> := {};
    var k := 0;
    while k < |zones|
      invariant k <= |zones|
      invariant zoneRows == RowsBefore(zones, k)
      invariant zoneNames == set i | 0 <= i < k :: zones[i].name
      invariant (forall i :: 0 <= i < k ==> ValidZone(zones[i])) && DistinctNames(zones[..k])
    {
      var zone := zones[k];
      if !Identifier(zone.name) {
        return Failure("zone name must be a non-empty identifier");
      }
      if zone.name in zoneNames {
        var i :| 0 <= i < k && zones[i].name == zone.name;
        assert !DistinctNames(zones);
        return Failure("duplicate zone name");
      }
      if zone.rows <= 0 {
        return Failure("zone rows must be a positive integer");
      }
      if zone.price < 0 {
        return Failure("zone price must be a non-negative integer");
      }
      zoneNames := zoneNames + {zone.name};
      zoneRows := zoneRows + zone.rows;
      k := k + 1;
    }
    assert zones[..k] == zones;
    if zoneRows != layoutRows {
      return Failure("price zone rows must exactly cover the seat layout");
    }
    return Success(());
  }

  ghost predicate ClauseFits(zones: seq<Zone>, k: nat, c: Clause)
    requires k < |zones|
  {
    c.zone == zones[k] && forall row :: c.first <= row <= c.last <==> InZone(zones, k, row)
  }

  method ZoneCase(zones: seq<Zone>) returns (clauses: seq<Clause>)
    ensures |clauses| == |zones|
    ensures forall k :: 0 <= k < |zones| ==> ClauseFits(zones, k, clauses[k])
  {
    clauses := [];
    var firstRow := 1;
    var k := 0;
    while k < |zones|
      invariant k <= |zones| && |clauses| == k
      invariant firstRow == RowsBefore(zones, k) + 1
      invariant forall i :: 0 <= i < k ==> ClauseFits(zones, i, clauses[i])
    {
      var lastRow := firstRow + zones[k].rows - 1;
      clauses := clauses + [Clause(firstRow, lastRow, zones[k])];
      firstRow := lastRow + 1;
      k := k + 1;
    }
  }

  lemma {:induction false} SameRange(a: int, b: int, c: int, d: int)
    requires c < d && forall row {:trigger InRange(row, a, b)} :: InRange(row, a, b) <==> c < row <= d
    ensures a == c + 1 && b == d
  {
    assert InRange(c + 1, a, b) && InRange(d, a, b) && !InRange(c, a, b) && !InRange(d + 1, a, b);
  }

  predicate InRange(row: int, first: int, last: int) {
    first <= row <= last
  }

  lemma {:induction false} ClauseBounds(zones: seq<Zone>, k: nat, c: Clause)
    requires k < |zones| && zones[k].rows > 0 && ClauseFits(zones, k, c)
    ensures c.zone == zones[k] && c.first == RowsBefore(zones, k) + 1 && c.last == RowsBefore(zones, k + 1)
  {
    forall row ensures InRange(row, c.first, c.last) <==> RowsBefore(zones, k) < row <= RowsBefore(zones, k + 1) {
      assert c.first <= row <= c.last <==> InZone(zones, k, row);
    }
    SameRange(c.first, c.last, RowsBefore(zones, k), RowsBefore(zones, k + 1));
  }

  /** The clauses begin at row 1, follow one another without a gap, and have as many rows as their
      zones. */
  lemma {:induction false} ClausesFollow(zones: seq<Zone>, clauses: seq<Clause>, k: nat)
    requires PositiveRows(zones) && k < |clauses| == |zones|
    requires forall i :: 0 <= i < |zones| ==> ClauseFits(zones, i, clauses[i])
    ensures clauses[k].zone == zones[k] && clauses[k].last - clauses[k].first + 1 == zones[k].rows
    ensures clauses[k].first == if k == 0 then 1 else clauses[k - 1].last + 1
  {
    ClauseBounds(zones, k, clauses[k]);
    if k > 0 {
      ClauseBounds(zones, k - 1, clauses[k - 1]);
    }
  }

  /** SQL takes the first clause that matches, and NULL when none does. */
  function Evaluate(clauses: seq<Clause>, row: int): Option<Zone> {
    if clauses == [] then None
    else if clauses[0].first <= row <= clauses[0].last then Some(clauses[0].zone)
    else Evaluate(clauses[1..], row)
  }

  lemma {:induction false} RowsGrow(zones: seq<Zone>, j: nat, k: nat)
    requires PositiveRows(zones) && j <= k <= |zones|
    ensures 0 <= RowsBefore(zones, j) && RowsBefore(zones, j) + (k - j) <= RowsBefore(zones, k)
  {
    if j < k {
      RowsGrow(zones, j, k - 1);
    } else if j > 0 {
      RowsGrow(zones, j - 1, j - 1);
    }
  }

  lemma {:induction false} RowHasZone(zones: seq<Zone>, n: nat, row: int) returns (k: nat)
    requires n <= |zones| && 0 < row <= RowsBefore(zones, n)
    ensures k < n && InZone(zones, k, row)
  {
    if row > RowsBefore(zones, n - 1) {
      k := n - 1;
    } else {
      k := RowHasZone(zones, n - 1, row);
    }
  }

  lemma {:induction false} EvaluateFinds(clauses: seq<Clause>, row: int, k: nat)
    requires k < |clauses| && clauses[k].first <= row <= clauses[k].last
    requires forall i :: 0 <= i < k ==> !(clauses[i].first <= row <= clauses[i].last)
    ensures Evaluate(clauses, row) == Some(clauses[k].zone)
  {
    if k > 0 {
      EvaluateFinds(clauses[1..], row, k - 1);
    }
  }

  lemma {:induction false} EvaluateMisses(clauses: seq<Clause>, row: int)
    requires forall i :: 0 <= i < |clauses| ==> !(clauses[i].first <= row <= clauses[i].last)
    ensures Evaluate(clauses, row) == None
  {
    if clauses != [] {
      EvaluateMisses(clauses[1..], row);
    }
  }

  /** The zones partition the rows 1, 2, ... up to their sum. */
  lemma {:induction false} ZonesPartitionRows(zones: seq<Zone>, row: int)
    requires forall k :: 0 <= k < |zones| ==> zones[k].rows > 0
    ensures 1 <= row <= RowsBefore(zones, |zones|) <==> exists k :: 0 <= k < |zones| && InZone(zones, k, row)
    ensures forall j, k | 0 <= j < |zones| && 0 <= k < |zones| ::
              InZone(zones, j, row) && InZone(zones, k, row) ==> j == k
  {
    if 1 <= row <= RowsBefore(zones, |zones|) {
      var k := RowHasZone(zones, |zones|, row);
    }
    forall k | 0 <= k < |zones| && InZone(zones, k, row) ensures 1 <= row <= RowsBefore(zones, |zones|) {
      RowsGrow(zones, k, k);
      RowsGrow(zones, k + 1, |zones|);
    }
    forall j, k | 0 <= j < k < |zones| ensures !(InZone(zones, j, row) && InZone(zones, k, row)) {
      RowsGrow(zones, j + 1, k);
    }
  }

  /** The generated expression gives each row the value of its zone, and NULL outside the zones. */
  lemma {:induction false} CaseGivesTheZone(zones: seq<Zone>, clauses: seq<Clause>, row: int)
    requires PositiveRows(zones) && |clauses| == |zones|
    requires forall k :: 0 <= k < |zones| ==> ClauseFits(zones, k, clauses[k])
    ensures Evaluate(clauses, row).Some? <==> 1 <= row <= RowsBefore(zones, |zones|)
    ensures forall k :: 0 <= k < |zones| && InZone(zones, k, row) ==> Evaluate(clauses, row) == Some(zones[k])
  {
    ZonesPartitionRows(zones, row);
    assert forall k :: 0 <= k < |zones| ==> (clauses[k].first <= row <= clauses[k].last <==> InZone(zones, k, row)) by {
      forall k | 0 <= k < |zones| ensures clauses[k].first <= row <= clauses[k].last <==> InZone(zones, k, row) {
        assert ClauseFits(zones, k, clauses[k]);
      }
    }
    if k :| 0 <= k < |zones| && InZone(zones, k, row) {
      assert ClauseFits(zones, k, clauses[k]);
      EvaluateFinds(clauses, row, k);
    } else {
      EvaluateMisses(clauses, row);
    }
  }

  /** For positive zones the sum check is exact: it passes if and only if precisely the rows of the
      layout get a value. */
  lemma {:induction false} CoverCheckIsExact(zones: seq<Zone>, clauses: seq<Clause>, layoutRows: nat)
    requires PositiveRows(zones) && |clauses| == |zones|
    requires forall k :: 0 <= k < |zones| ==> ClauseFits(zones, k, clauses[k])
    ensures RowsBefore(zones, |zones|) == layoutRows
            <==> forall row :: 1 <= row <= layoutRows <==> Evaluate(clauses, row).Some?
  {
    var sum := RowsBefore(zones, |zones|);
    RowsGrow(zones, 0, |zones|);
    forall row ensures Evaluate(clauses, row).Some? <==> 1 <= row <= sum {
      CaseGivesTheZone(zones, clauses, row);
    }
    if sum != layoutRows {
      var row := if sum < layoutRows then sum + 1 else layoutRows + 1;
      assert !(1 <= row <= layoutRows <==> Evaluate(clauses, row).Some?);
    }
  }
}
