/** The one-pass check of the index slices handed to the workloads. */
module Slices {
  import opened Wrappers
  import opened Sorting
  import Seats

  datatype Slice = Slice(start: int, end: int)

  predicate Holds(s: Slice, index: int) {
    s.start <= index < s.end
  }

  predicate Fits(s: Slice, limit: int) {
    0 <= s.start < s.end <= limit
  }

  predicate Disjoint(a: Slice, b: Slice) {
    a.end <= b.start || b.end <= a.start
  }

  /** Every slice is non-empty and in range, and no two share an index. */
  predicate AllFit(values: seq<Slice>, limit: int) {
    forall k :: 0 <= k < |values| ==> Fits(values[k], limit)
  }

  predicate PairwiseDisjoint(values: seq<Slice>) {
    forall i, j :: 0 <= i < j < |values| ==> Disjoint(values[i], values[j])
  }

  lemma {:induction false} DisjointSharesNoIndex(a: Slice, b: Slice)
    requires a.start < a.end && b.start < b.end
    ensures Disjoint(a, b) <==> !exists index :: Holds(a, index) && Holds(b, index)
  {
    var index := if a.start < b.start then b.start else a.start;
    assert !Disjoint(a, b) ==> Holds(a, index) && Holds(b, index);
  }

  /** Python compares pairs lexicographically. */
  predicate Leq(a: Slice, b: Slice) {
    a.start < b.start || (a.start == b.start && a.end <= b.end)
  }

  lemma {:induction false} LeqIsTotal()
    ensures TotalOrder(Leq)
  {
  }

  // ----- Sorting keeps what the check looks at -------------------------------------------------------

  predicate ClearOf(a: Slice, values: seq<Slice>) {
    forall k :: 0 <= k < |values| ==> Disjoint(a, values[k])
  }

  predicate Apart(values: seq<Slice>) {
    values == [] || (ClearOf(values[0], values[1..]) && Apart(values[1..]))
  }

  lemma {:induction false} ApartMeansPairwise(values: seq<Slice>)
    ensures Apart(values) <==> PairwiseDisjoint(values)
  {
    if values != [] {
      var rest := values[1..];
      ApartMeansPairwise(rest);
      if Apart(values) {
        forall i, j | 0 <= i < j < |values| ensures Disjoint(values[i], values[j]) {
          assert values[j] == rest[j - 1];
          if i > 0 {
            assert values[i] == rest[i - 1];
          }
        }
      }
      if PairwiseDisjoint(values) {
        assert forall k :: 0 <= k < |rest| ==> rest[k] == values[k + 1];
        assert PairwiseDisjoint(rest);
      }
    }
  }

  lemma {:induction false} ClearOfHead(a: Slice, b: Slice, rest: seq<Slice>)
    ensures ClearOf(a, [b] + rest) <==> Disjoint(a, b) && ClearOf(a, rest)
  {
    var all := [b] + rest;
    assert all[0] == b && forall k :: 0 <= k < |rest| ==> rest[k] == all[k + 1];
    assert forall k :: 0 < k < |all| ==> all[k] == rest[k - 1];
  }

  lemma {:induction false} ClearOfInsert(a: Slice, x: Slice, values: seq<Slice>)
    ensures ClearOf(a, Insert(Leq, x, values)) <==> Disjoint(a, x) && ClearOf(a, values)
  {
    if values == [] || Leq(x, values[0]) {
      ClearOfHead(a, x, values);
    } else {
      ClearOfInsert(a, x, values[1..]);
      ClearOfHead(a, values[0], Insert(Leq, x, values[1..]));
      ClearOfHead(a, values[0], values[1..]);
      assert values == [values[0]] + values[1..];
    }
  }

  lemma {:induction false} ClearOfSort(a: Slice, values: seq<Slice>)
    ensures ClearOf(a, Sort(Leq, values)) <==> ClearOf(a, values)
  {
    if values != [] {
      ClearOfSort(a, values[1..]);
      ClearOfInsert(a, values[0], Sort(Leq, values[1..]));
      ClearOfHead(a, values[0], values[1..]);
      assert values == [values[0]] + values[1..];
    }
  }

  lemma {:induction false} InsertApart(x: Slice, values: seq<Slice>)
    ensures Apart(Insert(Leq, x, values)) <==> ClearOf(x, values) && Apart(values)
  {
    if values == [] || Leq(x, values[0]) {
      assert ([x] + values)[1..] == values;
    } else {
      var rest := Insert(Leq, x, values[1..]);
      InsertApart(x, values[1..]);
      ClearOfInsert(values[0], x, values[1..]);
      ClearOfHead(x, values[0], values[1..]);
      assert values == [values[0]] + values[1..];
      assert ([values[0]] + rest)[1..] == rest;
    }
  }

  lemma {:induction false} SortApart(values: seq<Slice>)
    ensures Apart(Sort(Leq, values)) <==> Apart(values)
  {
    if values != [] {
      SortApart(values[1..]);
      InsertApart(values[0], Sort(Leq, values[1..]));
      ClearOfSort(values[0], values[1..]);
    }
  }

  lemma {:induction false} SortKeepsVerdict(values: seq<Slice>, limit: int)
    ensures SortedBy(Leq, Sort(Leq, values))
    ensures AllFit(Sort(Leq, values), limit) <==> AllFit(values, limit)
    ensures PairwiseDisjoint(Sort(Leq, values)) <==> PairwiseDisjoint(values)
  {
    var sorted := Sort(Leq, values);
    LeqIsTotal();
    SortSorts(Leq, values);
    SameSlicesFit(sorted, values, limit);
    SameSlicesFit(values, sorted, limit);
    SortApart(values);
    ApartMeansPairwise(values);
    ApartMeansPairwise(sorted);
  }

  lemma {:induction false} SameSlicesFit(a: seq<Slice>, b: seq<Slice>, limit: int)
    requires multiset(a) == multiset(b)
    ensures AllFit(a, limit) ==> AllFit(b, limit)
  {
    forall k | 0 <= k < |b| && AllFit(a, limit) ensures Fits(b[k], limit) {
      assert b[k] in multiset(a);
    }
  }

  // ----- _intervals() --------------------------------------------------------------------------------

  /** The end of the slice before position k. */
  function EndBefore(sorted: seq<Slice>, k: nat): int
    requires k <= |sorted|
  {
    if k == 0 then 0 else sorted[k - 1].end
  }

  lemma {:induction false} Rejects(sorted: seq<Slice>, k: nat, limit: int)
    requires k < |sorted| && (k > 0 ==> Leq(sorted[k - 1], sorted[k]) && Fits(sorted[k - 1], limit))
    requires sorted[k].start < EndBefore(sorted, k) || sorted[k].end <= sorted[k].start || sorted[k].end > limit
    ensures !(AllFit(sorted, limit) && PairwiseDisjoint(sorted))
  {
    if Fits(sorted[k], limit) {
      assert !Disjoint(sorted[k - 1], sorted[k]);
    }
  }

  /** The slices before position k fit and follow one another. */
  predicate Chained(sorted: seq<Slice>, k: nat, limit: int)
    requires k <= |sorted|
  {
    && (forall i :: 0 <= i < k ==> Fits(sorted[i], limit) && sorted[i].end <= EndBefore(sorted, k))
    && (forall i, j :: 0 <= i < j < k ==> sorted[i].end <= sorted[j].start)
  }

  method Intervals(values: seq<Slice>, limit: int) returns (r: Result<(), string>)
    ensures r.Success? <==> AllFit(values, limit) && PairwiseDisjoint(values)
  {
    var sorted := Sort(Leq, values);
    SortKeepsVerdict(values, limit);
    var previous := 0;
    var k := 0;
    while k < |sorted|
      invariant k <= |sorted| && previous == EndBefore(sorted, k) && Chained(sorted, k, limit)
    {
      var x := sorted[k];
      if x.start < previous || x.end <= x.start || x.end > limit {
        Rejects(sorted, k, limit);
        return Failure("invalid, overlapping or exhausted slices");
      }
      previous := x.end;
      k := k + 1;
    }
    return Success(());
  }

  /** No index is in two of the accepted slices, and every index in one of them is within the limit. */
  lemma {:induction false} AcceptedSlicesShareNothing(values: seq<Slice>, limit: int, index: int)
    requires AllFit(values, limit) && PairwiseDisjoint(values)
    ensures forall i :: 0 <= i < |values| && values[i].start <= index < values[i].end ==> 0 <= index < limit
    ensures forall i :: 0 <= i < |values| ==> 0 <= values[i].start < values[i].end <= limit
    ensures forall i, j | 0 <= i < |values| && 0 <= j < |values| ::
              values[i].start <= index < values[i].end && values[j].start <= index < values[j].end ==> i == j
  {
    assert forall i :: 0 <= i < |values| ==> Fits(values[i], limit);
    forall i, j | 0 <= i < j < |values| ensures values[i].end <= values[j].start || values[j].end <= values[i].start {
      assert Disjoint(values[i], values[j]);
    }
  }

  /** Accepted seat slices give every seat id to at most one of them. */
  lemma {:induction false} SlicesGiveDisjointSeats(values: seq<Slice>, d: Seats.Shape, i: int, x: int, j: int, y: int)
    requires d.Valid() && 0 <= i < |values| && 0 <= j < |values| && i != j
    requires AllFit(values, d.events * d.sessionsPerEvent * d.seatsPerSession) && PairwiseDisjoint(values)
    requires Holds(values[i], x) && Holds(values[j], y)
    ensures Seats.SeatAt(x, d, None).Success? && Seats.SeatAt(y, d, None).Success?
    ensures Seats.InPool(Seats.SeatAt(x, d, None).value, d.events * d.sessionsPerEvent, d)
    ensures Seats.InPool(Seats.SeatAt(y, d, None).value, d.events * d.sessionsPerEvent, d)
    ensures Seats.IdsOf(Seats.SeatAt(x, d, None).value).sessionSeatId
         != Seats.IdsOf(Seats.SeatAt(y, d, None).value).sessionSeatId
  {
    assert Fits(values[i], d.events * d.sessionsPerEvent * d.seatsPerSession);
    assert Fits(values[j], d.events * d.sessionsPerEvent * d.seatsPerSession);
    if i < j {
      assert Disjoint(values[i], values[j]);
    } else {
      assert Disjoint(values[j], values[i]);
    }
    Seats.SeatHasIndex(x, d, None);
    Seats.SeatHasIndex(y, d, None);
    var a, b := Seats.SeatAt(x, d, None).value, Seats.SeatAt(y, d, None).value;
    if Seats.IdsOf(a).sessionSeatId == Seats.IdsOf(b).sessionSeatId {
      Seats.SeatIdsAreUnique(a, b);
    }
  }
}
