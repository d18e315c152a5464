/** The numbering of seats: indices, seats and printed ids correspond one to one. */
module Seats {
  import opened Wrappers
  import opened Decimal

  /** The dimensions of the dataset; validate_profile admits positive ones only. */
  datatype Shape = Shape(events: int, sessionsPerEvent: int, seatsPerSession: int) {
    predicate Valid() {
      events > 0 && sessionsPerEvent > 0 && seatsPerSession > 0
    }
  }

  datatype Seat = Seat(event: int, session: int, number: int)

  /** The ids written for a seat: its session and the seat within it. */
  datatype Ids = Ids(sessionId: string, sessionSeatId: string)

  // ----- Quotient and remainder --------------------------------------------------------------------

  lemma {:induction false} TimesGrows(x: int, y: int, d: int)
    requires d >= 0 && x <= y
    ensures x * d <= y * d
  {
    assert (y - x) * d >= 0;
  }

  lemma {:induction false} Bounds(a: int, d: int, q: int)
    requires 0 <= a < q * d && d > 0
    ensures 0 <= a / d < q
  {
    assert a == (a / d) * d + a % d;
    if a / d >= q {
      TimesGrows(q, a / d, d);
    }
  }

  lemma {:induction false} Recompose(q: int, r: int, d: int)
    requires 0 <= r < d
    ensures (q * d + r) / d == q && (q * d + r) % d == r
  {
    var a := q * d + r;
    var e := a / d;
    assert a == e * d + a % d;
    if e > q {
      TimesGrows(q + 1, e, d);
    } else if e < q {
      TimesGrows(e + 1, q, d);
    }
  }

  // ----- seat() ------------------------------------------------------------------------------------

  /** `session_count or events * sessionsPerEvent`: an absent count and a zero count both fall back. */
  function SessionCount(d: Shape, sessionCount: Option<int>): int {
    match sessionCount
    case Some(n) => if n != 0 then n else d.events * d.sessionsPerEvent
    case None => d.events * d.sessionsPerEvent
  }

  function SeatNumbered(index: int, count: int, sessionsPerEvent: int): Seat
    requires count > 0 && sessionsPerEvent > 0
  {
    var ordinal := index % count;
    Seat(ordinal / sessionsPerEvent + 1, ordinal % sessionsPerEvent + 1, index / count + 1)
  }

  function SeatAt(index: int, d: Shape, sessionCount: Option<int>): Result<Seat, string>
    requires d.Valid()
  {
    var count := SessionCount(d, sessionCount);
    if index < 0 || index >= count * d.seatsPerSession then Failure("seat pool exhausted")
    else
      PoolHasSessions(index, count, d.seatsPerSession);
      Success(SeatNumbered(index, count, d.sessionsPerEvent))
  }

  lemma {:induction false} PoolHasSessions(index: int, count: int, seats: int)
    requires 0 <= index < count * seats && seats > 0
    ensures count > 0
  {
    if count <= 0 {
      TimesGrows(count, 0, seats);
    }
  }

  /** The seats of the first `count` sessions. */
  predicate InPool(s: Seat, count: int, d: Shape) {
    && s.event >= 1 && 1 <= s.session <= d.sessionsPerEvent && 1 <= s.number <= d.seatsPerSession
    && (s.event - 1) * d.sessionsPerEvent + (s.session - 1) < count
  }

  function IndexOf(s: Seat, count: int, d: Shape): int {
    (s.number - 1) * count + ((s.event - 1) * d.sessionsPerEvent + (s.session - 1))
  }

  /** seat() succeeds exactly on the indices of the pool, stays in the pool, and IndexOf undoes it. */
  lemma {:induction false} SeatHasIndex(index: int, d: Shape, sessionCount: Option<int>)
    requires d.Valid()
    ensures SeatAt(index, d, sessionCount).Success? <==> 0 <= index < SessionCount(d, sessionCount) * d.seatsPerSession
    ensures var r := SeatAt(index, d, sessionCount);
            var count := SessionCount(d, sessionCount);
            r.Success? ==> InPool(r.value, count, d) && IndexOf(r.value, count, d) == index
    ensures var r := SeatAt(index, d, sessionCount);
            var count := if sessionCount in {None, Some(0)} then d.events * d.sessionsPerEvent else sessionCount.value;
            && (r.Success? <==> 0 <= index < count * d.seatsPerSession)
            && (r.Success? ==>
              && r.value.event >= 1 && 1 <= r.value.session <= d.sessionsPerEvent
              && 1 <= r.value.number <= d.seatsPerSession
              && (r.value.event - 1) * d.sessionsPerEvent + r.value.session - 1 < count
              && index == (r.value.number - 1) * count + (r.value.event - 1) * d.sessionsPerEvent + r.value.session - 1)
  {
    var count := SessionCount(d, sessionCount);
    if SeatAt(index, d, sessionCount).Success? {
      PoolHasSessions(index, count, d.seatsPerSession);
      assert index < d.seatsPerSession * count;
      Bounds(index, count, d.seatsPerSession);
      var ordinal := index % count;
      assert ordinal == (ordinal / d.sessionsPerEvent) * d.sessionsPerEvent + ordinal % d.sessionsPerEvent;
      assert index == (index / count) * count + ordinal;
    }
  }

  /** Every seat of the pool is the seat of exactly its own index. */
  lemma {:induction false} IndexHasSeat(s: Seat, d: Shape, sessionCount: Option<int>)
    requires d.Valid() && InPool(s, SessionCount(d, sessionCount), d)
    ensures SeatAt(IndexOf(s, SessionCount(d, sessionCount), d), d, sessionCount) == Success(s)
  {
    var count := SessionCount(d, sessionCount);
    var ordinal := (s.event - 1) * d.sessionsPerEvent + (s.session - 1);
    TimesGrows(0, s.event - 1, d.sessionsPerEvent);
    Recompose(s.number - 1, ordinal, count);
    Recompose(s.event - 1, s.session - 1, d.sessionsPerEvent);
    IndexFits(s.number, ordinal, count, d.seatsPerSession);
  }

  lemma {:induction false} IndexFits(number: int, ordinal: int, count: int, seats: int)
    requires 1 <= number <= seats && 0 <= ordinal < count
    ensures 0 <= (number - 1) * count + ordinal < count * seats
  {
    TimesGrows(0, number - 1, count);
    TimesGrows(number, seats, count);
    assert (number - 1) * count + count == number * count;
  }

  lemma {:induction false} SeatIsInjective(i: int, j: int, d: Shape, sessionCount: Option<int>)
    requires d.Valid()
    requires SeatAt(i, d, sessionCount).Success?
    requires SeatAt(i, d, sessionCount) == SeatAt(j, d, sessionCount)
    ensures i == j
  {
    SeatHasIndex(i, d, sessionCount);
    SeatHasIndex(j, d, sessionCount);
  }

  // ----- Printed ids ---------------------------------------------------------------------------------

  function Labelled(word: string, body: string): string {
    "perf-" + (word + "-" + body)
  }

  /** performance_id() on non-negative parts. */
  function PerformanceId(kind: string, parts: seq<nat>): Result<string, string> {
    if kind == "user" then One("user", parts, 6)
    else if kind == "auth" then One("auth", parts, 6)
    else if kind == "venue" || kind == "event" then One(kind, parts, 3)
    else if kind == "session" then
      if |parts| < 2 then Failure("tuple index out of range")
      else Success(Labelled("session", Padded(parts[0], 3) + "-" + Padded(parts[1], 3)))
    else if kind == "seat" then One("seat", parts, 6)
    else if kind == "session-seat" then
      if |parts| < 3 then Failure("tuple index out of range")
      else Success(Labelled("ss", Padded(parts[0], 3) + "-" + (Padded(parts[1], 3) + "-" + Padded(parts[2], 6))))
    else Failure("unknown performance id kind")
  }

  function One(word: string, parts: seq<nat>, width: nat): Result<string, string> {
    if |parts| < 1 then Failure("tuple index out of range") else Success(Labelled(word, Padded(parts[0], width)))
  }

  /** How many parts an id of this kind prints; further ones are ignored. */
  function Arity(kind: string): nat {
    if kind == "session" then 2 else if kind == "session-seat" then 3 else 1
  }

  lemma {:induction false} SamePrefix(prefix: string, x: string, y: string)
    requires prefix + x == prefix + y
    ensures x == y
  {
    assert (prefix + x)[|prefix|..] == x;
    assert (prefix + y)[|prefix|..] == y;
  }

  lemma {:induction false} PaddedIsInjective(m: nat, n: nat, width: nat)
    requires Padded(m, width) == Padded(n, width)
    ensures m == n
  {
    ValueOfPadded(m, width);
    ValueOfPadded(n, width);
  }

  lemma {:induction false} PairIsInjective(m: nat, n: nat, width: nat, x: string, y: string)
    requires Padded(m, width) + "-" + x == Padded(n, width) + "-" + y
    ensures m == n && x == y
  {
    SplitsAtSeparator(Padded(m, width), x, Padded(n, width), y, '-');
    PaddedIsInjective(m, n, width);
  }

  lemma {:induction false} LabelledIsInjective(word: string, x: string, y: string)
    requires Labelled(word, x) == Labelled(word, y)
    ensures x == y
  {
    SamePrefix("perf-", word + "-" + x, word + "-" + y);
    SamePrefix(word + "-", x, y);
  }

  lemma {:induction false} SessionIsInjective(x: seq<nat>, y: seq<nat>)
    requires PerformanceId("session", x).Success? && PerformanceId("session", x) == PerformanceId("session", y)
    ensures |x| >= 2 && |y| >= 2 && x[0] == y[0] && x[1] == y[1]
  {
    LabelledIsInjective("session", Padded(x[0], 3) + "-" + Padded(x[1], 3), Padded(y[0], 3) + "-" + Padded(y[1], 3));
    PairIsInjective(x[0], y[0], 3, Padded(x[1], 3), Padded(y[1], 3));
    PaddedIsInjective(x[1], y[1], 3);
  }

  lemma {:induction false} SessionSeatIsInjective(x: seq<nat>, y: seq<nat>)
    requires PerformanceId("session-seat", x).Success?
    requires PerformanceId("session-seat", x) == PerformanceId("session-seat", y)
    ensures |x| >= 3 && |y| >= 3 && x[0] == y[0] && x[1] == y[1] && x[2] == y[2]
  {
    var p, q := Padded(x[1], 3) + "-" + Padded(x[2], 6), Padded(y[1], 3) + "-" + Padded(y[2], 6);
    LabelledIsInjective("ss", Padded(x[0], 3) + "-" + p, Padded(y[0], 3) + "-" + q);
    PairIsInjective(x[0], y[0], 3, p, q);
    PairIsInjective(x[1], y[1], 3, Padded(x[2], 6), Padded(y[2], 6));
    PaddedIsInjective(x[2], y[2], 6);
  }

  lemma {:induction false} OneIsInjective(word: string, width: nat, x: seq<nat>, y: seq<nat>)
    requires One(word, x, width).Success? && One(word, x, width) == One(word, y, width)
    ensures |x| >= 1 && |y| >= 1 && x[0] == y[0]
  {
    LabelledIsInjective(word, Padded(x[0], width), Padded(y[0], width));
    PaddedIsInjective(x[0], y[0], width);
  }

  lemma {:induction false} SameKindIsInjective(kind: string, x: seq<nat>, y: seq<nat>)
    requires PerformanceId(kind, x).Success? && PerformanceId(kind, x) == PerformanceId(kind, y)
    ensures |x| >= Arity(kind) && |y| >= Arity(kind) && x[..Arity(kind)] == y[..Arity(kind)]
  {
    if kind == "session" {
      SessionIsInjective(x, y);
    } else if kind == "session-seat" {
      SessionSeatIsInjective(x, y);
    } else {
      OneIsInjective(kind, if kind == "venue" || kind == "event" then 3 else 6, x, y);
    }
  }

  /** What an id says between "perf-" and the next dash. */
  function Word(kind: string): string {
    if kind == "session-seat" then "ss" else kind
  }

  predicate NoDash(s: string) {
    forall k :: 0 <= k < |s| ==> s[k] != '-'
  }

  lemma {:induction false} StartsWithWord(kind: string, parts: seq<nat>) returns (rest: string)
    requires PerformanceId(kind, parts).Success?
    ensures kind != "ss" && NoDash(Word(kind))
    ensures PerformanceId(kind, parts).value == Labelled(Word(kind), rest)
  {
    if kind == "session" {
      rest := Padded(parts[0], 3) + "-" + Padded(parts[1], 3);
    } else if kind == "session-seat" {
      rest := Padded(parts[0], 3) + "-" + (Padded(parts[1], 3) + "-" + Padded(parts[2], 6));
    } else if kind == "venue" || kind == "event" {
      rest := Padded(parts[0], 3);
    } else {
      rest := Padded(parts[0], 6);
    }
  }

  lemma {:induction false} WordEndsAtDash(a: string, x: string, b: string, y: string)
    requires NoDash(a) && NoDash(b) && a + "-" + x == b + "-" + y
    ensures a == b
  {
    var s := a + "-" + x;
    assert s[|a|] == '-' && s[|b|] == '-';
    assert forall k :: 0 <= k < |a| ==> s[k] == a[k];
    assert forall k :: 0 <= k < |b| ==> s[k] == b[k];
    assert a == s[..|a|] && b == s[..|b|];
  }

  /** No two things share an id: equal ids mean the same kind and the same printed parts. */
  lemma {:induction false} IdsAreUnique(kind: string, x: seq<nat>, other: string, y: seq<nat>)
    requires PerformanceId(kind, x).Success? && PerformanceId(kind, x) == PerformanceId(other, y)
    ensures kind == other && |x| >= Arity(kind) && |y| >= Arity(kind) && x[..Arity(kind)] == y[..Arity(kind)]
    ensures |x| >= 1 && |y| >= 1 && x[0] == y[0]
    ensures kind == "session" || kind == "session-seat" ==> |x| >= 2 && |y| >= 2 && x[1] == y[1]
    ensures kind == "session-seat" ==> |x| >= 3 && |y| >= 3 && x[2] == y[2]
  {
    var p := StartsWithWord(kind, x);
    var q := StartsWithWord(other, y);
    SamePrefix("perf-", Word(kind) + "-" + p, Word(other) + "-" + q);
    WordEndsAtDash(Word(kind), p, Word(other), q);
    SameKindIsInjective(kind, x, y);
    SamePrefixParts(x, y, Arity(kind));
  }

  lemma {:induction false} SamePrefixParts(x: seq<nat>, y: seq<nat>, n: nat)
    requires n <= |x| && n <= |y| && x[..n] == y[..n]
    ensures forall k :: 0 <= k < n ==> x[k] == y[k]
  {
    assert forall k :: 0 <= k < n ==> x[..n][k] == y[..n][k];
  }

  function IdsOf(s: Seat): Ids
    requires s.event >= 0 && s.session >= 0 && s.number >= 0
  {
    Ids(PerformanceId("session", [s.event, s.session]).value,
        PerformanceId("session-seat", [s.event, s.session, s.number]).value)
  }

  /** What the ids look like, with numbers padded to three or six digits. */
  lemma {:induction false} ShortIdsAreLiteral(a: nat)
    ensures PerformanceId("user", [a]) == Success("perf-user-" + Padded(a, 6))
    ensures PerformanceId("auth", [a]) == Success("perf-auth-" + Padded(a, 6))
    ensures PerformanceId("venue", [a]) == Success("perf-venue-" + Padded(a, 3))
    ensures PerformanceId("event", [a]) == Success("perf-event-" + Padded(a, 3))
    ensures PerformanceId("seat", [a]) == Success("perf-seat-" + Padded(a, 6))
  {
    LabelledIsPrefix("user", Padded(a, 6), "perf-user-");
    LabelledIsPrefix("auth", Padded(a, 6), "perf-auth-");
    LabelledIsPrefix("venue", Padded(a, 3), "perf-venue-");
    LabelledIsPrefix("event", Padded(a, 3), "perf-event-");
    LabelledIsPrefix("seat", Padded(a, 6), "perf-seat-");
  }

  lemma {:induction false} SessionIdsAreLiteral(a: nat, b: nat)
    ensures PerformanceId("session", [a, b]) == Success("perf-session-" + Padded(a, 3) + "-" + Padded(b, 3))
  {
    LabelledIsPrefix("session", Padded(a, 3) + "-" + Padded(b, 3), "perf-session-");
    Appended("perf-session-", Padded(a, 3), Padded(b, 3));
  }

  lemma {:induction false} SessionSeatIdsAreLiteral(a: nat, b: nat, c: nat)
    ensures PerformanceId("session-seat", [a, b, c])
         == Success("perf-ss-" + Padded(a, 3) + "-" + Padded(b, 3) + "-" + Padded(c, 6))
  {
    LabelledIsPrefix("ss", Padded(a, 3) + "-" + (Padded(b, 3) + "-" + Padded(c, 6)), "perf-ss-");
    Appended("perf-ss-", Padded(a, 3), Padded(b, 3) + "-" + Padded(c, 6));
    Appended("perf-ss-" + Padded(a, 3) + "-", Padded(b, 3), Padded(c, 6));
  }

  lemma {:induction false} LabelledIsPrefix(word: string, body: string, prefix: string)
    requires prefix == "perf-" + word + "-"
    ensures Labelled(word, body) == prefix + body
  {
  }

  lemma {:induction false} Appended(prefix: string, x: string, y: string)
    ensures prefix + (x + "-" + y) == prefix + x + "-" + y
  {
  }

  lemma {:induction false} SeatIdsAreUnique(a: Seat, b: Seat)
    requires a.event >= 0 && a.session >= 0 && a.number >= 0
    requires b.event >= 0 && b.session >= 0 && b.number >= 0
    requires IdsOf(a).sessionSeatId == IdsOf(b).sessionSeatId
    ensures a == b
  {
    var x: seq<nat>, y: seq<nat> := [a.event, a.session, a.number], [b.event, b.session, b.number];
    IdsAreUnique("session-seat", x, "session-seat", y);
    assert x[..3] == x && y[..3] == y;
    assert x[0] == y[0] && x[1] == y[1] && x[2] == y[2];
  }

  // ----- The exported file -----------------------------------------------------------------------------

  predicate IsRow(row: Ids, index: int, d: Shape)
    requires d.Valid()
  {
    var r := SeatAt(index, d, None);
    r.Success? && InPool(r.value, d.events * d.sessionsPerEvent, d) && row == IdsOf(r.value)
  }

  method ExportSeats(d: Shape) returns (rows: seq<Ids>)
    requires d.Valid()
    ensures |rows| == d.events * d.sessionsPerEvent * d.seatsPerSession
    ensures forall i :: 0 <= i < |rows| ==> IsRow(rows[i], i, d)
  {
    var sessions := d.events * d.sessionsPerEvent;
    var sessionSeats := sessions * d.seatsPerSession;
    rows := [];
    var i := 0;
    while i < sessionSeats
      invariant 0 <= i <= sessionSeats && |rows| == i
      invariant forall k :: 0 <= k < i ==> IsRow(rows[k], k, d)
    {
      var session, number := i % sessions, i / sessions + 1;
      var e, s := session / d.sessionsPerEvent + 1, session % d.sessionsPerEvent + 1;
      SeatHasIndex(i, d, None);
      assert SeatAt(i, d, None) == Success(Seat(e, s, number));
      var row := Ids(PerformanceId("session", [e, s]).value, PerformanceId("session-seat", [e, s, number]).value);
      assert IsRow(row, i, d);
      rows := rows + [row];
      i := i + 1;
    }
  }

  /** No seat is exported twice. */
  lemma {:induction false} RowsAreDistinct(d: Shape, i: int, j: int, x: Ids, y: Ids)
    requires d.Valid() && IsRow(x, i, d) && IsRow(y, j, d) && x.sessionSeatId == y.sessionSeatId
    ensures i == j
  {
    SeatIdsAreUnique(SeatAt(i, d, None).value, SeatAt(j, d, None).value);
    SeatIsInjective(i, j, d, None);
  }

  // ----- hotspot() -------------------------------------------------------------------------------------

  datatype Hotspot = Hotspot(users: int, seats: int, contendersPerSeat: int) {
    predicate Valid() {
      seats > 0 && contendersPerSeat > 0 && users == seats * contendersPerSeat
    }
  }

  /** The seat index that hot user `index` goes for. */
  function Target(index: int, h: Hotspot, sessionCount: int, single: bool, smoke: bool): int
    requires h.Valid()
  {
    if single then 0
    else if smoke && h.seats < sessionCount then index / h.contendersPerSeat * (sessionCount / h.seats)
    else index / h.contendersPerSeat
  }

  function HotSeat(index: int, h: Hotspot, d: Shape, sessionCount: int, single: bool, smoke: bool): Result<Seat, string>
    requires h.Valid() && d.Valid()
  {
    if !(0 <= index < h.users) then Failure("hotspot user exhausted")
    else SeatAt(Target(index, h, sessionCount, single, smoke), d, Some(sessionCount))
  }

  lemma {:induction false} TargetsMeetInBlocks(i: int, j: int, h: Hotspot, sessionCount: int, smoke: bool)
    requires h.Valid()
    ensures Target(i, h, sessionCount, false, smoke) == Target(j, h, sessionCount, false, smoke)
            <==> i / h.contendersPerSeat == j / h.contendersPerSeat
  {
    if smoke && h.seats < sessionCount {
      var a, b, k := i / h.contendersPerSeat, j / h.contendersPerSeat, sessionCount / h.seats;
      assert k >= 1;
      if a > b {
        TimesGrows(b + 1, a, k);
      } else if a < b {
        TimesGrows(a + 1, b, k);
      }
    }
  }

  /** Hot users contend for the same seat exactly when they are in the same block of
      `contendersPerSeat` users. */
  lemma {:induction false} HotUsersMeetInBlocks(i: int, j: int, h: Hotspot, d: Shape, sessionCount: int, smoke: bool)
    requires h.Valid() && d.Valid()
    requires HotSeat(i, h, d, sessionCount, false, smoke).Success?
    requires HotSeat(j, h, d, sessionCount, false, smoke).Success?
    ensures HotSeat(i, h, d, sessionCount, false, smoke) == HotSeat(j, h, d, sessionCount, false, smoke)
            <==> i / h.contendersPerSeat == j / h.contendersPerSeat
  {
    TargetsMeetInBlocks(i, j, h, sessionCount, smoke);
    var a, b := Target(i, h, sessionCount, false, smoke), Target(j, h, sessionCount, false, smoke);
    if SeatAt(a, d, Some(sessionCount)) == SeatAt(b, d, Some(sessionCount)) {
      SeatIsInjective(a, b, d, Some(sessionCount));
    }
  }

  /** Which seat a hot user goes for: all users the first one in a single hotspot, and otherwise each
      block of contenders its own, spread evenly over the sessions in a small smoke run. */
  lemma {:induction false} HotSeatHasIndex(
      index: int, h: Hotspot, d: Shape, sessionCount: int, single: bool, smoke: bool)
    requires h.Valid() && d.Valid() && sessionCount > 0
    ensures var block := index / h.contendersPerSeat;
            var target := if single then 0
                          else if smoke && h.seats < sessionCount then block * (sessionCount / h.seats)
                          else block;
            var r := HotSeat(index, h, d, sessionCount, single, smoke);
            && (r.Success? <==> 0 <= index < h.users && 0 <= target < sessionCount * d.seatsPerSession)
            && (r.Success? ==> IndexOf(r.value, sessionCount, d) == target)
  {
    SeatHasIndex(Target(index, h, sessionCount, single, smoke), d, Some(sessionCount));
  }

  /** Spreading a smoke hotspot over many sessions never leaves the pool: the targets stay in the
      first seats of the sessions. */
  lemma {:induction false} SmokeHotspotFits(index: int, h: Hotspot, d: Shape, sessionCount: int)
    requires h.Valid() && d.Valid() && 0 <= index < h.users && h.seats < sessionCount
    ensures HotSeat(index, h, d, sessionCount, false, true).Success?
    ensures HotSeat(index, h, d, sessionCount, false, true).value.number == 1
  {
    var a, k := index / h.contendersPerSeat, sessionCount / h.seats;
    Bounds(index, h.contendersPerSeat, h.seats);
    ScaledFits(a, h.seats, k, sessionCount, d.seatsPerSession);
    assert Target(index, h, sessionCount, false, true) == a * k;
    assert (a * k) / sessionCount == 0;
  }

  lemma {:induction false} ScaledFits(a: int, seats: int, k: int, sessionCount: int, seatsPerSession: int)
    requires 0 <= a < seats < sessionCount && k == sessionCount / seats && seatsPerSession >= 1
    ensures 0 <= a * k < sessionCount <= sessionCount * seatsPerSession
  {
    assert sessionCount == seats * k + sessionCount % seats;
    TimesGrows(1, seatsPerSession, sessionCount);
    TimesGrows(0, a, k);
    TimesGrows(a + 1, seats, k);
  }
}
