/** The hand-off of one unit of work between bulkhead permits.  One callback chain owns a Work,
    so its transitions and completions follow one another, while other work takes and returns
    permits of the same bulkheads in between. */
module TrafficControl {
  import opened Wrappers
  import opened Bulkhead

  const INVENTORY_WRITE := 3

  /** The permit counters, with acquire() and release as the atomic operations that the Bulkhead
      module shows them to be. */
  class PermitTable {
    const limits: seq<nat>
    var active: seq<nat>

    ghost predicate Valid()
      reads this
    {
      ValidLimits(limits) && |active| == RESOURCES
    }

    constructor (limits: seq<nat>)
      requires ValidLimits(limits)
      ensures Valid() && this.limits == limits && active == IDLE.active
    {
      this.limits := limits;
      active := [0, 0, 0, 0, 0, 0, 0, 0];
    }

    method Acquire(i: nat) returns (ok: bool)
      requires Valid() && i < RESOURCES
      modifies this
      ensures Valid() && ok == (old(active)[i] < limits[i])
      ensures active == if ok then old(active)[i := old(active)[i] + 1] else old(active)
    {
      ok := active[i] < limits[i];
      if ok {
        active := active[i := active[i] + 1];
      }
    }

    method Release(i: nat)
      requires Valid() && i < RESOURCES && active[i] > 0
      modifies this
      ensures Valid() && active == old(active)[i := old(active)[i] - 1]
    {
      active := active[i := active[i] - 1];
    }
  }

  /** One permit fewer of what a pointer held, with the wrap-around of an unsigned counter. */
  function Without(active: seq<nat>, permit: Option<nat>): seq<nat> {
    if permit.Some? && permit.value < |active|
    then active[permit.value := Decrement(active[permit.value])] else active
  }

  function With(active: seq<nat>, permit: Option<nat>): seq<nat> {
    if permit.Some? && permit.value < |active| then active[permit.value := active[permit.value] + 1] else active
  }

  // ----- One work among others, step by step -------------------------------------------------------

  /** Where the chain that owns the work is: in transition() behind permit.reset() or behind
      acquire(), in the bound completion behind the exchange or behind permit.reset(), or neither. */
  datatype Pc = Idle | Emptied(resource: nat) | Acquired | Finishing | Replying

  /** `field` is what Work::permit holds, `temporary` what acquire() returned and nobody has
      assigned yet; `others[i]` are the permits of resource i that other work holds. */
  datatype World = World(
    active: seq<nat>, others: seq<nat>, field: Option<nat>, temporary: Option<nat>,
    pc: Pc, completed: bool, replies: nat)

  const START := World(IDLE.active, IDLE.active, None, None, Idle, false, 0)

  function Count(permit: Option<nat>, i: nat): nat {
    if permit == Some(i) then 1 else 0
  }

  /** The permits that this work keeps from being released, wherever it keeps them. */
  function Held(w: World): multiset<nat> {
    (if w.field.Some? then multiset{w.field.value} else multiset{})
    + (if w.temporary.Some? then multiset{w.temporary.value} else multiset{})
  }

  datatype Op =
    | Reset(resource: nat)
    | Acquire
    | Assign
    | Exchange
    | Free
    | Reply
    | OtherTakes(resource: nat)
    | OtherReleases(resource: nat)

  /** The program counter alone decides which step of its own the work takes next. */
  predicate Enabled(w: World, op: Op) {
    match op
    case Reset(r) => w.pc.Idle? && r < RESOURCES
    case Acquire => w.pc.Emptied?
    case Assign => w.pc.Acquired?
    case Exchange => w.pc.Idle?
    case Free => w.pc.Finishing?
    case Reply => w.pc.Replying?
    case OtherTakes(r) => r < RESOURCES
    case OtherReleases(r) => r < RESOURCES && r < |w.others| && w.others[r] > 0
  }

  predicate Room(limits: seq<nat>, active: seq<nat>, r: nat) {
    r < |active| && r < |limits| && active[r] < limits[r]
  }

  function Step(limits: seq<nat>, w: World, op: Op): World
    requires Enabled(w, op)
  {
    match op
    case Reset(r) => w.(active := Without(w.active, w.field), field := None, pc := Emptied(r))
    case Acquire =>
      var got := if Room(limits, w.active, w.pc.resource) then Some(w.pc.resource) else None;
      w.(active := With(w.active, got), temporary := got, pc := Acquired)
    case Assign =>
      w.(active := Without(w.active, w.field), field := w.temporary, temporary := None, pc := Idle)
    case Exchange => if w.completed then w else w.(completed := true, pc := Finishing)
    case Free => w.(active := Without(w.active, w.field), field := None, pc := Replying)
    case Reply => w.(replies := w.replies + 1, pc := Idle)
    case OtherTakes(r) =>
      if Room(limits, w.active, r)
      then w.(active := With(w.active, Some(r)), others := With(w.others, Some(r))) else w
    case OtherReleases(r) => w.(active := Without(w.active, Some(r)), others := Without(w.others, Some(r)))
  }

  /** What the work can hold, and whether it has replied, at each point of its code. */
  predicate PcFits(w: World) {
    && (w.pc.Idle? || w.pc.Finishing? ==> w.temporary.None?)
    && (w.pc.Emptied? ==> w.pc.resource < RESOURCES)
    && (w.pc.Emptied? || w.pc.Replying? ==> w.field.None? && w.temporary.None?)
    && (w.pc.Acquired? ==> w.field.None?)
    && (w.pc.Finishing? || w.pc.Replying? ==> w.completed && w.replies == 0)
    && (!w.pc.Finishing? && !w.pc.Replying? ==> w.replies == if w.completed then 1 else 0)
  }

  predicate Conserved(limits: seq<nat>, w: World) {
    && ValidLimits(limits) && |w.active| == |w.others| == RESOURCES
    && (w.field.Some? ==> w.field.value < RESOURCES)
    && (w.temporary.Some? ==> w.temporary.value < RESOURCES)
    && forall i :: 0 <= i < RESOURCES ==>
         w.active[i] == w.others[i] + Count(w.field, i) + Count(w.temporary, i) <= limits[i]
  }

  lemma {:induction false} StepConserves(limits: seq<nat>, w: World, op: Op)
    requires Conserved(limits, w) && PcFits(w) && Enabled(w, op)
    ensures Conserved(limits, Step(limits, w, op))
  {
    if w.field.Some? {
      assert w.active[w.field.value] >= 1;
    }
    if op.OtherReleases? {
      assert w.active[op.resource] >= w.others[op.resource];
    }
  }

  predicate StepAt(limits: seq<nat>, worlds: seq<World>, ops: seq<Op>, k: int)
    requires 0 <= k < |ops| < |worlds|
  {
    Enabled(worlds[k], ops[k]) && worlds[k + 1] == Step(limits, worlds[k], ops[k])
  }

  ghost predicate IsHistory(limits: seq<nat>, worlds: seq<World>, ops: seq<Op>) {
    && ValidLimits(limits)
    && |worlds| == |ops| + 1
    && worlds[0] == START
    && forall k :: 0 <= k < |ops| ==> StepAt(limits, worlds, ops, k)
  }

  lemma {:induction false} HistoryFits(limits: seq<nat>, worlds: seq<World>, ops: seq<Op>, k: nat)
    requires IsHistory(limits, worlds, ops) && k < |worlds|
    ensures Conserved(limits, worlds[k]) && PcFits(worlds[k])
  {
    if k > 0 {
      HistoryFits(limits, worlds, ops, k - 1);
      assert StepAt(limits, worlds, ops, k - 1);
      StepConserves(limits, worlds[k - 1], ops[k - 1]);
    }
  }

  /** At every instant, also inside a transition and a completion, the work holds at most one
      permit, the counters are what it and the others hold, within the limits, and it has replied at
      most once, never before it is completed or while it is being freed. */
  lemma {:induction false} WorkHoldsAtMostOnePermit(limits: seq<nat>, worlds: seq<World>, ops: seq<Op>, k: nat)
    requires IsHistory(limits, worlds, ops) && k < |worlds|
    ensures var w := worlds[k];
            && |Held(w)| <= 1
            && |w.active| == |w.others| == RESOURCES
            && (forall i: nat :: i < RESOURCES ==> w.active[i] == w.others[i] + Held(w)[i] <= limits[i])
            && w.replies <= 1 && (w.replies == 1 ==> w.completed)
            && (w.pc.Finishing? || w.pc.Replying? ==> w.replies == 0)
  {
    HistoryFits(limits, worlds, ops, k);
    var w := worlds[k];
    forall i: nat | i < RESOURCES ensures Held(w)[i] == Count(w.field, i) + Count(w.temporary, i) {
    }
  }

  /** The work always has a next step of its own; other work can take a permit exactly where there is
      room, release exactly what it holds, and undo the one by the other. */
  lemma {:induction false} NobodyIsStuck(limits: seq<nat>, worlds: seq<World>, ops: seq<Op>, k: nat, r: nat)
    requires IsHistory(limits, worlds, ops) && k < |worlds| && r < RESOURCES
    ensures var w := worlds[k];
            match w.pc
            case Idle => Enabled(w, Reset(r)) && Enabled(w, Exchange)
            case Emptied(_) => Enabled(w, Acquire)
            case Acquired => Enabled(w, Assign)
            case Finishing => Enabled(w, Free)
            case Replying => Enabled(w, Reply)
    ensures var w := worlds[k];
            && |w.active| == |w.others| == |limits| == RESOURCES
            && (Enabled(w, OtherReleases(r)) <==> w.others[r] > 0)
            && Enabled(w, OtherTakes(r))
            && var taken := Step(limits, w, OtherTakes(r));
               if w.active[r] < limits[r]
               then Enabled(taken, OtherReleases(r)) && taken != w && Step(limits, taken, OtherReleases(r)) == w
               else taken == w
  {
    HistoryFits(limits, worlds, ops, k);
  }

  // ----- After the completion --------------------------------------------------------------------------

  /** The acquisition at n found room, which its caller could have seen in the counters before, and
      no transition has been started between it and k. */
  ghost predicate RoomSince(limits: seq<nat>, worlds: seq<World>, ops: seq<Op>, n: nat, k: nat)
    requires |worlds| == |ops| + 1 && k < |worlds|
  {
    && n < k && ops[n].Acquire?
    && worlds[n].pc.Emptied? && Room(limits, worlds[n].active, worlds[n].pc.resource)
    && forall p :: n < p < k ==> !ops[p].Reset?
  }

  /** m is the step by which the completion frees the permit. */
  lemma {:induction false} StaysCompleted(limits: seq<nat>, worlds: seq<World>, ops: seq<Op>, m: nat, k: nat)
    requires IsHistory(limits, worlds, ops) && m < k < |worlds| && ops[m].Free?
    ensures worlds[k].completed && !worlds[k].pc.Finishing?
  {
    HistoryFits(limits, worlds, ops, m);
    assert StepAt(limits, worlds, ops, k - 1);
    if k > m + 1 {
      StaysCompleted(limits, worlds, ops, m, k - 1);
    }
  }

  predicate Holding(w: World) {
    w.field.Some? || w.temporary.Some?
  }

  lemma {:induction false} HoldingIsHeld(w: World)
    ensures Held(w) != multiset{} <==> Holding(w)
  {
    if w.field.Some? {
      assert w.field.value in Held(w);
    } else if w.temporary.Some? {
      assert w.temporary.value in Held(w);
    }
  }

  lemma {:induction false} HoldingAfter(limits: seq<nat>, w: World, op: Op)
    requires PcFits(w) && Enabled(w, op) && w.completed && !w.pc.Finishing?
    ensures Holding(Step(limits, w, op)) <==>
              || (op.Acquire? && Room(limits, w.active, w.pc.resource))
              || (Holding(w) && !op.Reset?)
  {
  }

  ghost predicate LateRoom(limits: seq<nat>, worlds: seq<World>, ops: seq<Op>, m: nat, k: nat)
    requires |worlds| == |ops| + 1 && k < |worlds|
  {
    exists n :: m < n && RoomSince(limits, worlds, ops, n, k)
  }

  lemma {:induction false} LateRoomAfter(limits: seq<nat>, worlds: seq<World>, ops: seq<Op>, m: nat, k: nat)
    requires |worlds| == |ops| + 1 && m < k < |ops|
    requires ops[k].Acquire? ==> worlds[k].pc.Emptied?
    ensures LateRoom(limits, worlds, ops, m, k + 1) <==>
              || (ops[k].Acquire? && Room(limits, worlds[k].active, worlds[k].pc.resource))
              || (LateRoom(limits, worlds, ops, m, k) && !ops[k].Reset?)
  {
    if LateRoom(limits, worlds, ops, m, k) && !ops[k].Reset? {
      var n :| m < n && RoomSince(limits, worlds, ops, n, k);
      assert RoomSince(limits, worlds, ops, n, k + 1);
    }
    if LateRoom(limits, worlds, ops, m, k + 1) {
      var next := k + 1;
      var n :| m < n && RoomSince(limits, worlds, ops, n, next);
      assert n < k ==> RoomSince(limits, worlds, ops, n, k);
    }
    if ops[k].Acquire? && Room(limits, worlds[k].active, worlds[k].pc.resource) {
      assert RoomSince(limits, worlds, ops, k, k + 1);
    }
  }

  lemma {:induction false} HoldingIffLateRoom(
    limits: seq<nat>, worlds: seq<World>, ops: seq<Op>, m: nat, k: nat)
    requires IsHistory(limits, worlds, ops) && m < k < |worlds| && ops[m].Free?
    ensures Holding(worlds[k]) <==> LateRoom(limits, worlds, ops, m, k)
  {
    HistoryFits(limits, worlds, ops, k - 1);
    assert StepAt(limits, worlds, ops, k - 1);
    if k > m + 1 {
      HoldingIffLateRoom(limits, worlds, ops, m, k - 1);
      StaysCompleted(limits, worlds, ops, m, k - 1);
      HoldingAfter(limits, worlds[k - 1], ops[k - 1]);
      LateRoomAfter(limits, worlds, ops, m, k - 1);
    }
  }

  /** A completed work holds a permit exactly when a transition after its completion found room and
      none has been started since. */
  lemma {:induction false} CompletedWorkHoldsOnlyLatePermits(
    limits: seq<nat>, worlds: seq<World>, ops: seq<Op>, m: nat, k: nat)
    requires IsHistory(limits, worlds, ops) && m < k < |worlds| && ops[m].Free?
    ensures worlds[k].completed
    ensures Held(worlds[k]) != multiset{} <==> LateRoom(limits, worlds, ops, m, k)
  {
    StaysCompleted(limits, worlds, ops, m, k);
    HoldingIsHeld(worlds[k]);
    HoldingIffLateRoom(limits, worlds, ops, m, k);
  }

  /** A work that starts no transition after its completion never holds a permit again. */
  lemma {:induction false} NothingHeldAfterCompletion(
    limits: seq<nat>, worlds: seq<World>, ops: seq<Op>, m: nat, k: nat)
    requires IsHistory(limits, worlds, ops) && m < k < |worlds| && ops[m].Free?
    requires forall p :: m < p < k ==> !ops[p].Reset?
    ensures Held(worlds[k]) == multiset{} && (worlds[k].pc.Idle? || worlds[k].pc.Replying?)
  {
    HoldingIsHeld(worlds[k]);
    assert StepAt(limits, worlds, ops, k - 1);
    if k > m + 1 {
      NothingHeldAfterCompletion(limits, worlds, ops, m, k - 1);
      StaysCompleted(limits, worlds, ops, m, k - 1);
      HistoryFits(limits, worlds, ops, k - 1);
      HoldingIsHeld(worlds[k - 1]);
      HoldingAfter(limits, worlds[k - 1], ops[k - 1]);
    } else {
      HistoryFits(limits, worlds, ops, m);
    }
  }

  /** The concrete run: complete a work, then start a transition. */
  lemma {:induction false} LateTransitionKeepsPermit(limits: seq<nat>) returns (worlds: seq<World>, ops: seq<Op>)
    requires ValidLimits(limits)
    ensures IsHistory(limits, worlds, ops)
    ensures var w := worlds[|worlds| - 1]; w.pc.Idle? && w.completed && w.replies == 1 && Held(w) == multiset{0}
  {
    ops := [Exchange, Free, Reply, Reset(0), Acquire, Assign];
    var w1 := Step(limits, START, Exchange);
    var w2 := Step(limits, w1, Free);
    var w3 := Step(limits, w2, Reply);
    var w4 := Step(limits, w3, Reset(0));
    var w5 := Step(limits, w4, Acquire);
    worlds := [START, w1, w2, w3, w4, w5, Step(limits, w5, Assign)];
  }

  // ----- The code takes these steps ----------------------------------------------------------------------

  predicate Runs(limits: seq<nat>, w: World, ops: seq<Op>)
    decreases |ops|
  {
    ops == [] || (Enabled(w, ops[0]) && Runs(limits, Step(limits, w, ops[0]), ops[1..]))
  }

  function Execute(limits: seq<nat>, w: World, ops: seq<Op>): World
    requires Runs(limits, w, ops)
    decreases |ops|
  {
    if ops == [] then w else Execute(limits, Step(limits, w, ops[0]), ops[1..])
  }

  lemma {:induction false} ExecuteOne(limits: seq<nat>, w: World, op: Op)
    requires Enabled(w, op)
    ensures Runs(limits, w, [op]) && Execute(limits, w, [op]) == Step(limits, w, op)
  {
    assert [op][1..] == [];
  }

  lemma {:induction false} ExecuteThree(limits: seq<nat>, w: World, a: Op, b: Op, c: Op)
    requires Enabled(w, a) && Enabled(Step(limits, w, a), b) && Enabled(Step(limits, Step(limits, w, a), b), c)
    ensures Runs(limits, w, [a, b, c])
    ensures Execute(limits, w, [a, b, c]) == Step(limits, Step(limits, Step(limits, w, a), b), c)
  {
    assert [a, b, c][1..] == [b, c] && [b, c][1..] == [c];
    ExecuteOne(limits, Step(limits, Step(limits, w, a), b), c);
  }

  class Work {
    var permit: Option<nat>
    var completed: bool
    /** How often the bound reply has been called. */
    var replies: nat

    constructor ()
      ensures permit == None && !completed && replies == 0
    {
      permit, completed, replies := None, false, 0;
    }

    /** The permit this work holds is counted in the table. */
    ghost predicate Holds(table: PermitTable)
      reads this, table
    {
      && table.Valid()
      && (permit.Some? ==> permit.value < RESOURCES && table.active[permit.value] > 0)
    }

    /** This work between two calls, among others that hold all other permits of the table. */
    ghost function View(table: PermitTable): World
      reads this, table
    {
      World(table.active, Without(table.active, permit), permit, None, Idle, completed, replies)
    }

    method ResetPermit(table: PermitTable)
      requires Holds(table)
      modifies this`permit, table
      ensures Holds(table) && permit == None
      ensures table.active == Without(old(table.active), old(permit))
    {
      if permit.Some? {
        table.Release(permit.value);
        permit := None;
      }
    }

    /** Answers the resource that is overloaded, if it is.  The three steps are those of the
        machine, in this order. */
    method Transition(table: PermitTable, resource: nat) returns (overloaded: Option<nat>, pausesSession: bool)
      requires Holds(table) && resource < RESOURCES
      modifies this, table
      ensures Holds(table)
      ensures Runs(table.limits, old(View(table)), [Reset(resource), Acquire, Assign])
      ensures View(table) == Execute(table.limits, old(View(table)), [Reset(resource), Acquire, Assign])
      ensures var kept := Without(old(table.active), old(permit));
              && permit == (if Room(table.limits, kept, resource) then Some(resource) else None)
              && table.active == With(kept, permit) && completed == old(completed) && replies == old(replies)
      ensures overloaded == (if permit.None? then Some(resource) else None)
      ensures pausesSession == (permit.None? && resource == 3)
    {
      ghost var w := View(table);
      ExecuteThree(table.limits, w, Reset(resource), Acquire, Assign);
      ResetPermit(table);
      var ok := table.Acquire(resource);
      if ok {
        permit := Some(resource);
        return None, false;
      }
      return Some(resource), resource == INVENTORY_WRITE;
    }

    /** The function that bind() returns: only the first call frees the permit, and it does so
        before it replies. */
    method Complete(table: PermitTable)
      requires Holds(table)
      modifies this, table
      ensures Holds(table)
      ensures var ops := if old(completed) then [Exchange] else [Exchange, Free, Reply];
              Runs(table.limits, old(View(table)), ops) && View(table) == Execute(table.limits, old(View(table)), ops)
      ensures completed && replies == old(replies) + (if old(completed) then 0 else 1)
      ensures permit == (if old(completed) then old(permit) else None)
    {
      ghost var w := View(table);
      if completed {
        ExecuteOne(table.limits, w, Exchange);
        return;
      }
      ExecuteThree(table.limits, w, Exchange, Free, Reply);
      completed := true;
      ResetPermit(table);
      replies := replies + 1;
    }
  }
}
