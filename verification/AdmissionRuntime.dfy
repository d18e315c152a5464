/** The process-local copy of all admission policies, its epoch-fenced refresh, and the
    administrator requests that invalidate it between their commit and their reply. */
module AdmissionRuntime {
  import opened Wrappers
  import opened AdmissionPolicy

  type EventId = string
  type SessionId = string

  datatype RuntimePolicy = RuntimePolicy(policy: Policy, redisReady: bool)

  /** `sessions` gives the event of a session; `refreshed` is when the last refresh was installed, in
      milliseconds of the steady clock. */
  datatype Cache = Cache(
    loaded: bool, dirty: bool, redisDirty: bool, invalidation: nat, policies: map<EventId, RuntimePolicy>,
    sessions: map<SessionId, EventId>, refreshed: int)

  const INITIAL_CACHE := Cache(false, true, true, 0, map[], map[], 0)
  const FRESH_FOR := 15000

  // ----- The critical sections, as functions of the cache -----------------------------------

  /** Loaded and not invalidated since; ready() asks for a recent refresh on top. */
  predicate Ready(c: Cache) {
    c.loaded && !c.dirty
  }

  predicate ReadyAt(c: Cache, now: int) {
    Ready(c) && now - c.refreshed < FRESH_FOR
  }

  function Invalidate(c: Cache): Cache {
    c.(dirty := true, invalidation := c.invalidation + 1)
  }

  function RefreshFailed(c: Cache): Cache {
    c.(dirty := true)
  }

  function RedisUnavailable(c: Cache): Cache {
    c.(redisDirty := true, policies := map id | id in c.policies :: c.policies[id].(redisReady := false))
  }

  /** The end of a refresh that sampled `epoch` before it read the database. */
  function Install(c: Cache, epoch: nat, next: map<EventId, RuntimePolicy>, nextSessions: map<SessionId, EventId>,
                   redisHealthy: bool, now: int): Cache {
    if epoch != c.invalidation then
      c
    else
      c.(loaded := true, dirty := false, redisDirty := !redisHealthy, policies := next, sessions := nextSessions,
         refreshed := now)
  }

  /** The guarded globals of the process; each method is one critical section. */
  class RuntimeCache {
    var loaded: bool
    var dirty: bool
    var redisDirty: bool
    var invalidation: nat
    var policies: map<EventId, RuntimePolicy>
    var sessions: map<SessionId, EventId>
    var refreshed: int

    ghost function Contents(): Cache
      reads this
    {
      Cache(loaded, dirty, redisDirty, invalidation, policies, sessions, refreshed)
    }

    constructor ()
      ensures Contents() == INITIAL_CACHE
    {
      loaded, dirty, redisDirty, invalidation := false, true, true, 0;
      policies, sessions, refreshed := map[], map[], 0;
    }

    method SampleEpoch() returns (epoch: nat)
      ensures epoch == Contents().invalidation
    {
      epoch := invalidation;
    }

    method InstallIfCurrent(epoch: nat, next: map<EventId, RuntimePolicy>, nextSessions: map<SessionId, EventId>,
                            redisHealthy: bool, now: int)
      modifies this
      ensures Contents() == Install(old(Contents()), epoch, next, nextSessions, redisHealthy, now)
      ensures invalidation == old(invalidation)
      ensures epoch == invalidation ==>
                && loaded && !dirty && redisDirty == !redisHealthy
                && policies == next && sessions == nextSessions && refreshed == now
      ensures epoch != invalidation ==> Contents() == old(Contents())
    {
      if epoch != invalidation {
        return;
      }
      policies := next;
      sessions := nextSessions;
      loaded := true;
      dirty := false;
      redisDirty := !redisHealthy;
      refreshed := now;
    }

    method MarkDirty()
      modifies this
      ensures Contents() == RefreshFailed(old(Contents()))
      ensures dirty && loaded == old(loaded) && redisDirty == old(redisDirty) && invalidation == old(invalidation)
      ensures policies == old(policies) && sessions == old(sessions) && refreshed == old(refreshed)
    {
      dirty := true;
    }

    method BumpEpoch()
      modifies this
      ensures Contents() == Invalidate(old(Contents()))
      ensures dirty && invalidation == old(invalidation) + 1
      ensures loaded == old(loaded) && redisDirty == old(redisDirty)
      ensures policies == old(policies) && sessions == old(sessions) && refreshed == old(refreshed)
    {
      dirty := true;
      invalidation := invalidation + 1;
    }

    method ClearRedis()
      modifies this
      ensures Contents() == RedisUnavailable(old(Contents()))
      ensures redisDirty && policies.Keys == old(policies).Keys
      ensures forall id :: id in policies ==> policies[id] == RuntimePolicy(old(policies)[id].policy, false)
      ensures loaded == old(loaded) && dirty == old(dirty) && invalidation == old(invalidation)
      ensures sessions == old(sessions) && refreshed == old(refreshed)
    {
      redisDirty := true;
      var todo := policies.Keys;
      while todo != {}
        invariant todo <= policies.Keys == old(policies).Keys
        invariant forall id :: id in policies && id in todo ==> policies[id] == old(policies)[id]
        invariant forall id :: id in policies && id !in todo ==>
                    policies[id] == old(policies)[id].(redisReady := false)
        invariant redisDirty && loaded == old(loaded) && dirty == old(dirty) && invalidation == old(invalidation)
        invariant sessions == old(sessions) && refreshed == old(refreshed)
        decreases todo
      {
        var id :| id in todo;
        policies := policies[id := policies[id].(redisReady := false)];
        todo := todo - {id};
      }
    }

    method IsReady(now: int) returns (ready: bool)
      ensures ready == ReadyAt(Contents(), now) == (loaded && !dirty && now < refreshed + 15000)
    {
      ready := loaded && !dirty && now - refreshed < FRESH_FOR;
    }

    method Lookup(id: EventId) returns (found: Option<RuntimePolicy>)
      ensures found == (if id in Contents().policies then Some(Contents().policies[id]) else None)
    {
      if id in policies {
        found := Some(policies[id]);
      } else {
        found := None;
      }
    }
  }

  // ----- The whole system: database, cache, refresh worker, local administrators ---------------

  datatype Worker =
    | Idle
    | Sampled(epoch: nat)
    | Fetched(epoch: nat, rows: map<EventId, Policy>)

  /** A successful PUT handled by this process, after it invalidated the cache; `stamp` is the
      epoch that its invalidation started. */
  datatype Call = Call(stamp: nat, answered: bool)

  datatype System = System(
    stores: map<EventId, Store>, cache: Cache, worker: Worker, calls: map<(EventId, TxId), Call>)

  function InitialSystem(): System {
    System(map[], INITIAL_CACHE, Idle, map[])
  }

  function DatabasePolicies(stores: map<EventId, Store>): map<EventId, Policy> {
    map id | id in stores :: ReadPolicy(stores[id].row)
  }

  function CachedPolicies(c: Cache): map<EventId, Policy> {
    map id | id in c.policies :: c.policies[id].policy
  }

  predicate AnsweredOk(stores: map<EventId, Store>, id: EventId, t: TxId) {
    && id in stores && t in stores[id].txs
    && stores[id].txs[t].request.Put?
    && stores[id].txs[t].pc.Committed? && stores[id].txs[t].pc.acknowledged
  }

  datatype Event =
    | AddEvent(id: EventId)
    | StoreStep(id: EventId, step: Step)
    | SampleEpoch
    | FetchRows
    | InstallRows(ready: set<EventId>, sessions: map<SessionId, EventId>, redisHealthy: bool, now: int)
    | RefreshFails
    | RedisDown
    | InvalidateFor(id: EventId, t: TxId)
    | Reply(id: EventId, t: TxId)

  predicate Possible(s: System, e: Event) {
    match e
    case AddEvent(id) => id !in s.stores
    case StoreStep(id, step) => id in s.stores && Enabled(s.stores[id], step)
    case SampleEpoch => s.worker.Idle?
    case FetchRows => s.worker.Sampled?
    case InstallRows(_, _, _, _) => s.worker.Fetched?
    case RefreshFails => !s.worker.Idle?
    case RedisDown => s.worker.Idle?
    case InvalidateFor(id, t) => AnsweredOk(s.stores, id, t) && (id, t) !in s.calls
    case Reply(id, t) => (id, t) in s.calls && !s.calls[(id, t)].answered
  }

  function After(s: System, e: Event): System
    requires Possible(s, e)
  {
    match e
    case AddEvent(id) => s.(stores := s.stores[id := EMPTY_STORE])
    case StoreStep(id, step) => s.(stores := s.stores[id := Apply(s.stores[id], step)])
    case SampleEpoch => s.(worker := Sampled(s.cache.invalidation))
    case FetchRows => s.(worker := Fetched(s.worker.epoch, DatabasePolicies(s.stores)))
    case InstallRows(ready, sessions, redisHealthy, now) =>
      var next := map id | id in s.worker.rows :: RuntimePolicy(s.worker.rows[id], id in ready);
      s.(cache := Install(s.cache, s.worker.epoch, next, sessions, redisHealthy, now), worker := Idle)
    case RefreshFails => s.(cache := RefreshFailed(s.cache), worker := Idle)
    case RedisDown => s.(cache := RedisUnavailable(s.cache))
    case InvalidateFor(id, t) =>
      s.(cache := Invalidate(s.cache), calls := s.calls[(id, t) := Call(s.cache.invalidation + 1, false)])
    case Reply(id, t) => s.(calls := s.calls[(id, t) := s.calls[(id, t)].(answered := true)])
  }

  ghost predicate SystemNext(s: System, s': System) {
    exists e: Event :: Possible(s, e) && s' == After(s, e)
  }

  ghost predicate StepAt(run: seq<System>, i: int)
    requires 0 <= i < |run| - 1
  {
    SystemNext(run[i], run[i + 1])
  }

  ghost predicate IsSystemRun(run: seq<System>) {
    && |run| > 0
    && run[0] == InitialSystem()
    && forall i :: 0 <= i < |run| - 1 ==> StepAt(run, i)
  }

  // ----- Invariants over a run -----------------------------------------------------------------

  ghost predicate AllInv(s: System) {
    forall id :: id in s.stores ==> Inv(s.stores[id])
  }

  ghost predicate StoreGrows(s: Store, s': Store) {
    && Version(s) <= Version(s')
    && forall t :: t in s.txs && s.txs[t].pc.Committed? ==> t in s'.txs && s'.txs[t] == s.txs[t]
  }

  ghost predicate StoresGrow(s: System, s': System) {
    forall id :: id in s.stores ==> id in s'.stores && StoreGrows(s.stores[id], s'.stores[id])
  }

  lemma {:induction false} StepRaisesVersion(s: Store, step: Step)
    requires Inv(s) && Enabled(s, step)
    ensures Version(s) <= Version(Apply(s, step))
  {
    if step.Commit? {
      assert TxFits(s, step.t);
      CurrentIsSnapshot(s);
    }
  }

  lemma {:induction false} StepGrowsStore(s: Store, step: Step)
    requires Inv(s) && Enabled(s, step)
    ensures StoreGrows(s, Apply(s, step))
  {
    StepRaisesVersion(s, step);
  }

  lemma {:induction false} StoreStepKeepsStores(s: System, e: Event)
    requires Possible(s, e) && AllInv(s) && e.StoreStep?
    ensures AllInv(After(s, e)) && StoresGrow(s, After(s, e))
  {
    var s' := After(s, e);
    var after := Apply(s.stores[e.id], e.step);
    NextKeepsInv(s.stores[e.id], e.step);
    StepGrowsStore(s.stores[e.id], e.step);
    assert s'.stores == s.stores[e.id := after];
    forall id | id in s'.stores ensures Inv(s'.stores[id]) {
      assert id == e.id || s'.stores[id] == s.stores[id];
    }
  }

  lemma {:induction false} OtherEventKeepsStores(s: System, e: Event)
    requires Possible(s, e) && AllInv(s) && !e.StoreStep?
    ensures AllInv(After(s, e)) && StoresGrow(s, After(s, e))
  {
    var s' := After(s, e);
    forall id | id in s'.stores ensures Inv(s'.stores[id]) {
      assert s'.stores[id] == EMPTY_STORE || (id in s.stores && s'.stores[id] == s.stores[id]);
    }
  }

  lemma {:induction false} RunKeepsStores(run: seq<System>, i: nat)
    requires IsSystemRun(run) && i < |run|
    ensures AllInv(run[i])
    ensures i > 0 ==> StoresGrow(run[i - 1], run[i])
  {
    if i > 0 {
      RunKeepsStores(run, i - 1);
      assert StepAt(run, i - 1);
      var e: Event :| Possible(run[i - 1], e) && run[i] == After(run[i - 1], e);
      if e.StoreStep? {
        StoreStepKeepsStores(run[i - 1], e);
      } else {
        OtherEventKeepsStores(run[i - 1], e);
      }
    }
  }

  ghost predicate WorkerMoves(s: System, s': System) {
    && (s'.worker.Sampled? && s'.worker != s.worker ==> s'.worker.epoch == s.cache.invalidation)
    && (s'.worker.Fetched? && s'.worker != s.worker ==>
          && s.worker.Sampled? && s'.worker.epoch == s.worker.epoch && s'.cache == s.cache
          && s'.worker.rows == DatabasePolicies(s'.stores))
  }

  ghost predicate CacheMoves(s: System, s': System) {
    && s.cache.invalidation <= s'.cache.invalidation
    && (!Ready(s'.cache) ==> CachedPolicies(s'.cache) == CachedPolicies(s.cache))
    && (Ready(s'.cache) ==>
          && s'.cache.invalidation == s.cache.invalidation
          && ((Ready(s.cache) && CachedPolicies(s'.cache) == CachedPolicies(s.cache))
              || (s.worker.Fetched? && s.worker.epoch == s.cache.invalidation
                  && CachedPolicies(s'.cache) == s.worker.rows)))
  }

  ghost predicate CallsMove(s: System, s': System) {
    && (forall c :: c in s.calls ==> c in s'.calls && s'.calls[c].stamp == s.calls[c].stamp)
    && (forall c :: c in s'.calls && c !in s.calls ==>
          && s'.calls[c].stamp == s.cache.invalidation + 1 == s'.cache.invalidation
          && s'.stores == s.stores && AnsweredOk(s.stores, c.0, c.1))
  }

  /** What any single event does to the cache, its worker and the pending calls. */
  ghost predicate Moves(s: System, s': System) {
    WorkerMoves(s, s') && CacheMoves(s, s') && CallsMove(s, s')
  }

  lemma {:induction false} EventMovesCache(s: System, e: Event)
    requires Possible(s, e)
    ensures CacheMoves(s, After(s, e))
  {
    var s' := After(s, e);
    if e.InstallRows? && s.worker.epoch == s.cache.invalidation {
      assert CachedPolicies(s'.cache) == s.worker.rows;
    } else {
      assert CachedPolicies(s'.cache) == CachedPolicies(s.cache);
    }
  }

  lemma {:induction false} EventMovesCalls(s: System, e: Event)
    requires Possible(s, e)
    ensures CallsMove(s, After(s, e)) && WorkerMoves(s, After(s, e))
  {
  }

  lemma {:induction false} NextMoves(s: System, s': System)
    requires SystemNext(s, s')
    ensures Moves(s, s')
  {
    var e: Event :| Possible(s, e) && s' == After(s, e);
    EventMovesCache(s, e);
    EventMovesCalls(s, e);
  }

  lemma {:induction false} MovesAt(run: seq<System>, i: nat)
    requires IsSystemRun(run) && i + 1 < |run|
    ensures Moves(run[i], run[i + 1])
  {
    assert StepAt(run, i);
    NextMoves(run[i], run[i + 1]);
  }

  lemma {:induction false} EpochsGrow(run: seq<System>, j: nat, i: nat)
    requires IsSystemRun(run) && j <= i < |run|
    ensures run[j].cache.invalidation <= run[i].cache.invalidation
  {
    if j < i {
      EpochsGrow(run, j, i - 1);
      MovesAt(run, i - 1);
    }
  }

  /** The policies were read from the database at state j, in an epoch not before `epoch`. */
  predicate ReadAt(run: seq<System>, policies: map<EventId, Policy>, epoch: nat, j: nat, i: nat)
    requires i < |run|
  {
    j <= i && policies == DatabasePolicies(run[j].stores) && epoch <= run[j].cache.invalidation
  }

  ghost predicate WorkerFits(run: seq<System>, i: nat)
    requires i < |run|
  {
    var s := run[i];
    && (s.worker.Sampled? ==> s.worker.epoch <= s.cache.invalidation)
    && (s.worker.Fetched? ==> exists j :: ReadAt(run, s.worker.rows, s.worker.epoch, j, i))
  }

  ghost predicate CacheFits(run: seq<System>, i: nat)
    requires i < |run|
  {
    Ready(run[i].cache) ==>
      exists j :: ReadAt(run, CachedPolicies(run[i].cache), run[i].cache.invalidation, j, i)
  }

  lemma {:induction false} RunKeepsWorker(run: seq<System>, i: nat)
    requires IsSystemRun(run) && i < |run|
    ensures WorkerFits(run, i)
  {
    if i > 0 {
      RunKeepsWorker(run, i - 1);
      var s, s' := run[i - 1], run[i];
      MovesAt(run, i - 1);
      if s'.worker.Fetched? {
        if s'.worker == s.worker {
          var j :| ReadAt(run, s.worker.rows, s.worker.epoch, j, i - 1);
          assert ReadAt(run, s'.worker.rows, s'.worker.epoch, j, i);
        } else {
          assert ReadAt(run, s'.worker.rows, s'.worker.epoch, i, i);
        }
      }
    }
  }

  lemma {:induction false} RunKeepsCache(run: seq<System>, i: nat)
    requires IsSystemRun(run) && i < |run|
    ensures CacheFits(run, i)
  {
    if i > 0 && Ready(run[i].cache) {
      var s, s' := run[i - 1], run[i];
      RunKeepsCache(run, i - 1);
      RunKeepsWorker(run, i - 1);
      MovesAt(run, i - 1);
      if Ready(s.cache) && CachedPolicies(s'.cache) == CachedPolicies(s.cache) {
        var j :| ReadAt(run, CachedPolicies(s.cache), s.cache.invalidation, j, i - 1);
        assert ReadAt(run, CachedPolicies(s'.cache), s'.cache.invalidation, j, i);
      } else {
        var j :| ReadAt(run, s.worker.rows, s.worker.epoch, j, i - 1);
        assert ReadAt(run, CachedPolicies(s'.cache), s'.cache.invalidation, j, i);
      }
    }
  }

  /** Whenever the cache is ready, what it holds is what the database held at one earlier
      instant, and no invalidation has happened since that instant. */
  lemma {:induction false} ReadyMeansReadSinceInvalidate(run: seq<System>, i: nat) returns (j: nat)
    requires IsSystemRun(run) && i < |run| && Ready(run[i].cache)
    ensures j <= i && CachedPolicies(run[i].cache) == DatabasePolicies(run[j].stores)
    ensures forall m :: j <= m <= i ==> run[m].cache.invalidation == run[i].cache.invalidation
  {
    RunKeepsCache(run, i);
    j :| ReadAt(run, CachedPolicies(run[i].cache), run[i].cache.invalidation, j, i);
    forall m | j <= m <= i ensures run[m].cache.invalidation == run[i].cache.invalidation {
      EpochsGrow(run, j, m);
      EpochsGrow(run, m, i);
    }
  }

  /** Since the invalidation of a PUT, the database is at the version that PUT committed. */
  ghost predicate CallFits(run: seq<System>, i: nat, id: EventId, t: TxId)
    requires i < |run| && (id, t) in run[i].calls
  {
    && run[i].calls[(id, t)].stamp <= run[i].cache.invalidation
    && AnsweredOk(run[i].stores, id, t)
    && forall j :: 0 <= j <= i && run[j].cache.invalidation >= run[i].calls[(id, t)].stamp ==>
         id in run[j].stores && Version(run[j].stores[id]) >= run[i].stores[id].txs[t].pc.version
  }

  lemma {:induction false} StoresGrowAt(run: seq<System>, i: nat)
    requires IsSystemRun(run) && 0 < i < |run|
    ensures StoresGrow(run[i - 1], run[i])
  {
    RunKeepsStores(run, i);
  }

  lemma {:induction false} CommittedVersionIsReached(run: seq<System>, i: nat, id: EventId, t: TxId)
    requires IsSystemRun(run) && i < |run|
    ensures id in run[i].stores && t in run[i].stores[id].txs && run[i].stores[id].txs[t].pc.Committed? ==>
              run[i].stores[id].txs[t].pc.version <= Version(run[i].stores[id])
  {
    if id in run[i].stores && t in run[i].stores[id].txs {
      RunKeepsStores(run, i);
      CommittedVersionInStore(run[i].stores[id], t);
    }
  }

  lemma {:induction false} CommittedVersionInStore(s: Store, t: TxId)
    requires Inv(s) && t in s.txs
    ensures s.txs[t].pc.Committed? ==> s.txs[t].pc.version <= Version(s)
  {
    assert TxFits(s, t);
    CurrentIsSnapshot(s);
  }

  lemma {:induction false} OldCallFits(run: seq<System>, i: nat, id: EventId, t: TxId)
    requires 0 < i < |run| && (id, t) in run[i - 1].calls && CallFits(run, i - 1, id, t)
    requires CallsMove(run[i - 1], run[i]) && run[i - 1].cache.invalidation <= run[i].cache.invalidation
    requires StoresGrow(run[i - 1], run[i])
    requires id in run[i].stores && t in run[i].stores[id].txs && run[i].stores[id].txs[t].pc.Committed? ==>
               run[i].stores[id].txs[t].pc.version <= Version(run[i].stores[id])
    ensures (id, t) in run[i].calls && CallFits(run, i, id, t)
  {
    assert StoreGrows(run[i - 1].stores[id], run[i].stores[id]);
  }

  lemma {:induction false} NewCallFits(run: seq<System>, i: nat, id: EventId, t: TxId)
    requires 0 < i < |run| && (id, t) !in run[i - 1].calls && (id, t) in run[i].calls
    requires CallsMove(run[i - 1], run[i])
    requires forall j :: 0 <= j < i ==> run[j].cache.invalidation <= run[i - 1].cache.invalidation
    requires AnsweredOk(run[i].stores, id, t) ==>
               run[i].stores[id].txs[t].pc.version <= Version(run[i].stores[id])
    ensures CallFits(run, i, id, t)
  {
  }

  lemma {:induction false} RunKeepsCalls(run: seq<System>, i: nat, id: EventId, t: TxId)
    requires IsSystemRun(run) && i < |run| && (id, t) in run[i].calls
    ensures CallFits(run, i, id, t)
  {
    assert i > 0;
    MovesAt(run, i - 1);
    StoresGrowAt(run, i);
    CommittedVersionIsReached(run, i, id, t);
    if (id, t) in run[i - 1].calls {
      RunKeepsCalls(run, i - 1, id, t);
      OldCallFits(run, i, id, t);
    } else {
      forall j | 0 <= j < i ensures run[j].cache.invalidation <= run[i - 1].cache.invalidation {
        EpochsGrow(run, j, i - 1);
      }
      NewCallFits(run, i, id, t);
    }
  }

  lemma {:induction false} FreshWhenReady(run: seq<System>, k: nat, id: EventId, t: TxId)
    requires IsSystemRun(run) && k < |run| && Ready(run[k].cache) && (id, t) in run[k].calls
    ensures AnsweredOk(run[k].stores, id, t)
    ensures id in CachedPolicies(run[k].cache)
    ensures CachedPolicies(run[k].cache)[id].version >= run[k].stores[id].txs[t].pc.version
  {
    RunKeepsCalls(run, k, id, t);
    var j := ReadyMeansReadSinceInvalidate(run, k);
    assert run[j].cache.invalidation >= run[k].calls[(id, t)].stamp;
  }

  /** The cache has the event's policy, at least as new as the answered write t. */
  predicate Served(s: System, id: EventId, t: TxId) {
    && (id, t) in s.calls && AnsweredOk(s.stores, id, t)
    && id in CachedPolicies(s.cache)
    && CachedPolicies(s.cache)[id].version >= s.stores[id].txs[t].pc.version
  }

  lemma {:induction false} ServedStays(s: System, s': System, id: EventId, t: TxId)
    requires Served(s, id, t) && Moves(s, s') && StoresGrow(s, s') && !Ready(s'.cache)
    ensures Served(s', id, t)
  {
    assert StoreGrows(s.stores[id], s'.stores[id]);
  }

  lemma {:induction false} ServedStaysServed(run: seq<System>, k: nat, id: EventId, t: TxId)
    requires IsSystemRun(run) && k + 1 < |run| && Served(run[k], id, t)
    ensures Served(run[k + 1], id, t)
  {
    MovesAt(run, k);
    if Ready(run[k + 1].cache) {
      FreshWhenReady(run, k + 1, id, t);
    } else {
      StoresGrowAt(run, k + 1);
      ServedStays(run[k], run[k + 1], id, t);
    }
  }

  /** A reader that first sees ready() and then looks the policy up, however much later, gets at
      least the version of every PUT whose cache invalidation, and therefore whose reply,
      preceded ready(). */
  lemma {:induction false} ReadyThenLookupIsCurrent(run: seq<System>, i: nat, k: nat, id: EventId, t: TxId)
    requires IsSystemRun(run) && i <= k < |run|
    requires Ready(run[i].cache) && (id, t) in run[i].calls
    ensures Served(run[k], id, t)
  {
    if k == i {
      FreshWhenReady(run, k, id, t);
    } else {
      ReadyThenLookupIsCurrent(run, i, k - 1, id, t);
      ServedStaysServed(run, k - 1, id, t);
    }
  }

  // ----- When the cache is ready -----------------------------------------------------------------

  predicate EventAt(run: seq<System>, events: seq<Event>, k: int)
    requires 0 <= k < |events| < |run|
  {
    Possible(run[k], events[k]) && run[k + 1] == After(run[k], events[k])
  }

  /** A run together with the events that drove it. */
  ghost predicate IsHistory(run: seq<System>, events: seq<Event>) {
    && |run| == |events| + 1 && run[0] == InitialSystem()
    && forall k :: 0 <= k < |events| ==> EventAt(run, events, k)
  }

  lemma {:induction false} HistoryIsRun(run: seq<System>, events: seq<Event>)
    requires IsHistory(run, events)
    ensures IsSystemRun(run)
  {
    forall k | 0 <= k < |run| - 1 ensures StepAt(run, k) {
      assert EventAt(run, events, k);
    }
  }

  /** The refresh that samples its epoch with event i has not ended before event k. */
  predicate Refreshing(events: seq<Event>, i: nat, k: nat)
    requires k <= |events|
  {
    && i < k && events[i].SampleEpoch?
    && forall m :: i < m < k ==> !events[m].InstallRows? && !events[m].RefreshFails?
  }

  predicate NoInvalidation(events: seq<Event>, i: nat, k: nat)
    requires k <= |events|
  {
    forall m :: i < m < k ==> !events[m].InvalidateFor?
  }

  predicate NoFailure(events: seq<Event>, j: nat, k: nat)
    requires k <= |events|
  {
    forall m :: j < m < k ==> !events[m].RefreshFails?
  }

  /** Event j ends the refresh that event i began; nothing was invalidated since it began, and no
      refresh has failed since it ended. */
  predicate RefreshedBy(events: seq<Event>, i: nat, j: nat, k: nat)
    requires k <= |events|
  {
    && j < k && events[j].InstallRows? && Refreshing(events, i, j)
    && NoInvalidation(events, i, k) && NoFailure(events, j, k)
  }

  ghost predicate RefreshedSince(events: seq<Event>, k: nat)
    requires k <= |events|
  {
    exists i: nat, j: nat :: RefreshedBy(events, i, j, k)
  }

  ghost predicate Working(events: seq<Event>, k: nat)
    requires k <= |events|
  {
    exists i: nat :: Refreshing(events, i, k)
  }

  /** The epoch of the refresh that is going on stands exactly if nothing was invalidated since. */
  ghost predicate RefreshFits(s: System, events: seq<Event>, k: nat)
    requires k <= |events|
  {
    && (!s.worker.Idle? <==> Working(events, k))
    && (!s.worker.Idle? ==> s.worker.epoch <= s.cache.invalidation)
    && forall i: nat :: Refreshing(events, i, k) && !s.worker.Idle? ==>
         (s.worker.epoch == s.cache.invalidation <==> NoInvalidation(events, i, k))
  }

  lemma {:induction false} RefreshingStep(events: seq<Event>, i: nat, k: nat)
    requires k < |events|
    ensures Refreshing(events, i, k + 1) <==>
              if i == k then events[k].SampleEpoch?
              else Refreshing(events, i, k) && !events[k].InstallRows? && !events[k].RefreshFails?
    ensures i < k ==> (NoInvalidation(events, i, k + 1) <==> NoInvalidation(events, i, k) && !events[k].InvalidateFor?)
  {
  }

  lemma {:induction false} RefreshedStep(events: seq<Event>, i: nat, j: nat, k: nat)
    requires k < |events|
    ensures RefreshedBy(events, i, j, k + 1) <==>
              if j == k then events[k].InstallRows? && Refreshing(events, i, k) && NoInvalidation(events, i, k)
              else RefreshedBy(events, i, j, k) && !events[k].InvalidateFor? && !events[k].RefreshFails?
  {
    RefreshingStep(events, i, k);
  }

  lemma {:induction false} RefreshFitsAfter(s: System, events: seq<Event>, k: nat, next: nat)
    requires k < |events| && next == k + 1 && Possible(s, events[k]) && RefreshFits(s, events, k)
    ensures RefreshFits(After(s, events[k]), events, next)
  {
    forall i: nat
      ensures Refreshing(events, i, next) <==>
                if i == k then events[k].SampleEpoch?
                else Refreshing(events, i, k) && !events[k].InstallRows? && !events[k].RefreshFails?
      ensures i < k ==> (NoInvalidation(events, i, next) <==> NoInvalidation(events, i, k) && !events[k].InvalidateFor?)
    {
      RefreshingStep(events, i, k);
    }
    if events[k].SampleEpoch? {
      assert Refreshing(events, k, next) && NoInvalidation(events, k, next);
      assert forall i: nat :: !Refreshing(events, i, k);
    } else if Working(events, k) {
      var i: nat :| Refreshing(events, i, k);
      assert Refreshing(events, i, next) || events[k].InstallRows? || events[k].RefreshFails?;
    }
  }

  lemma {:induction false} ReadyAfter(s: System, events: seq<Event>, k: nat)
    requires k < |events| && Possible(s, events[k]) && RefreshFits(s, events, k)
    requires Ready(s.cache) <==> RefreshedSince(events, k)
    ensures Ready(After(s, events[k]).cache) <==> RefreshedSince(events, k + 1)
  {
    if Ready(After(s, events[k]).cache) {
      if Ready(s.cache) {
        var i: nat, j: nat :| RefreshedBy(events, i, j, k);
        RefreshedStep(events, i, j, k);
      } else {
        var i: nat :| Refreshing(events, i, k);
        RefreshedStep(events, i, k, k);
      }
      assert RefreshedSince(events, k + 1);
    } else {
      if RefreshedSince(events, k + 1) {
        var i: nat, j: nat :| RefreshedBy(events, i, j, k + 1);
        RefreshedStep(events, i, j, k);
      }
    }
  }

  lemma {:induction false} RunKeepsRefresh(run: seq<System>, events: seq<Event>, k: nat)
    requires IsHistory(run, events) && k < |run|
    ensures RefreshFits(run[k], events, k)
    ensures Ready(run[k].cache) <==> RefreshedSince(events, k)
  {
    if k > 0 {
      RunKeepsRefresh(run, events, k - 1);
      assert EventAt(run, events, k - 1);
      RefreshFitsAfter(run[k - 1], events, k - 1, k);
      ReadyAfter(run[k - 1], events, k - 1);
    }
  }

  /** The cache is ready exactly if some refresh was installed that no invalidation has followed
      since its epoch was sampled, and no failed refresh since it was installed. */
  lemma {:induction false} ReadyIffRefreshedSince(run: seq<System>, events: seq<Event>, k: nat)
    requires IsHistory(run, events) && k < |run|
    ensures run[k].cache.loaded && !run[k].cache.dirty <==>
            exists i: nat, j: nat ::
              && RefreshedBy(events, i, j, k)
              && i < j < k && events[i] == SampleEpoch && events[j].InstallRows?
              && (forall m :: i < m < k ==> !events[m].InvalidateFor?)
              && (forall m :: j < m < k ==> !events[m].RefreshFails?)
  {
    RunKeepsRefresh(run, events, k);
    if RefreshedSince(events, k) {
      var i: nat, j: nat :| RefreshedBy(events, i, j, k);
      assert NoInvalidation(events, i, k) && NoFailure(events, j, k);
    }
  }

  /** After a failed refresh, or an invalidation, the cache is not ready until rows are installed. */
  lemma {:induction false} NotReadyUntilInstalled(run: seq<System>, events: seq<Event>, j: nat, k: nat)
    requires IsHistory(run, events) && j < k < |run|
    requires events[j].RefreshFails? || events[j].InvalidateFor?
    requires forall m :: j < m < k ==> !events[m].InstallRows?
    ensures !run[k].cache.loaded || run[k].cache.dirty
  {
    RunKeepsRefresh(run, events, k);
    forall a: nat, b: nat ensures !RefreshedBy(events, a, b, k) {
      if b < j < k && events[j].RefreshFails? {
        assert !NoFailure(events, b, k);
      } else if a < b < j < k {
        assert !NoInvalidation(events, a, k);
      }
    }
  }

  /** A refresh that nothing disturbs ends with a ready cache that holds what the database holds,
      and with the Redis flags that it found. */
  lemma {:induction false} UndisturbedRefresh(
      run: seq<System>, ready: set<EventId>, sessions: map<SessionId, EventId>, redisHealthy: bool, now: int)
    returns (run': seq<System>)
    requires IsSystemRun(run) && run[|run| - 1].worker.Idle?
    ensures IsSystemRun(run') && run <= run'
    ensures var s, s' := run[|run| - 1], run'[|run'| - 1];
            && s'.stores == s.stores && s'.worker.Idle?
            && s'.cache.loaded && !s'.cache.dirty && s'.cache.redisDirty == !redisHealthy
            && s'.cache.sessions == sessions
            && s'.cache.policies.Keys == s.stores.Keys
            && (forall id :: id in s.stores ==>
                  s'.cache.policies[id] == RuntimePolicy(ReadPolicy(s.stores[id].row), id in ready))
            && forall later :: ReadyAt(s'.cache, later) <==> later < now + 15000
  {
    Extend(run, SampleEpoch);
    var s1 := After(run[|run| - 1], SampleEpoch);
    run' := run + [s1];
    Extend(run', FetchRows);
    var s2 := After(s1, FetchRows);
    run' := run' + [s2];
    Extend(run', InstallRows(ready, sessions, redisHealthy, now));
    run' := run' + [After(s2, InstallRows(ready, sessions, redisHealthy, now))];
  }

  /** A committed and acknowledged PUT can always go on to invalidate the cache and to be answered,
      and it is answered only after it invalidated. */
  lemma {:induction false} AnswerFollowsInvalidation(run: seq<System>, events: seq<Event>, k: nat, id: EventId, t: TxId)
    requires IsHistory(run, events) && k < |run|
    ensures (id, t) in run[k].calls <==> exists m :: 0 <= m < k && events[m] == InvalidateFor(id, t)
    ensures (id, t) in run[k].calls && run[k].calls[(id, t)].answered
            <==> exists m :: 0 <= m < k && events[m] == Reply(id, t)
    ensures (id, t) !in run[k].calls && AnsweredOk(run[k].stores, id, t) ==> Possible(run[k], InvalidateFor(id, t))
    ensures (id, t) in run[k].calls && !run[k].calls[(id, t)].answered ==> Possible(run[k], Reply(id, t))
  {
    if k > 0 {
      AnswerFollowsInvalidation(run, events, k - 1, id, t);
      assert EventAt(run, events, k - 1);
    }
  }

  // ----- The opposite order ----------------------------------------------------------------------

  /** A reader that looks the policy up at i and sees ready() at k is current all the same if the
      cache was ready at the lookup already, or if no refresh has changed the policies in between. */
  lemma {:induction false} LookupThenReadyIsCurrentIf(run: seq<System>, i: nat, k: nat, id: EventId, t: TxId)
    requires IsSystemRun(run) && i <= k < |run| && Ready(run[k].cache) && (id, t) in run[i].calls
    requires Ready(run[i].cache) || CachedPolicies(run[i].cache) == CachedPolicies(run[k].cache)
    ensures AnsweredOk(run[i].stores, id, t) && id in CachedPolicies(run[i].cache)
    ensures CachedPolicies(run[i].cache)[id].version >= run[i].stores[id].txs[t].pc.version
  {
    RunKeepsCalls(run, i, id, t);
    if Ready(run[i].cache) {
      FreshWhenReady(run, i, id, t);
    } else {
      CallsStay(run, i, k, id, t);
      FreshWhenReady(run, k, id, t);
    }
  }

  lemma {:induction false} CallsStay(run: seq<System>, i: nat, k: nat, id: EventId, t: TxId)
    requires IsSystemRun(run) && i <= k < |run| && (id, t) in run[i].calls
    ensures (id, t) in run[k].calls && AnsweredOk(run[i].stores, id, t)
    ensures id in run[k].stores && t in run[k].stores[id].txs && run[k].stores[id].txs[t] == run[i].stores[id].txs[t]
  {
    RunKeepsCalls(run, i, id, t);
    if i < k {
      CallsStay(run, i, k - 1, id, t);
      MovesAt(run, k - 1);
      StoresGrowAt(run, k);
      assert StoreGrows(run[k - 1].stores[id], run[k].stores[id]);
    }
  }

  lemma {:induction false} Extend(run: seq<System>, e: Event)
    requires IsSystemRun(run) && Possible(run[|run| - 1], e)
    ensures IsSystemRun(run + [After(run[|run| - 1], e)])
  {
    var run' := run + [After(run[|run| - 1], e)];
    forall i | 0 <= i < |run'| - 1 ensures StepAt(run', i) {
      if i == |run| - 1 {
        assert Possible(run'[i], e) && run'[i + 1] == After(run'[i], e);
      } else {
        assert StepAt(run, i);
      }
    }
  }

  /** The event, policy input and states of the run that LookupThenReadyCanBeStale exhibits. */
  const SHOW := "show"
  const ENFORCE := PolicyInput(Enforced, Settings(0, 1, 1, 10), 0)

  lemma {:induction false} ReadyWithDefault() returns (run: seq<System>, s: System)
    ensures IsSystemRun(run) && s == run[|run| - 1]
    ensures s.stores == map[SHOW := EMPTY_STORE] && s.worker == Idle && s.calls == map[]
    ensures Ready(s.cache) && s.cache.invalidation == 0 && CachedPolicies(s.cache) == map[SHOW := DEFAULT_POLICY]
  {
    var s0 := InitialSystem();
    var s1 := After(s0, AddEvent(SHOW));
    var s2 := After(s1, SampleEpoch);
    var s3 := After(s2, FetchRows);
    s := After(s3, InstallRows({}, map[], true, 0));
    run := [s0];
    Extend(run, AddEvent(SHOW));
    run := run + [s1];
    Extend(run, SampleEpoch);
    run := run + [s2];
    Extend(run, FetchRows);
    run := run + [s3];
    Extend(run, InstallRows({}, map[], true, 0));
    run := run + [s];
    assert s3.worker.rows == map[SHOW := DEFAULT_POLICY];
    assert CachedPolicies(s.cache) == s3.worker.rows;
  }

  lemma {:induction false} ExtendStore(run: seq<System>, step: Step) returns (run': seq<System>)
    requires IsSystemRun(run) && SHOW in run[|run| - 1].stores
    requires Enabled(run[|run| - 1].stores[SHOW], step)
    ensures IsSystemRun(run')
    ensures var s := run[|run| - 1];
            run'[|run'| - 1] == s.(stores := s.stores[SHOW := Apply(s.stores[SHOW], step)])
  {
    Extend(run, StoreStep(SHOW, step));
    run' := run + [After(run[|run| - 1], StoreStep(SHOW, step))];
  }

  /** One administrator switches the show to ENFORCED, undisturbed. */
  lemma {:induction false} PutEnforced(run0: seq<System>) returns (run: seq<System>)
    requires IsSystemRun(run0) && run0[|run0| - 1].stores == map[SHOW := EMPTY_STORE]
    ensures IsSystemRun(run)
    ensures var s := run[|run| - 1];
            && s == run0[|run0| - 1].(stores := s.stores)
            && AnsweredOk(s.stores, SHOW, 0) && s.stores[SHOW].txs[0].pc.version == 1
  {
    run := ExtendStore(run0, BeginPut(0, ENFORCE, "admin"));
    run := ExtendStore(run, ReadBefore(0));
    run := ExtendStore(run, DrawGeneration(0, 0));
    run := ExtendStore(run, GuardedWrite(0));
    run := ExtendStore(run, InsertAudit(0));
    run := ExtendStore(run, Commit(0, true));
  }

  /** A reader that looks the policy up first and asks ready() afterwards can act on a policy
      older than a PUT that had been answered before it even started. */
  lemma {:induction false} LookupThenReadyCanBeStale() returns (run: seq<System>, i: nat, k: nat)
    ensures IsSystemRun(run) && i <= k < |run|
    ensures (SHOW, 0) in run[i].calls && run[i].calls[(SHOW, 0)].answered
    ensures SHOW in CachedPolicies(run[i].cache) && AnsweredOk(run[i].stores, SHOW, 0)
    ensures CachedPolicies(run[i].cache)[SHOW].mode == Off
    ensures CachedPolicies(run[i].cache)[SHOW].version < run[i].stores[SHOW].txs[0].pc.version
    ensures Ready(run[k].cache)
  {
    var s: System;
    run, s := ReadyWithDefault();
    run := PutEnforced(run);
    s := run[|run| - 1];
    Extend(run, InvalidateFor(SHOW, 0));
    var s1 := After(s, InvalidateFor(SHOW, 0));
    run := run + [s1];
    Extend(run, Reply(SHOW, 0));
    var s2 := After(s1, Reply(SHOW, 0));
    run := run + [s2];
    i := |run| - 1;
    Extend(run, SampleEpoch);
    var s3 := After(s2, SampleEpoch);
    run := run + [s3];
    Extend(run, FetchRows);
    var s4 := After(s3, FetchRows);
    run := run + [s4];
    Extend(run, InstallRows({}, map[], true, 0));
    var s5 := After(s4, InstallRows({}, map[], true, 0));
    run := run + [s5];
    k := |run| - 1;
    assert run[i] == s2 && run[k] == s5;
  }
}
