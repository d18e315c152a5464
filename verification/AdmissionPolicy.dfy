/** The admission policy of one event: the policy row, its append-only audit, and the
    administrator and SYSTEM transactions that change them under READ COMMITTED isolation.

    Any number of transactions are interleaved one statement at a time.  A guarded write takes
    the row lock and keeps it until the transaction commits or aborts; every plain read returns
    the last committed row. */
module AdmissionPolicy {
  import opened Wrappers

  type UserId = string
  type TxId = nat
  /** Only the identity of a generation matters, so a number stands for its 32 hex digits. */
  type Generation = nat

  /** Every version has to survive a round trip through a JSON double. */
  const MAX_VERSION := 9007199254740991

  datatype Mode = Off | Observe | Enforced | Paused

  datatype QualificationNamespace = NoNamespace | Shadow | Formal

  function NamespaceOf(mode: Mode): QualificationNamespace {
    match mode
    case Off => NoNamespace
    case Observe => Shadow
    case Paused => Formal
    case Enforced => Formal
  }

  predicate RotatesGeneration(oldMode: Mode, newMode: Mode) {
    var target := NamespaceOf(newMode);
    target != NoNamespace && target != NamespaceOf(oldMode)
  }

  datatype Settings = Settings(
    prequeueSeconds: int, maxActiveUsers: int, admissionRatePerSecond: int, leaseSeconds: int)

  datatype PolicyInput = PolicyInput(mode: Mode, settings: Settings, expectedVersion: int)

  /** The ranges that parsing a request body enforces. */
  predicate Accepted(input: PolicyInput) {
    && 0 <= input.settings.prequeueSeconds <= 86400
    && 1 <= input.settings.maxActiveUsers <= 1000000
    && 1 <= input.settings.admissionRatePerSecond <= 100000
    && 10 <= input.settings.leaseSeconds <= 3600
    && 0 <= input.expectedVersion < MAX_VERSION
  }

  /** A policy as it is read and audited.  Version 0 is the synthetic policy of an event that
      has no row yet. */
  datatype Policy = Policy(
    mode: Mode, settings: Option<Settings>, version: nat,
    generation: Option<Generation>, updatedBy: Option<UserId>)

  const DEFAULT_POLICY := Policy(Off, None, 0, None, None)

  function ReadPolicy(row: Option<Policy>): Policy {
    if row.Some? then row.value else DEFAULT_POLICY
  }

  // ----- Transactions ---------------------------------------------------------------------

  /** Reset carries the policy that the runtime read, possibly long before it resets. */
  datatype Request = Put(input: PolicyInput, user: UserId) | Reset(target: Policy)

  function ExpectedVersion(request: Request): int {
    match request
    case Put(input, _) => input.expectedVersion
    case Reset(target) => target.version
  }

  predicate NeedsFreshGeneration(request: Request, before: Policy) {
    match request
    case Put(input, _) => input.expectedVersion == 0 || RotatesGeneration(before.mode, input.mode)
    case Reset(_) => true
  }

  /** The guard of the INSERT (version 0) or UPDATE statement, on the committed row. */
  predicate WriteApplies(request: Request, row: Option<Policy>) {
    if request.Put? && request.input.expectedVersion == 0 then
      row.None?
    else
      row.Some? && row.value.version == ExpectedVersion(request)
  }

  /** The row that the INSERT or UPDATE leaves behind. */
  function Written(request: Request, row: Policy, generation: Generation): Policy {
    match request
    case Put(input, user) =>
      Policy(input.mode, Some(input.settings), row.version + 1, Some(generation), Some(user))
    case Reset(_) =>
      row.(version := row.version + 1, generation := Some(generation))
  }

  datatype Action = Create | Update | ResetGeneration

  function ActionOf(request: Request): Action {
    match request
    case Put(input, _) => if input.expectedVersion == 0 then Create else Update
    case Reset(_) => ResetGeneration
  }

  datatype AuditEntry = AuditEntry(
    writer: TxId, action: Action, oldVersion: int, newVersion: int,
    oldPolicy: Policy, newPolicy: Policy)

  datatype Error = VersionConflict | ConstraintViolation | Aborted

  datatype Pc =
    | Begun
    | HasBefore(before: Policy)
    | HasGeneration(before: Policy, generation: Generation)
    | HasWritten(before: Policy, after: Policy)
    | HasAudited(entry: AuditEntry)
    | Committed(version: int, acknowledged: bool)
    | Failed(error: Error)

  /** `drew` is the generation this transaction drew from the random source, if it drew one. */
  datatype Tx = Tx(request: Request, pc: Pc, drew: Option<Generation>)

  predicate Live(tx: Tx) {
    !tx.pc.Committed? && !tx.pc.Failed?
  }

  predicate HoldsLock(tx: Tx) {
    tx.pc.HasWritten? || tx.pc.HasAudited?
  }

  datatype Store = Store(
    row: Option<Policy>, audit: seq<AuditEntry>, lock: Option<TxId>,
    drawn: set<Generation>, txs: map<TxId, Tx>)

  const EMPTY_STORE := Store(None, [], None, {}, map[])

  function Version(s: Store): nat {
    ReadPolicy(s.row).version
  }

  /** The two table constraints on the audit: consecutive versions, and one entry a version. */
  predicate AuditAccepts(audit: seq<AuditEntry>, entry: AuditEntry) {
    && entry.newVersion == entry.oldVersion + 1
    && forall k :: 0 <= k < |audit| ==> audit[k].newVersion != entry.newVersion
  }

  datatype Step =
    | BeginPut(t: TxId, input: PolicyInput, user: UserId)
    | BeginReset(t: TxId)
    | ReadBefore(t: TxId)
    | DrawGeneration(t: TxId, g: Generation)
    | GuardedWrite(t: TxId)
    | InsertAudit(t: TxId)
    | Commit(t: TxId, acknowledged: bool)
    | Abort(t: TxId)

  function AtPc(s: Store, t: TxId, pc: Pc): Store
    requires t in s.txs
  {
    s.(txs := s.txs[t := s.txs[t].(pc := pc)])
  }

  /** When a step can be taken.  A write whose guard holds on the committed row has to wait for
      the row lock; a write whose guard fails reports no row without waiting. */
  predicate Enabled(s: Store, step: Step) {
    match step
    case BeginPut(t, input, _) => t !in s.txs && Accepted(input)
    case BeginReset(t) => t !in s.txs && s.row.Some? && s.row.value.mode != Off
    case ReadBefore(t) => t in s.txs && s.txs[t].pc.Begun?
    case DrawGeneration(t, g) => t in s.txs && s.txs[t].pc.HasBefore? && g !in s.drawn
    case GuardedWrite(t) =>
      && t in s.txs && s.txs[t].pc.HasGeneration?
      && (WriteApplies(s.txs[t].request, s.row) ==> s.lock.None?)
    case InsertAudit(t) => t in s.txs && s.txs[t].pc.HasWritten?
    case Commit(t, _) => t in s.txs && s.txs[t].pc.HasAudited?
    case Abort(t) => t in s.txs && Live(s.txs[t])
  }

  function Apply(s: Store, step: Step): Store
    requires Enabled(s, step)
  {
    match step
    case BeginPut(t, input, user) => s.(txs := s.txs[t := Tx(Put(input, user), Begun, None)])
    case BeginReset(t) => s.(txs := s.txs[t := Tx(Reset(s.row.value), Begun, None)])
    case ReadBefore(t) =>
      var before := ReadPolicy(s.row);
      var request := s.txs[t].request;
      if request.Put? && before.version != request.input.expectedVersion then
        AtPc(s, t, Failed(VersionConflict))
      else
        AtPc(s, t, HasBefore(before))
    case DrawGeneration(t, g) =>
      var tx := s.txs[t];
      if NeedsFreshGeneration(tx.request, tx.pc.before) then
        s.(drawn := s.drawn + {g},
           txs := s.txs[t := tx.(pc := HasGeneration(tx.pc.before, g), drew := Some(g))])
      else
        var kept := if tx.pc.before.generation.Some? then tx.pc.before.generation.value else 0;
        AtPc(s, t, HasGeneration(tx.pc.before, kept))
    case GuardedWrite(t) =>
      var tx := s.txs[t];
      if !WriteApplies(tx.request, s.row) then
        AtPc(s, t, Failed(VersionConflict))
      else
        var after := Written(tx.request, ReadPolicy(s.row), tx.pc.generation);
        if after.version > MAX_VERSION then
          AtPc(s, t, Failed(ConstraintViolation))
        else
          AtPc(s, t, HasWritten(tx.pc.before, after)).(lock := Some(t))
    case InsertAudit(t) =>
      var tx := s.txs[t];
      var expected := ExpectedVersion(tx.request);
      var entry := AuditEntry(t, ActionOf(tx.request), expected, expected + 1, tx.pc.before, tx.pc.after);
      if AuditAccepts(s.audit, entry) then
        AtPc(s, t, HasAudited(entry))
      else
        AtPc(s, t, Failed(ConstraintViolation)).(lock := None)
    case Commit(t, acknowledged) =>
      var entry := s.txs[t].pc.entry;
      AtPc(s, t, Committed(entry.newVersion, acknowledged))
        .(row := Some(entry.newPolicy), audit := s.audit + [entry], lock := None)
    case Abort(t) =>
      AtPc(s, t, Failed(Aborted)).(lock := if HoldsLock(s.txs[t]) then None else s.lock)
  }

  ghost predicate Next(s: Store, s': Store) {
    exists step: Step :: Enabled(s, step) && s' == Apply(s, step)
  }

  ghost predicate StepAt(run: seq<Store>, i: int)
    requires 0 <= i < |run| - 1
  {
    Next(run[i], run[i + 1])
  }

  ghost predicate IsRun(run: seq<Store>) {
    && |run| > 0
    && run[0] == EMPTY_STORE
    && forall i :: 0 <= i < |run| - 1 ==> StepAt(run, i)
  }

  // ----- The invariant --------------------------------------------------------------------

  /** The policy at a version, as the audit tells it. */
  function PolicyAt(audit: seq<AuditEntry>, version: nat): Policy
    requires version <= |audit|
  {
    if version == 0 then DEFAULT_POLICY else audit[version - 1].newPolicy
  }

  /** Everything ever read is the policy that its own version names in the audit. */
  predicate Snapshot(audit: seq<AuditEntry>, p: Policy) {
    p.version <= |audit| && p == PolicyAt(audit, p.version)
  }

  predicate Recorded(audit: seq<AuditEntry>, g: Generation) {
    exists k :: 0 <= k < |audit| && audit[k].newPolicy.generation == Some(g)
  }

  /** Entry k continues the chain, and its new policy is what its writer's request does when it
      is executed alone on the old policy. */
  predicate EntryFits(audit: seq<AuditEntry>, k: nat, txs: map<TxId, Tx>)
    requires k < |audit|
  {
    var e := audit[k];
    && e.oldVersion == k && e.newVersion == k + 1 <= MAX_VERSION
    && e.oldPolicy == PolicyAt(audit, k)
    && e.newPolicy.version == k + 1
    && e.newPolicy.generation.Some?
    && e.writer in txs
    && txs[e.writer].pc.Committed? && txs[e.writer].pc.version == k + 1
    && var request := txs[e.writer].request;
    && ExpectedVersion(request) == k
    && e.action == ActionOf(request)
    && e.newPolicy == Written(request, e.oldPolicy, e.newPolicy.generation.value)
    && (request.Reset? ==> e.oldPolicy.mode != Off && k > 0)
    && if NeedsFreshGeneration(request, e.oldPolicy)
       then !Recorded(audit[..k], e.newPolicy.generation.value)
       else e.newPolicy.generation == e.oldPolicy.generation
  }

  predicate GenerationFits(s: Store, tx: Tx, before: Policy, g: Generation) {
    if NeedsFreshGeneration(tx.request, before) then tx.drew == Some(g) else before.generation == Some(g)
  }

  predicate BeforeFits(audit: seq<AuditEntry>, request: Request, before: Policy) {
    && Snapshot(audit, before)
    && ExpectedVersion(request) <= before.version
    && (request.Put? ==> ExpectedVersion(request) == before.version)
  }

  /** `after` is the request's effect on the committed row, which is still `before`. */
  predicate AfterFits(s: Store, tx: Tx, before: Policy, after: Policy) {
    && before == PolicyAt(s.audit, |s.audit|)
    && ExpectedVersion(tx.request) == |s.audit| < MAX_VERSION
    && after.generation.Some?
    && GenerationFits(s, tx, before, after.generation.value)
    && after == Written(tx.request, before, after.generation.value)
  }

  predicate TxFits(s: Store, t: TxId)
    requires t in s.txs
  {
    var tx := s.txs[t];
    && 0 <= ExpectedVersion(tx.request)
    && (tx.request.Put? ==> Accepted(tx.request.input))
    && (tx.request.Reset? ==>
          Snapshot(s.audit, tx.request.target) && tx.request.target.mode != Off && tx.request.target.version > 0)
    && (tx.drew.Some? ==> tx.drew.value in s.drawn)
    && (Live(tx) && tx.drew.Some? ==> !Recorded(s.audit, tx.drew.value))
    && match tx.pc
       case Begun => tx.drew.None?
       case HasBefore(before) => BeforeFits(s.audit, tx.request, before) && tx.drew.None?
       case HasGeneration(before, g) =>
         BeforeFits(s.audit, tx.request, before) && GenerationFits(s, tx, before, g)
       case HasWritten(before, after) => s.lock == Some(t) && AfterFits(s, tx, before, after)
       case HasAudited(e) =>
         && s.lock == Some(t)
         && AfterFits(s, tx, e.oldPolicy, e.newPolicy)
         && e == AuditEntry(t, ActionOf(tx.request), |s.audit|, |s.audit| + 1, e.oldPolicy, e.newPolicy)
       case Committed(v, _) => 1 <= v <= |s.audit| && s.audit[v - 1].writer == t
       case Failed(_) => true
  }

  ghost predicate Inv(s: Store) {
    && s.row == (if s.audit == [] then None else Some(s.audit[|s.audit| - 1].newPolicy))
    && (forall k :: 0 <= k < |s.audit| ==> EntryFits(s.audit, k, s.txs))
    && (forall g :: Recorded(s.audit, g) ==> g in s.drawn)
    && (forall t :: t in s.txs ==> TxFits(s, t))
    && (forall t, u :: t in s.txs && u in s.txs && t != u && s.txs[t].drew.Some? ==>
          s.txs[t].drew != s.txs[u].drew)
    && (s.lock.Some? ==> s.lock.value in s.txs && HoldsLock(s.txs[s.lock.value]))
  }

  lemma {:induction false} PrefixKeepsPolicies(audit: seq<AuditEntry>, e: AuditEntry, version: nat)
    requires version <= |audit|
    ensures PolicyAt(audit + [e], version) == PolicyAt(audit, version)
  {
  }

  lemma {:induction false} LastIsRecorded(audit: seq<AuditEntry>, g: Generation)
    ensures audit != [] && audit[|audit| - 1].newPolicy.generation == Some(g) ==> Recorded(audit, g)
  {
  }

  lemma {:induction false} RecordedGrows(audit: seq<AuditEntry>, e: AuditEntry, g: Generation)
    ensures Recorded(audit + [e], g) <==> Recorded(audit, g) || e.newPolicy.generation == Some(g)
  {
    if Recorded(audit, g) {
      var k :| 0 <= k < |audit| && audit[k].newPolicy.generation == Some(g);
      assert (audit + [e])[k].newPolicy.generation == Some(g);
    }
    assert (audit + [e])[|audit|] == e;
  }

  /** A step that leaves row and audit alone keeps the invariant, as long as the stepping
      transaction itself fits afterwards. */
  lemma {:induction false} LocalStepKeepsInv(s: Store, s': Store, t: TxId)
    requires Inv(s)
    requires s'.row == s.row && s'.audit == s.audit
    requires t in s'.txs && s'.txs == s.txs[t := s'.txs[t]]
    requires t in s.txs ==> Live(s.txs[t])
    requires !s'.txs[t].pc.Committed?
    requires s.drawn <= s'.drawn
    requires TxFits(s', t)
    requires s'.txs[t].drew.Some? ==>
               forall u :: u in s.txs && u != t ==> s.txs[u].drew != s'.txs[t].drew
    requires s'.lock == s.lock || s.lock in {None, Some(t)}
    requires s'.lock == (if HoldsLock(s'.txs[t]) then Some(t) else if s.lock == Some(t) then None else s.lock)
    ensures Inv(s')
  {
    forall k | 0 <= k < |s.audit| ensures EntryFits(s'.audit, k, s'.txs) {
      assert EntryFits(s.audit, k, s.txs);
    }
    forall u | u in s'.txs ensures TxFits(s', u) {
      if u != t {
        assert TxFits(s, u);
      }
    }
  }

  lemma {:induction false} BeginKeepsInv(s: Store, step: Step)
    requires Inv(s) && Enabled(s, step) && (step.BeginPut? || step.BeginReset?)
    ensures Inv(Apply(s, step))
  {
    var s' := Apply(s, step);
    if step.BeginReset? {
      assert EntryFits(s.audit, |s.audit| - 1, s.txs);
    }
    LocalStepKeepsInv(s, s', step.t);
  }

  lemma {:induction false} CurrentIsSnapshot(s: Store)
    requires Inv(s)
    ensures Snapshot(s.audit, ReadPolicy(s.row)) && Version(s) == |s.audit|
  {
    if s.audit != [] {
      assert EntryFits(s.audit, |s.audit| - 1, s.txs);
    }
  }

  lemma {:induction false} ReadKeepsInv(s: Store, step: Step)
    requires Inv(s) && Enabled(s, step) && step.ReadBefore?
    ensures Inv(Apply(s, step))
  {
    CurrentIsSnapshot(s);
    assert TxFits(s, step.t);
    LocalStepKeepsInv(s, Apply(s, step), step.t);
  }

  lemma {:induction false} DrawIsNew(s: Store, step: Step, u: TxId)
    requires Inv(s) && Enabled(s, step) && step.DrawGeneration? && u in s.txs
    ensures s.txs[u].drew != Some(step.g)
  {
    assert TxFits(s, u);
  }

  lemma {:induction false} DrawnTxFits(s: Store, step: Step)
    requires Inv(s) && Enabled(s, step) && step.DrawGeneration?
    ensures TxFits(Apply(s, step), step.t)
  {
    var before := s.txs[step.t].pc.before;
    assert TxFits(s, step.t);
    assert before.version > 0 ==> EntryFits(s.audit, before.version - 1, s.txs);
  }

  lemma {:induction false} DrawKeepsInv(s: Store, step: Step)
    requires Inv(s) && Enabled(s, step) && step.DrawGeneration?
    ensures Inv(Apply(s, step))
  {
    var s' := Apply(s, step);
    DrawnTxFits(s, step);
    forall u | u in s.txs && u != step.t && s'.txs[step.t].drew.Some?
      ensures s.txs[u].drew != s'.txs[step.t].drew
    {
      DrawIsNew(s, step, u);
    }
    LocalStepKeepsInv(s, s', step.t);
  }

  /** The heart of the matter: a guarded write only succeeds while the committed row is still
      the policy that the transaction read before. */
  lemma {:induction false} GuardPinsBefore(s: Store, t: TxId)
    requires Inv(s) && t in s.txs && s.txs[t].pc.HasGeneration?
    requires WriteApplies(s.txs[t].request, s.row)
    ensures s.txs[t].pc.before == ReadPolicy(s.row) == PolicyAt(s.audit, |s.audit|)
    ensures ExpectedVersion(s.txs[t].request) == |s.audit|
  {
    CurrentIsSnapshot(s);
    assert TxFits(s, t);
  }

  lemma {:induction false} WriteKeepsInv(s: Store, step: Step)
    requires Inv(s) && Enabled(s, step) && step.GuardedWrite?
    ensures Inv(Apply(s, step))
  {
    var s' := Apply(s, step);
    assert TxFits(s, step.t);
    if WriteApplies(s.txs[step.t].request, s.row) {
      GuardPinsBefore(s, step.t);
    }
    LocalStepKeepsInv(s, s', step.t);
  }

  /** The constraints of the audit table never reject an entry. */
  lemma {:induction false} AuditNeverRejects(s: Store, t: TxId)
    requires Inv(s) && t in s.txs && s.txs[t].pc.HasWritten?
    ensures Apply(s, InsertAudit(t)).txs[t].pc.HasAudited?
  {
    assert TxFits(s, t);
    forall k | 0 <= k < |s.audit| ensures s.audit[k].newVersion <= |s.audit| {
      assert EntryFits(s.audit, k, s.txs);
    }
  }

  lemma {:induction false} InsertAuditKeepsInv(s: Store, step: Step)
    requires Inv(s) && Enabled(s, step) && step.InsertAudit?
    ensures Inv(Apply(s, step))
  {
    assert TxFits(s, step.t);
    AuditNeverRejects(s, step.t);
    LocalStepKeepsInv(s, Apply(s, step), step.t);
  }

  lemma {:induction false} AbortKeepsInv(s: Store, step: Step)
    requires Inv(s) && Enabled(s, step) && step.Abort?
    ensures Inv(Apply(s, step))
  {
    assert TxFits(s, step.t);
    LocalStepKeepsInv(s, Apply(s, step), step.t);
  }

  lemma {:induction false} CommitKeepsEntries(s: Store, step: Step, k: nat)
    requires Inv(s) && Enabled(s, step) && step.Commit? && k <= |s.audit|
    ensures EntryFits(Apply(s, step).audit, k, Apply(s, step).txs)
  {
    var s' := Apply(s, step);
    assert s'.audit[..k] == s.audit[..k];
    assert TxFits(s, step.t);
    PrefixKeepsPolicies(s.audit, s.txs[step.t].pc.entry, k);
    if k < |s.audit| {
      assert EntryFits(s.audit, k, s.txs);
    } else {
      assert s.audit[..k] == s.audit;
      if k > 0 {
        assert EntryFits(s.audit, k - 1, s.txs);
      }
    }
  }

  lemma {:induction false} CommitKeepsTx(s: Store, step: Step, u: TxId)
    requires Inv(s) && Enabled(s, step) && step.Commit? && u in s.txs
    ensures TxFits(Apply(s, step), u)
  {
    var s' := Apply(s, step);
    var entry := s.txs[step.t].pc.entry;
    assert TxFits(s, step.t) && TxFits(s, u);
    var tx := s.txs[u];
    if tx.request.Reset? {
      PrefixKeepsPolicies(s.audit, entry, tx.request.target.version);
    }
    if u != step.t {
      match tx.pc {
        case HasBefore(before) => PrefixKeepsPolicies(s.audit, entry, before.version);
        case HasGeneration(before, _) => PrefixKeepsPolicies(s.audit, entry, before.version);
        case _ =>
      }
      if Live(tx) && tx.drew.Some? {
        RecordedGrows(s.audit, entry, tx.drew.value);
        LastIsRecorded(s.audit, tx.drew.value);
      }
    }
  }

  lemma {:induction false} CommitKeepsInv(s: Store, step: Step)
    requires Inv(s) && Enabled(s, step) && step.Commit?
    ensures Inv(Apply(s, step))
  {
    var s' := Apply(s, step);
    var entry := s.txs[step.t].pc.entry;
    assert TxFits(s, step.t);
    forall k | 0 <= k < |s'.audit| ensures EntryFits(s'.audit, k, s'.txs) {
      CommitKeepsEntries(s, step, k);
    }
    forall u | u in s'.txs ensures TxFits(s', u) {
      CommitKeepsTx(s, step, u);
    }
    forall g | Recorded(s'.audit, g) ensures g in s'.drawn {
      RecordedGrows(s.audit, entry, g);
      if !Recorded(s.audit, g) && s.audit != [] {
        assert s.audit[|s.audit| - 1].newPolicy.generation != Some(g);
      }
    }
  }

  lemma {:induction false} NextKeepsInv(s: Store, step: Step)
    requires Inv(s) && Enabled(s, step)
    ensures Inv(Apply(s, step))
  {
    match step
    case BeginPut(_, _, _) => BeginKeepsInv(s, step);
    case BeginReset(_) => BeginKeepsInv(s, step);
    case ReadBefore(_) => ReadKeepsInv(s, step);
    case DrawGeneration(_, _) => DrawKeepsInv(s, step);
    case GuardedWrite(_) => WriteKeepsInv(s, step);
    case InsertAudit(_) => InsertAuditKeepsInv(s, step);
    case Commit(_, _) => CommitKeepsInv(s, step);
    case Abort(_) => AbortKeepsInv(s, step);
  }
}
