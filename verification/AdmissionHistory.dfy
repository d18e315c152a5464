/** What the committed history of a policy looks like over every run of interleaved
    administrator writes and SYSTEM resets. */
module AdmissionHistory {
  import opened Wrappers
  import opened AdmissionPolicy

  lemma {:induction false} RunKeepsInv(run: seq<Store>, i: nat)
    requires IsRun(run) && i < |run|
    ensures Inv(run[i])
  {
    if i > 0 {
      RunKeepsInv(run, i - 1);
      assert StepAt(run, i - 1);
      var step: Step :| Enabled(run[i - 1], step) && run[i] == Apply(run[i - 1], step);
      NextKeepsInv(run[i - 1], step);
    }
  }

  /** The audit is append-only. */
  lemma {:induction false} AuditOnlyGrows(run: seq<Store>, i: nat, j: nat)
    requires IsRun(run) && i <= j < |run|
    ensures run[i].audit <= run[j].audit
  {
    if i < j {
      AuditOnlyGrows(run, i, j - 1);
      assert StepAt(run, j - 1);
      var step: Step :| Enabled(run[j - 1], step) && run[j] == Apply(run[j - 1], step);
    }
  }

  predicate ChainLink(a: seq<AuditEntry>, k: nat)
    requires k < |a|
  {
    && a[k].oldVersion == k && a[k].newVersion == k + 1
    && a[k].oldPolicy.version == k && a[k].newPolicy.version == k + 1
    && a[k].oldPolicy == (if k == 0 then DEFAULT_POLICY else a[k - 1].newPolicy)
    && (a[k].action == Create <==> k == 0)
  }

  /** Entry k leads from version k to version k + 1, starts where entry k - 1 ended, and the
      last entry is the row, whose version is the number of entries. */
  lemma {:induction false} AuditIsGaplessChain(run: seq<Store>, i: nat)
    requires IsRun(run) && i < |run|
    ensures var a := run[i].audit;
            && |a| == Version(run[i]) <= MAX_VERSION
            && (forall k :: 0 <= k < |a| ==> ChainLink(a, k))
            && run[i].row == (if a == [] then None else Some(a[|a| - 1].newPolicy))
  {
    RunKeepsInv(run, i);
    CurrentIsSnapshot(run[i]);
    var a := run[i].audit;
    forall k | 0 <= k < |a| ensures ChainLink(a, k) && k < MAX_VERSION {
      assert EntryFits(a, k, run[i].txs);
      assert k > 0 ==> EntryFits(a, k - 1, run[i].txs);
    }
    assert |a| > 0 ==> ChainLink(a, |a| - 1) && |a| - 1 < MAX_VERSION;
  }

  /** Of all transactions that contend for a version, at most one ever commits it. */
  lemma {:induction false} OneWinnerPerVersion(run: seq<Store>, i: nat, t: TxId, u: TxId)
    requires IsRun(run) && i < |run|
    requires t in run[i].txs && run[i].txs[t].pc.Committed?
    requires u in run[i].txs && run[i].txs[u].pc.Committed?
    requires run[i].txs[t].pc.version == run[i].txs[u].pc.version
    ensures t == u
  {
    RunKeepsInv(run, i);
    assert TxFits(run[i], t) && TxFits(run[i], u);
  }

  // ----- Interleaved runs are serial --------------------------------------------------------

  /** One request executed alone: no other transaction runs between its statements.  `g` is
      what the random source would return. */
  function ExecuteAlone(request: Request, p: Policy, g: Generation): Option<Policy> {
    if p.version != ExpectedVersion(request) || p.version >= MAX_VERSION then
      None
    else if NeedsFreshGeneration(request, p) then
      Some(Written(request, p, g))
    else if p.generation.Some? then
      Some(Written(request, p, p.generation.value))
    else
      None
  }

  function Replay(requests: seq<Request>, gs: seq<Generation>): Option<Policy>
    requires |requests| == |gs|
  {
    if requests == [] then
      Some(DEFAULT_POLICY)
    else
      var n := |requests| - 1;
      var before := Replay(requests[..n], gs[..n]);
      if before.Some? then ExecuteAlone(requests[n], before.value, gs[n]) else None
  }

  ghost function CommittedRequests(s: Store): (requests: seq<Request>)
    requires Inv(s)
    ensures |requests| == |s.audit|
  {
    seq(|s.audit|, k requires 0 <= k < |s.audit| =>
      assert EntryFits(s.audit, k, s.txs); s.txs[s.audit[k].writer].request)
  }

  ghost function RecordedGenerations(s: Store): (gs: seq<Generation>)
    requires Inv(s)
    ensures |gs| == |s.audit|
  {
    seq<Generation>(|s.audit|, k requires 0 <= k < |s.audit| =>
      assert EntryFits(s.audit, k, s.txs); s.audit[k].newPolicy.generation.value)
  }

  lemma {:induction false} ReplayStep(s: Store, n: nat)
    requires Inv(s) && n < |s.audit|
    ensures ExecuteAlone(CommittedRequests(s)[n], PolicyAt(s.audit, n), RecordedGenerations(s)[n])
         == Some(PolicyAt(s.audit, n + 1))
  {
    assert EntryFits(s.audit, n, s.txs);
    assert n > 0 ==> EntryFits(s.audit, n - 1, s.txs);
  }

  lemma {:induction false} ReplayLast(requests: seq<Request>, gs: seq<Generation>, n: nat)
    requires n < |requests| == |gs|
    ensures Replay(requests[..n + 1], gs[..n + 1])
         == var before := Replay(requests[..n], gs[..n]);
            if before.Some? then ExecuteAlone(requests[n], before.value, gs[n]) else None
  {
    assert requests[..n + 1][..n] == requests[..n] && gs[..n + 1][..n] == gs[..n];
  }

  lemma {:induction false} ReplayPrefix(s: Store, n: nat)
    requires Inv(s) && n <= |s.audit|
    ensures Replay(CommittedRequests(s)[..n], RecordedGenerations(s)[..n]) == Some(PolicyAt(s.audit, n))
  {
    if n > 0 {
      ReplayPrefix(s, n - 1);
      ReplayStep(s, n - 1);
      ReplayLast(CommittedRequests(s), RecordedGenerations(s), n - 1);
    }
  }

  /** However the transactions interleave, the row is what the committed requests produce when
      they are executed one after the other in version order. */
  lemma {:induction false} InterleavingIsSerial(run: seq<Store>, i: nat)
    requires IsRun(run) && i < |run|
    ensures Inv(run[i])
    ensures Replay(CommittedRequests(run[i]), RecordedGenerations(run[i])) == Some(ReadPolicy(run[i].row))
  {
    RunKeepsInv(run, i);
    CurrentIsSnapshot(run[i]);
    var s := run[i];
    ReplayPrefix(s, |s.audit|);
    assert CommittedRequests(s)[..|s.audit|] == CommittedRequests(s);
    assert RecordedGenerations(s)[..|s.audit|] == RecordedGenerations(s);
  }

  /** What an administrator sends is what the row becomes and the audit records, in the values of
      the request itself; a SYSTEM reset keeps all of it. */
  lemma {:induction false} AuditRecordsTheRequest(run: seq<Store>, i: nat, k: nat)
    requires IsRun(run) && i < |run| && k < |run[i].audit|
    ensures var e := run[i].audit[k];
            && e.writer in run[i].txs
            && match run[i].txs[e.writer].request
               case Put(input, user) =>
                 && e.newPolicy.mode == input.mode
                 && e.newPolicy.settings == Some(input.settings)
                 && e.newPolicy.updatedBy == Some(user)
                 && input.expectedVersion == k
                 && e.action == (if k == 0 then Create else Update)
               case Reset(_) =>
                 && e.action == ResetGeneration && k > 0
                 && e.newPolicy.mode == e.oldPolicy.mode != Off
                 && e.newPolicy.settings == e.oldPolicy.settings
                 && e.newPolicy.updatedBy == e.oldPolicy.updatedBy
  {
    RunKeepsInv(run, i);
    assert EntryFits(run[i].audit, k, run[i].txs);
  }

  /** The ranges that the table declares for a row. */
  predicate WithinTable(p: Policy) {
    && p.settings.Some? && p.generation.Some? && p.updatedBy.Some?
    && 0 <= p.settings.value.prequeueSeconds <= 86400
    && 1 <= p.settings.value.maxActiveUsers <= 1000000
    && 1 <= p.settings.value.admissionRatePerSecond <= 100000
    && 10 <= p.settings.value.leaseSeconds <= 3600
    && 1 <= p.version <= 9007199254740991
  }

  /** Every policy ever committed satisfies the constraints of its table. */
  lemma {:induction false} CommittedRowsFitTheTable(run: seq<Store>, i: nat, k: nat)
    requires IsRun(run) && i < |run| && k < |run[i].audit|
    ensures WithinTable(run[i].audit[k].newPolicy)
  {
    RunKeepsInv(run, i);
    var s := run[i];
    assert EntryFits(s.audit, k, s.txs);
    assert TxFits(s, s.audit[k].writer);
    if s.txs[s.audit[k].writer].request.Reset? {
      CommittedRowsFitTheTable(run, i, k - 1);
    }
  }

  /** A guarded write conflicts exactly when the committed version is not the one it expects;
      for a transaction that had already read that version, another one has committed it. */
  lemma {:induction false} ConflictIffVersionMoved(run: seq<Store>, i: nat, t: TxId)
    requires IsRun(run) && i < |run|
    requires t in run[i].txs && Enabled(run[i], GuardedWrite(t))
    ensures var s := run[i];
            var expected := ExpectedVersion(s.txs[t].request);
            && 0 <= expected <= Version(s)
            && (Apply(s, GuardedWrite(t)).txs[t].pc == Failed(VersionConflict) <==> Version(s) != expected)
            && (expected < Version(s) ==>
                  expected < |s.audit| && s.audit[expected].newVersion == expected + 1 && s.audit[expected].writer != t)
  {
    var s := run[i];
    RunKeepsInv(run, i);
    CurrentIsSnapshot(s);
    assert TxFits(s, t);
    var expected := ExpectedVersion(s.txs[t].request);
    if expected < |s.audit| {
      assert EntryFits(s.audit, expected, s.txs);
    }
  }

  // ----- Generations -------------------------------------------------------------------------

  lemma {:induction false} GenerationStep(s: Store, k: nat)
    requires Inv(s) && 0 < k < |s.audit|
    ensures var p, q := s.audit[k - 1].newPolicy, s.audit[k].newPolicy;
            && s.audit[k].action != Create
            && q.generation.Some?
            && (p.generation != q.generation <==>
                  s.audit[k].action == ResetGeneration || RotatesGeneration(p.mode, q.mode))
            && (p.generation != q.generation ==> !Recorded(s.audit[..k], q.generation.value))
            && (s.audit[k].action == ResetGeneration ==>
                  q == p.(version := q.version, generation := q.generation) && p.mode != Off)
  {
    assert EntryFits(s.audit, k, s.txs) && EntryFits(s.audit, k - 1, s.txs);
    assert s.audit[..k][k - 1] == s.audit[k - 1];
  }

  lemma {:induction false} GenerationIsContiguous(s: Store, i: nat, j: nat)
    requires Inv(s) && i < j < |s.audit|
    requires s.audit[i].newPolicy.generation == s.audit[j].newPolicy.generation
    ensures s.audit[j - 1].newPolicy.generation == s.audit[j].newPolicy.generation
  {
    GenerationStep(s, j);
    assert EntryFits(s.audit, j, s.txs);
    assert s.audit[..j][i] == s.audit[i];
  }

  lemma {:induction false} NamespaceOnlyDropsOff(s: Store, i: nat, j: nat)
    requires Inv(s) && i <= j < |s.audit|
    requires s.audit[i].newPolicy.generation == s.audit[j].newPolicy.generation
    ensures NamespaceOf(s.audit[j].newPolicy.mode) in {NoNamespace, NamespaceOf(s.audit[i].newPolicy.mode)}
  {
    if i < j {
      GenerationIsContiguous(s, i, j);
      NamespaceOnlyDropsOff(s, i, j - 1);
      GenerationStep(s, j);
    }
  }

  /** The modes recorded under one generation are modes of a single namespace, followed only by
      OFF: entries of one generation are contiguous, no generation serves both Shadow and Formal,
      and none comes back after OFF or after another generation. */
  lemma {:induction false} GenerationServesOneNamespace(run: seq<Store>, n: nat, i: nat, k: nat, j: nat)
    requires IsRun(run) && n < |run| && i <= k <= j < |run[n].audit|
    requires run[n].audit[i].newPolicy.generation == run[n].audit[j].newPolicy.generation
    ensures var a := run[n].audit;
            && a[k].newPolicy.generation == a[i].newPolicy.generation
            && (a[i].newPolicy.mode == Off ==> a[j].newPolicy.mode == Off)
            && (a[j].newPolicy.mode != Off ==>
                  NamespaceOf(a[i].newPolicy.mode) == NamespaceOf(a[k].newPolicy.mode)
                  == NamespaceOf(a[j].newPolicy.mode) != NoNamespace)
    decreases j
  {
    RunKeepsInv(run, n);
    var s := run[n];
    if k < j {
      GenerationIsContiguous(s, i, j);
      GenerationServesOneNamespace(run, n, i, k, j - 1);
    }
    NamespaceOnlyDropsOff(s, i, j);
    NamespaceOnlyDropsOff(s, i, k);
    NamespaceOnlyDropsOff(s, k, j);
  }

  /** The same in modes: under one generation OBSERVE is followed by OBSERVE or OFF, PAUSED and
      ENFORCED by each other or OFF, and OFF by OFF alone. */
  lemma {:induction false} GenerationServesTheseModes(run: seq<Store>, n: nat, i: nat, j: nat)
    requires IsRun(run) && n < |run| && i <= j < |run[n].audit|
    requires run[n].audit[i].newPolicy.generation == run[n].audit[j].newPolicy.generation
    ensures match run[n].audit[i].newPolicy.mode
            case Off => run[n].audit[j].newPolicy.mode == Off
            case Observe => run[n].audit[j].newPolicy.mode in {Observe, Off}
            case _ => run[n].audit[j].newPolicy.mode in {Paused, Enforced, Off}
  {
    RunKeepsInv(run, n);
    NamespaceOnlyDropsOff(run[n], i, j);
  }

  /** A queue generation is replaced by a reset, by entering OBSERVE, and by entering PAUSED or
      ENFORCED from a mode that is neither; by nothing else. */
  lemma {:induction false} GenerationIsReplacedIff(run: seq<Store>, n: nat, k: nat)
    requires IsRun(run) && n < |run| && 0 < k < |run[n].audit|
    ensures var p, q := run[n].audit[k - 1].newPolicy, run[n].audit[k].newPolicy;
            p.generation != q.generation <==>
              || run[n].audit[k].action == ResetGeneration
              || (q.mode == Observe && p.mode != Observe)
              || (q.mode in {Paused, Enforced} && p.mode !in {Paused, Enforced})
  {
    RunKeepsInv(run, n);
    GenerationStep(run[n], k);
  }

  /** Between two Formal modes the generation changes exactly when the entry is a reset. */
  lemma {:induction false} FormalRotatesOnlyByReset(run: seq<Store>, n: nat, k: nat)
    requires IsRun(run) && n < |run| && 0 < k < |run[n].audit|
    requires NamespaceOf(run[n].audit[k - 1].newPolicy.mode) == Formal
    requires NamespaceOf(run[n].audit[k].newPolicy.mode) == Formal
    ensures run[n].audit[k - 1].newPolicy.generation != run[n].audit[k].newPolicy.generation
            <==> run[n].audit[k].action == ResetGeneration
  {
    RunKeepsInv(run, n);
    GenerationStep(run[n], k);
  }

  /** A reset audits the very row it replaced, although it reads `before` without checking its
      version, and it keeps everything but version and generation. */
  lemma {:induction false} ResetChangesGenerationAlone(run: seq<Store>, n: nat, k: nat)
    requires IsRun(run) && n < |run| && k < |run[n].audit|
    requires run[n].audit[k].action == ResetGeneration
    ensures var e := run[n].audit[k];
            && k > 0 && e.oldPolicy == run[n].audit[k - 1].newPolicy && e.oldPolicy.mode != Off
            && e.newPolicy == e.oldPolicy.(version := k + 1, generation := e.newPolicy.generation)
            && e.newPolicy.generation != e.oldPolicy.generation
  {
    RunKeepsInv(run, n);
    var s := run[n];
    assert EntryFits(s.audit, k, s.txs);
    assert k > 0 ==> EntryFits(s.audit, k - 1, s.txs);
    if k > 0 {
      GenerationStep(s, k);
    }
  }

  /** The audit insert that follows a successful write is never rejected by the table. */
  lemma {:induction false} AuditInsertNeverFails(run: seq<Store>, n: nat, t: TxId)
    requires IsRun(run) && n < |run|
    requires t in run[n].txs && Enabled(run[n], InsertAudit(t))
    ensures Apply(run[n], InsertAudit(t)).txs[t].pc.HasAudited?
  {
    RunKeepsInv(run, n);
    AuditNeverRejects(run[n], t);
  }

  // ----- Every request can be answered ---------------------------------------------------------

  lemma {:induction false} Extend(run: seq<Store>, step: Step) returns (run': seq<Store>)
    requires IsRun(run) && Enabled(run[|run| - 1], step)
    ensures IsRun(run') && run' == run + [Apply(run[|run| - 1], step)]
  {
    run' := run + [Apply(run[|run| - 1], step)];
    forall i | 0 <= i < |run'| - 1 ensures StepAt(run', i) {
      if i == |run| - 1 {
        assert Enabled(run'[i], step) && run'[i + 1] == Apply(run'[i], step);
      } else {
        assert StepAt(run, i);
      }
    }
  }

  lemma {:induction false} SomeGenerationIsNew(drawn: set<Generation>) returns (g: Generation)
    ensures g !in drawn
  {
    if drawn == {} {
      g := 0;
    } else {
      var top := LargestOf(drawn);
      g := top + 1;
    }
  }

  lemma {:induction false} LargestOf(drawn: set<Generation>) returns (top: Generation)
    requires drawn != {}
    ensures top in drawn && forall g :: g in drawn ==> g <= top
  {
    var first :| first in drawn;
    var rest := drawn - {first};
    assert drawn == rest + {first};
    if rest == {} {
      top := first;
    } else {
      top := LargestOf(rest);
      top := if top < first then first else top;
    }
  }

  /** Whether transaction t can go on by itself, other than by giving up. */
  ghost predicate CanProceed(s: Store, t: TxId) {
    exists step: Step :: step.t == t && !step.Abort? && !step.BeginPut? && !step.BeginReset? && Enabled(s, step)
  }

  lemma {:induction false} HolderProceeds(s: Store, t: TxId)
    requires t in s.txs && HoldsLock(s.txs[t])
    ensures CanProceed(s, t)
  {
    if s.txs[t].pc.HasWritten? {
      assert Enabled(s, InsertAudit(t));
    } else {
      assert Enabled(s, Commit(t, true));
    }
  }

  /** No transaction is ever stuck: it can proceed, or its guarded write waits for the row lock of
      one that can. */
  lemma {:induction false} NoTransactionIsStuck(run: seq<Store>, n: nat, t: TxId)
    requires IsRun(run) && n < |run| && t in run[n].txs && Live(run[n].txs[t])
    ensures CanProceed(run[n], t)
            || (&& run[n].lock.Some? && run[n].lock.value in run[n].txs && run[n].lock.value != t
                && CanProceed(run[n], run[n].lock.value))
  {
    RunKeepsInv(run, n);
    var s := run[n];
    assert TxFits(s, t);
    match s.txs[t].pc
    case Begun => assert Enabled(s, ReadBefore(t));
    case HasBefore(_) =>
      var g := SomeGenerationIsNew(s.drawn);
      assert Enabled(s, DrawGeneration(t, g));
    case HasGeneration(_, _) =>
      if s.lock.None? {
        assert Enabled(s, GuardedWrite(t));
      } else {
        HolderProceeds(s, s.lock.value);
      }
    case _ => HolderProceeds(s, t);
  }

  /** The row that a PUT leaves behind, in the values of its request. */
  predicate Stores(row: Option<Policy>, input: PolicyInput, user: UserId) {
    && row.Some?
    && row.value.mode == input.mode
    && row.value.settings == Some(input.settings)
    && row.value.version == input.expectedVersion + 1
    && row.value.updatedBy == Some(user)
  }

  lemma {:induction false} UndisturbedWrite(run: seq<Store>, t: TxId, g: Generation) returns (run': seq<Store>)
    requires IsRun(run) && t in run[|run| - 1].txs && run[|run| - 1].lock.None?
    requires run[|run| - 1].txs[t].pc.HasBefore? && run[|run| - 1].txs[t].request.Put?
    requires run[|run| - 1].txs[t].request.input.expectedVersion == Version(run[|run| - 1])
    requires g !in run[|run| - 1].drawn
    ensures IsRun(run') && run <= run'
    ensures var s, s' := run[|run| - 1], run'[|run'| - 1];
            var request := s.txs[t].request;
            && t in s'.txs && s'.txs[t].request == request && s'.txs[t].pc.HasWritten? && s'.audit == s.audit
            && Stores(Some(s'.txs[t].pc.after), request.input, request.user)
  {
    RunKeepsInv(run, |run| - 1);
    CurrentIsSnapshot(run[|run| - 1]);
    assert TxFits(run[|run| - 1], t);
    run' := Extend(run, DrawGeneration(t, g));
    run' := Extend(run', GuardedWrite(t));
  }

  lemma {:induction false} UndisturbedCommit(run: seq<Store>, t: TxId) returns (run': seq<Store>)
    requires IsRun(run) && t in run[|run| - 1].txs && run[|run| - 1].txs[t].pc.HasWritten?
    ensures IsRun(run') && run <= run'
    ensures var s, s' := run[|run| - 1], run'[|run'| - 1];
            && t in s'.txs && s'.lock.None? && |s'.audit| == |s.audit| + 1
            && s'.txs[t].pc == Committed(ExpectedVersion(s.txs[t].request) + 1, true)
            && s'.row == Some(s.txs[t].pc.after)
  {
    RunKeepsInv(run, |run| - 1);
    AuditNeverRejects(run[|run| - 1], t);
    run' := Extend(run, InsertAudit(t));
    run' := Extend(run', Commit(t, true));
  }

  /** A PUT within the accepted ranges that nobody disturbs is answered with the policy it asked for
      if it names the committed version, and with a conflict that changes nothing otherwise. */
  lemma {:induction false} UndisturbedPut(run: seq<Store>, t: TxId, input: PolicyInput, user: UserId)
    returns (run': seq<Store>)
    requires IsRun(run)
    requires 0 <= input.settings.prequeueSeconds <= 86400 && 1 <= input.settings.maxActiveUsers <= 1000000
    requires 1 <= input.settings.admissionRatePerSecond <= 100000 && 10 <= input.settings.leaseSeconds <= 3600
    requires 0 <= input.expectedVersion < 9007199254740991
    requires t !in run[|run| - 1].txs && run[|run| - 1].lock.None?
    ensures IsRun(run') && run <= run'
    ensures var s, s' := run[|run| - 1], run'[|run'| - 1];
            && t in s'.txs && s'.lock.None?
            && if input.expectedVersion == Version(s)
               then && s'.txs[t].pc == Committed(input.expectedVersion + 1, true)
                    && |s'.audit| == |s.audit| + 1
                    && Stores(s'.row, input, user)
               else s'.txs[t].pc == Failed(VersionConflict) && s'.row == s.row && s'.audit == s.audit
  {
    var s := run[|run| - 1];
    RunKeepsInv(run, |run| - 1);
    CurrentIsSnapshot(s);
    run' := Extend(run, BeginPut(t, input, user));
    run' := Extend(run', ReadBefore(t));
    if input.expectedVersion == Version(s) {
      var g := SomeGenerationIsNew(s.drawn);
      run' := UndisturbedWrite(run', t, g);
      run' := UndisturbedCommit(run', t);
    }
  }
}
