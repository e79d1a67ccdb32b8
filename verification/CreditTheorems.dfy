/**
 * What holds in every run of the credit protocol: any number of interleaved approve,
 * deny, request and direct-credit calls, with provider failures and crashes anywhere.
 */
module CreditTheorems {
  import opened Wrappers
  import opened Timestamps
  import opened Approvals
  import opened KeyedLog
  import opened Policy
  import opened CreditProtocol
  import opened CreditSafety
  import BoundedRetry

  // ---------- Exactly one effect ----------

  /** The positions on the provider's list that belong to one approval. */
  ghost function Effects(ledger: Log<Credit>, approvalId: string): set<nat> {
    set i: nat | i < |ledger.entries| && ledger.entries[i].key == Some(ApprovedKey(approvalId))
  }

  lemma EffectsFollowIndex(s: Shared, id: string)
    requires SharedInv(s)
    ensures ApprovedKey(id) !in s.ledger.byKey ==> Effects(s.ledger, id) == {}
    ensures ApprovedKey(id) in s.ledger.byKey ==>
              Credited(s, id)
              && exists i :: Effects(s.ledger, id) == {i} && s.ledger.entries[i].item == CreditOf(s.rows[id])
  {
    var key := ApprovedKey(id);
    if key in s.ledger.byKey {
      CreditedUnderKey(s, id);
      assert Entry(Some(key), s.ledger.byKey[key]) in s.ledger.entries;
      var i :| 0 <= i < |s.ledger.entries| && s.ledger.entries[i] == Entry(Some(key), s.ledger.byKey[key]);
      assert Effects(s.ledger, id) == {i};
    }
  }

  lemma CreditedUnderKey(s: Shared, id: string)
    requires SharedInv(s) && ApprovedKey(id) in s.ledger.byKey
    ensures Credited(s, id)
  {
    var key := ApprovedKey(id);
    assert KeyJustified(s, key);
    if digest :| key == DirectKey(digest) {
      KeyFamilies(id, digest);
    }
    var other :| key == ApprovedKey(other) && Credited(s, other);
    KeyFamilies(id, other);
  }

  /**
   * In every run the provider holds at most one credit per approval, it is the credit the
   * record asks for, an executed approval has it, and an approval that is pending, denied
   * or unknown has none.
   */
  lemma ExactlyOnceEffect(auth: Authorizer, es: seq<Event>, id: string)
    requires Sound(auth)
    ensures var s := Reached(auth, es).shared;
      var effects := Effects(s.ledger, id);
      && |effects| <= 1
      && (forall i :: i in effects ==>
            && id in s.rows
            && s.ledger.entries[i].item.reservationId == s.rows[id].reservationId
            && s.ledger.entries[i].item.amount == s.rows[id].amount
            && s.ledger.entries[i].item.reason == s.rows[id].reason)
      && (id in s.rows && s.rows[id].status == Executed ==> |effects| == 1)
      && (id !in s.rows || s.rows[id].status == Pending || s.rows[id].status == Denied ==> effects == {})
  {
    ReachedInv(auth, es);
    var s := Reached(auth, es).shared;
    EffectsFollowIndex(s, id);
    if id in s.rows {
      assert ExecutedOk(s, id);
    }
    if ApprovedKey(id) in s.ledger.byKey {
      var i :| Effects(s.ledger, id) == {i} && s.ledger.entries[i].item == CreditOf(s.rows[id]);
    }
  }

  // ---------- Where every credit comes from ----------

  /** A credit a human decided on: between 25 and 100, for a decided record. */
  ghost predicate HumanApproved(s: Shared, e: Entry<Credit>) {
    exists id :: e.key == Some(ApprovedKey(id)) && id in s.rows
      && (s.rows[id].status == Approved || s.rows[id].status == Executed)
      && s.rows[id].decidedBy.Some? && e.item == CreditOf(s.rows[id]) && 25.0 < e.item.amount <= 100.0
  }

  /** An automatic credit: at most 25, under a key of the other family. */
  ghost predicate Automatic(e: Entry<Credit>) {
    0.0 < e.item.amount <= 25.0 && exists digest :: e.key == Some(DirectKey(digest))
  }

  /** Every credit in every reachable state has exactly one of the two origins. */
  lemma ProvenanceOfMoney(auth: Authorizer, es: seq<Event>, i: nat)
    requires Sound(auth) && i < |Reached(auth, es).shared.ledger.entries|
    ensures var s := Reached(auth, es).shared; var e := s.ledger.entries[i];
      HumanApproved(s, e) <==> !Automatic(e)
  {
    ReachedInv(auth, es);
    var s := Reached(auth, es).shared;
    var e := s.ledger.entries[i];
    assert KeyJustified(s, e.key.value);
    if id :| e.key.value == ApprovedKey(id) && Credited(s, id) {
      assert RowOk(s.rows[id]);
      assert HumanApproved(s, e);
      if digest :| e.key == Some(DirectKey(digest)) {
        KeyFamilies(id, digest);
      }
    } else {
      assert DirectlyIssued(s, e.key.value);
      var digest :| e.key.value == DirectKey(digest);
      assert Automatic(e);
      if id :| e.key == Some(ApprovedKey(id)) {
        KeyFamilies(id, digest);
      }
    }
  }

  // ---------- Stale snapshots ----------

  /** The record an executing call still holds from its last read of the store. */
  function HeldRecord(call: Call): Option<ApprovalRecord> {
    match call
    case Begin(rec) => Some(rec)
    case Revalidate(rec) => Some(rec)
    case Issue(rec, _) => Some(rec)
    case Complete(rec, _, _) => Some(rec)
    case Mark(rec, _) => Some(rec)
    case _ => None
  }

  lemma ReachedExtends(auth: Authorizer, es: seq<Event>, more: seq<Event>)
    requires Sound(auth)
    ensures WorldInv(Reached(auth, es)) && WorldInv(Reached(auth, es + more))
    ensures SharedGrows(Reached(auth, es).shared, Reached(auth, es + more).shared)
  {
    ReachedInv(auth, es);
    RunConcat(auth, EMPTY_WORLD, es, more);
    RunInv(auth, Reached(auth, es), more);
  }

  /**
   * Whatever happens after a call took its snapshot: the row is still there with the same
   * request, the decision it saw is still the decision, an approved snapshot means
   * approved or executed, and an executed snapshot is the row itself.
   */
  lemma StaleSnapshotsAreSafe(auth: Authorizer, es: seq<Event>, more: seq<Event>, c: nat)
    requires Sound(auth)
    requires c in Reached(auth, es).calls && HeldRecord(Reached(auth, es).calls[c]).Some?
    ensures var rec := HeldRecord(Reached(auth, es).calls[c]).value;
      var rows := Reached(auth, es + more).shared.rows;
      && rec.approvalId in rows
      && var row := rows[rec.approvalId];
      && row.taskId == rec.taskId && row.requestedBy == rec.requestedBy && row.reservationId == rec.reservationId
      && row.amount == rec.amount && row.reason == rec.reason && row.policyId == rec.policyId
      && row.createdAt == rec.createdAt
      && row.decidedAt == rec.decidedAt && row.decidedBy == rec.decidedBy && row.decisionNote == rec.decisionNote
      && (rec.status == Approved ==> row.status == Approved || row.status == Executed)
      && (rec.status == Executed ==> row == rec)
  {
    ReachedExtends(auth, es, more);
    var w := Reached(auth, es);
    var rec := HeldRecord(w.calls[c]).value;
    assert CallInv(w.shared, w.calls[c]);
    SnapshotStable(w.shared, Reached(auth, es + more).shared, rec);
  }

  /** A decision is taken once: nothing later changes it, and a denial never leads to a credit. */
  lemma DecisionsAreFinal(auth: Authorizer, es: seq<Event>, more: seq<Event>, id: string)
    requires Sound(auth) && id in Reached(auth, es).shared.rows
    requires Reached(auth, es).shared.rows[id].status != Pending
    ensures var row := Reached(auth, es).shared.rows[id];
      var later := Reached(auth, es + more).shared;
      && id in later.rows
      && later.rows[id].decidedAt == row.decidedAt && later.rows[id].decidedBy == row.decidedBy
      && later.rows[id].decisionNote == row.decisionNote
      && (row.status == Denied ==> later.rows[id] == row && Effects(later.ledger, id) == {})
      && (row.status == Executed ==> later.rows[id] == row && |Effects(later.ledger, id)| == 1)
  {
    ReachedExtends(auth, es, more);
    assert Evolves(Reached(auth, es).shared.rows[id], Reached(auth, es + more).shared.rows[id]);
    ExactlyOnceEffect(auth, es + more, id);
  }

  /** At its write-back the executor is never refused, in any interleaving. */
  lemma MarkNeverRaises(auth: Authorizer, es: seq<Event>, c: nat, now: Moment)
    requires Sound(auth) && c in Reached(auth, es).calls
    ensures var w := Reached(auth, es);
      && w.calls[c] != Done(Failed(MarkRejected)) && w.calls[c] != Done(Failed(RowLost))
      && (w.calls[c].Mark? ==>
            var (_, reply) := MarkTx(w.shared.rows, w.calls[c].rec.approvalId, w.calls[c].result, now);
            reply.Marked? || reply.AlreadyExecuted?)
  {
    ReachedInv(auth, es);
    var w := Reached(auth, es);
    assert CallInv(w.shared, w.calls[c]);
    if w.calls[c].Mark? {
      MarkedInv(w.shared, w.calls[c].rec, w.calls[c].result, now);
    }
  }

  // ---------- Executed means credited, and replays are faithful ----------

  /**
   * Every answer about an executed approval agrees with the one stored result: a replay,
   * by the handler or by the executor, is that result with the duplicate flag set, and a
   * racing executor's own answer is about the same credit.
   */
  lemma AnswersAgreeWithStoredResult(auth: Authorizer, es: seq<Event>, more: seq<Event>, c: nat, id: string)
    requires Sound(auth) && c in Reached(auth, es).calls
    ensures var call := Reached(auth, es).calls[c];
      var rows := Reached(auth, es + more).shared.rows;
      && (call.Done? && call.outcome.Replay? && call.outcome.record.approvalId == id ==>
            id in rows && rows[id].executionResult.Some?
            && call.outcome.stored == Some(rows[id].executionResult.value.(deduplicated := true)))
      && (call.Done? && call.outcome.Response? && call.outcome.record.approvalId == id ==>
            && (call.outcome.execution.Replayed? ==>
                  id in rows && rows[id].executionResult.Some?
                  && call.outcome.execution.stored == Some(rows[id].executionResult.value.(deduplicated := true)))
            && (call.outcome.execution.Issued? ==>
                  id in rows && rows[id].executionResult.Some?
                  && rows[id].executionResult.value.credit == call.outcome.execution.result.credit
                  && rows[id].executionResult.value.approvalId == call.outcome.execution.result.approvalId == id))
  {
    hide Run, SharedInv, OutcomeOk, SharedGrows;
    ReachedExtends(auth, es, more);
    var w := Reached(auth, es);
    var later := Reached(auth, es + more).shared;
    var call := w.calls[c];
    assert CallInv(w.shared, call);
    if call.Done? {
      OutcomeStable(w.shared, later, call.outcome);
      AnswerAgrees(later, call.outcome);
    }
  }

  lemma AnswerAgrees(s: Shared, outcome: Outcome)
    requires SharedInv(s) && OutcomeOk(s, outcome)
    ensures outcome.Replay? ==>
      var id := outcome.record.approvalId;
      id in s.rows && s.rows[id].executionResult.Some?
      && outcome.stored == Some(s.rows[id].executionResult.value.(deduplicated := true))
    ensures outcome.Response? && outcome.execution.Replayed? ==>
      var id := outcome.record.approvalId;
      id in s.rows && s.rows[id].executionResult.Some?
      && outcome.execution.stored == Some(s.rows[id].executionResult.value.(deduplicated := true))
    ensures outcome.Response? && outcome.execution.Issued? ==>
      var id := outcome.record.approvalId;
      id in s.rows && s.rows[id].executionResult.Some?
      && s.rows[id].executionResult.value.credit == outcome.execution.result.credit
      && s.rows[id].executionResult.value.approvalId == outcome.execution.result.approvalId == id
  {
    if outcome.Replay? || outcome.Response? {
      assert ExecutedOk(s, outcome.record.approvalId);
    }
  }

  // ---------- One call on its own, branch by branch ----------

  function ExecutedRow(rec: ApprovalRecord, result: ExecutionResult, now: Moment): ApprovalRecord {
    rec.(status := Executed, executedAt := Some(now), executionResult := Some(result))
  }

  /** The result an undisturbed execution stores; a repeat of the provider call is flagged. */
  function ResultOf(s: Shared, rec: ApprovalRecord, policyId: Option<string>): ExecutionResult {
    ExecutionResult(CreditOf(rec), ApprovedKey(rec.approvalId) in s.ledger.byKey, rec.approvalId, policyId)
  }

  lemma WriteBack(auth: Authorizer, s: Shared, rec: ApprovalRecord, result: ExecutionResult, env: nat -> Env)
    requires rec.approvalId in s.rows && s.rows[rec.approvalId] == rec && rec.status == Approved
    ensures var row := ExecutedRow(rec, result, env(3).now);
      Finish(auth, s, Mark(rec, result), env) ==
        After(s.(rows := s.rows[rec.approvalId := row]), Done(Response(row, Issued(result))))
  {
    hide Finish;
    var id := rec.approvalId;
    var row := ExecutedRow(rec, result, env(3).now);
    var s2 := s.(rows := s.rows[id := row]);
    OneStep(auth, s, Mark(rec, result), env);
    OneStep(auth, s2, MarkReread(id, result), env);
    OneStep(auth, s2, Refresh(id, Issued(result)), env);
    OneStep(auth, s2, Done(Response(row, Issued(result))), env);
  }

  /** The books after the provider call for an approved row. */
  function BooksAfter(s: Shared, rec: ApprovalRecord): Shared {
    s.(ledger := SubmitCredit(s, ApprovedKey(rec.approvalId), CreditOf(rec)).log)
  }

  /** From the provider call on: what each provider behaviour leads to. */
  lemma IssueAlone(auth: Authorizer, s: Shared, rec: ApprovalRecord, policyId: Option<string>, env: nat -> Env)
    requires SharedInv(s) && Snapshot(s, rec) && rec.status == Approved
    ensures var end := Finish(auth, s, Issue(rec, policyId), env);
      && (env(5).provider.FailsBefore? ==> end == After(s, Done(Failed(ProviderFailed))))
      && (env(5).provider.FailsAfter? ==> end == After(BooksAfter(s, rec), Done(Failed(ProviderFailed))))
      && (env(5).provider.Answers? && !env(4).completes ==>
            end == After(BooksAfter(s, rec), Done(Failed(LifecycleIncomplete))))
      && (env(5).provider.Answers? && env(4).completes ==>
            end == Finish(auth, BooksAfter(s, rec), Mark(rec, ResultOf(s, rec, policyId)), env))
  {
    hide Finish, SharedInv, Snapshot;
    ApprovedIssueInv(s, rec);
    var done := SubmitCredit(s, ApprovedKey(rec.approvalId), CreditOf(rec));
    var complete := Complete(rec, policyId, ProviderResult(done.item, done.deduplicated));
    OneStep(auth, s, Issue(rec, policyId), env);
    OneStep(auth, BooksAfter(s, rec), complete, env);
    OneStep(auth, s, Done(Failed(ProviderFailed)), env);
    OneStep(auth, BooksAfter(s, rec), Done(Failed(ProviderFailed)), env);
    OneStep(auth, BooksAfter(s, rec), Done(Failed(LifecycleIncomplete)), env);
  }

  /**
   * The executor's gate, with the question it asks spelled out: the approved-credit action
   * by the executor's own principal, on the record's reservation, with the record's amount,
   * its approval id and the verified flag.
   */
  lemma AuthorizeAlone(auth: Authorizer, s: Shared, rec: ApprovalRecord, env: nat -> Env)
    requires rec.approvalId in s.rows && s.rows[rec.approvalId] == rec && rec.status == Approved
    ensures var question := Request(
              CreditIssueApproved, auth.ids.approvalExecutor, "reservation:" + rec.reservationId,
              map[Amount := rec.amount], map[ApprovalId := rec.approvalId], map[ApprovalVerified := true]);
      Finish(auth, s, Begin(rec), env) ==
        if auth.mayAllow(question) && env(7).admitted && env(7).permit && env(6).live then
          Finish(auth, s, Issue(rec, env(6).policyId), env)
        else After(s, Done(Response(rec, Blocked)))
  {
    hide Finish;
    OneStep(auth, s, Begin(rec), env);
    OneStep(auth, s, Revalidate(rec), env);
    OneStep(auth, s, Refresh(rec.approvalId, Blocked), env);
    OneStep(auth, s, Done(Response(rec, Blocked)), env);
  }

  /**
   * The executor on a record that is not approved: an executed one is replayed with the
   * duplicate flag set, any other is blocked, and nothing changes.
   */
  lemma ExecutorOnOtherRecords(auth: Authorizer, s: Shared, rec: ApprovalRecord, env: nat -> Env)
    requires SharedInv(s) && rec.approvalId in s.rows && s.rows[rec.approvalId] == rec && rec.status != Approved
    ensures rec.status == Executed ==>
      && rec.executionResult.Some?
      && Finish(auth, s, Begin(rec), env) ==
           After(s, Done(Response(rec, Replayed(Some(rec.executionResult.value.(deduplicated := true))))))
    ensures rec.status != Executed ==>
      Finish(auth, s, Begin(rec), env) == After(s, Done(Response(rec, Blocked)))
  {
    assert ExecutedOk(s, rec.approvalId);
    hide Finish, SharedInv, CallStep;
    OneExecuteStep(auth, s, Begin(rec), env);
    if rec.status == Executed {
      var answer := Replayed(Some(rec.executionResult.value.(deduplicated := true)));
      OneApproveStep(auth, s, Refresh(rec.approvalId, answer), env);
      Ended(auth, s, Response(rec, answer), env);
    } else {
      OneApproveStep(auth, s, Refresh(rec.approvalId, Blocked), env);
      Ended(auth, s, Response(rec, Blocked), env);
    }
  }

  /**
   * The executor on an approved row, in every case: refused, the provider failing before
   * or after it acted, the lifecycle not completing, and success.
   */
  lemma ExecutionAlone(auth: Authorizer, s: Shared, rec: ApprovalRecord, env: nat -> Env)
    requires SharedInv(s) && rec.approvalId in s.rows && s.rows[rec.approvalId] == rec && rec.status == Approved
    ensures var passed := Passed(auth, ApprovedRequest(auth, rec), env(7), env(6));
      var result := ResultOf(s, rec, env(6).policyId);
      var row := ExecutedRow(rec, result, env(3).now);
      Finish(auth, s, Begin(rec), env) ==
        if !passed then After(s, Done(Response(rec, Blocked)))
        else if env(5).provider.FailsBefore? then After(s, Done(Failed(ProviderFailed)))
        else if env(5).provider.FailsAfter? then After(BooksAfter(s, rec), Done(Failed(ProviderFailed)))
        else if !env(4).completes then After(BooksAfter(s, rec), Done(Failed(LifecycleIncomplete)))
        else After(BooksAfter(s, rec).(rows := s.rows[rec.approvalId := row]), Done(Response(row, Issued(result))))
  {
    assert RowOk(rec);
    hide Finish, SharedInv;
    AuthorizeAlone(auth, s, rec, env);
    IssueAlone(auth, s, rec, env(6).policyId, env);
    WriteBack(auth, BooksAfter(s, rec), rec, ResultOf(s, rec, env(6).policyId), env);
  }

  /** The row the executor is given: decided now when it was still pending. */
  function DecidedRow(row: ApprovalRecord, approved: bool, operator: string, note: Option<string>, now: Moment)
    : ApprovalRecord
  {
    if row.status == Pending then
      row.(status := if approved then Approved else Denied,
           decidedAt := Some(now), decidedBy := Some(operator), decisionNote := note)
    else row
  }

  lemma ApprovalReachesExecutor(auth: Authorizer, s: Shared, id: string, operator: string, note: Option<string>,
                                env: nat -> Env)
    requires SharedInv(s) && id in s.rows && (s.rows[id].status == Approved || s.rows[id].status == Pending)
    ensures var rec := DecidedRow(s.rows[id], true, operator, note, env(9).now);
      var s' := s.(rows := s.rows[id := rec]);
      && SharedInv(s') && rec.approvalId == id && rec.status == Approved
      && Finish(auth, s, ApproveRequire(id, operator, note), env) == Finish(auth, s', Begin(rec), env)
  {
    hide Finish, SharedInv, CallStep;
    var rec := DecidedRow(s.rows[id], true, operator, note, env(9).now);
    var s' := s.(rows := s.rows[id := rec]);
    RowsKeyed(s, id);
    DecideStepInv(s, id, true, operator, note, env(9).now);
    assert s.rows[id := s.rows[id]] == s.rows;
    OneApproveStep(auth, s, ApproveRequire(id, operator, note), env);
    OneApproveStep(auth, s, ApproveDecide(id, operator, note), env);
    if s.rows[id].status == Pending {
      OneApproveStep(auth, s', ApproveReread(id), env);
    }
  }

  /** An approve call that cannot go ahead says why and changes nothing. */
  lemma ApproveWithoutExecution(auth: Authorizer, s: Shared, id: string, operator: string, note: Option<string>,
                                env: nat -> Env)
    requires id in s.rows ==> s.rows[id].status == Denied || s.rows[id].status == Executed
    ensures Finish(auth, s, ApproveRequire(id, operator, note), env) ==
      After(s, Done(
        if id !in s.rows then NotFound
        else if s.rows[id].status == Denied then Conflict(Denied)
        else Replay(s.rows[id], MarkReplayed(s.rows[id].executionResult))))
  {
    hide Finish;
    OneStep(auth, s, ApproveRequire(id, operator, note), env);
    OneStep(auth, s, ApproveDecide(id, operator, note), env);
    OneStep(auth, s, Done(NotFound), env);
    OneStep(auth, s, Done(Conflict(Denied)), env);
    if id in s.rows && s.rows[id].status == Executed {
      OneStep(auth, s, Done(Replay(s.rows[id], MarkReplayed(s.rows[id].executionResult))), env);
    }
  }

  /** A deny call decides a pending row, repeats a denial, and refuses anything else. */
  lemma DenyAlone(auth: Authorizer, s: Shared, id: string, operator: string, note: Option<string>, env: nat -> Env)
    ensures Finish(auth, s, DenyDecide(id, operator, note), env) ==
      if id !in s.rows then After(s, Done(NotFound))
      else if s.rows[id].status == Approved || s.rows[id].status == Executed then
        After(s, Done(Conflict(s.rows[id].status)))
      else
        var row := DecidedRow(s.rows[id], false, operator, note, env(2).now);
        After(s.(rows := s.rows[id := row]), Done(Denial(row)))
  {
    hide Finish;
    OneStep(auth, s, DenyDecide(id, operator, note), env);
    OneStep(auth, s, Done(NotFound), env);
    if id in s.rows {
      assert s.rows[id := s.rows[id]] == s.rows;
      var row := DecidedRow(s.rows[id], false, operator, note, env(2).now);
      var s' := s.(rows := s.rows[id := row]);
      OneStep(auth, s, Done(Conflict(s.rows[id].status)), env);
      OneStep(auth, s', DenyReread(id), env);
      OneStep(auth, s', Done(Denial(row)), env);
    }
  }

  /** A direct credit reaches the provider exactly when admission, permit and revalidation all pass. */
  lemma DirectGateAlone(auth: Authorizer, s: Shared, d: DirectCredit, n: nat, env: nat -> Env)
    ensures var question := Request(
              CreditIssue, auth.ids.serviceRecovery, "reservation:" + d.reservationId,
              map[Amount := d.amount], map[], map[]);
      Finish(auth, s, DirectBegin(d, n), env) ==
        if auth.mayAllow(question) && env(n + 4).admitted && env(n + 4).permit && env(n + 3).live then
          Finish(auth, s, DirectAttempt(d, n), env)
        else After(s, Done(CallBlocked))
  {
    hide Finish, CallStep;
    OneDirectStep(auth, s, DirectBegin(d, n), env);
    OneDirectStep(auth, s, DirectRevalidate(d, n), env);
    Ended(auth, s, CallBlocked, env);
  }

  /** The provider's behaviour attempt by attempt, for a direct call with `n` attempts. */
  function Script(env: nat -> Env, n: nat): nat -> ProviderBehaviour {
    (k: nat) => env(if k <= n then n + 2 - k else 0).provider
  }

  /** Where a direct credit ends, given how the provider behaved on the last attempt. */
  function SettledCredit(s: Shared, d: DirectCredit, final: ProviderBehaviour, completes: bool): After {
    var key, credit := DirectKey(d.digest), Credit(d.reservationId, d.amount, d.reason);
    After(s.(ledger := BoundedRetry.Booked(s.ledger, key, credit, final)),
      match BoundedRetry.ReplyTo(s.ledger, key, credit, final)
      case Answered(result) => Done(if completes then DirectIssued(result) else Failed(LifecycleIncomplete))
      case Raises(_) => Done(Failed(ProviderFailed)))
  }

  /**
   * A direct credit from any attempt on ends as the retry specification says: with the
   * books of that one final outcome, and with its answer or a failure.
   */
  lemma {:induction false} DirectAttemptsAlone(auth: Authorizer, s: Shared, d: DirectCredit, n: nat, left: nat,
                                               env: nat -> Env)
    requires 1 <= left <= n
    ensures Finish(auth, s, DirectAttempt(d, left), env) ==
            SettledCredit(s, d, BoundedRetry.Retried(Script(env, n), n - left, left), env(1).completes)
  {
    hide Finish, SettledCredit, Script, BoundedRetry.Retried;
    RetriedOnce(env, n, left);
    if BoundedRetry.IsTransient(env(left + 2).provider) && left > 1 {
      AttemptGoesRound(auth, s, d, left, env);
      DirectAttemptsAlone(auth, s, d, n, left - 1, env);
    } else {
      LastAttempt(auth, s, d, left, env);
    }
  }

  /** The whole provider write of a direct credit. */
  lemma DirectWriteAlone(auth: Authorizer, s: Shared, d: DirectCredit, n: nat, env: nat -> Env)
    requires n >= 1
    ensures Finish(auth, s, DirectAttempt(d, n), env) ==
            SettledCredit(s, d, BoundedRetry.Retried(Script(env, n), 0, n), env(1).completes)
  {
    hide Finish, SettledCredit, Script, BoundedRetry.Retried;
    DirectAttemptsAlone(auth, s, d, n, n, env);
  }

  lemma RetriedOnce(env: nat -> Env, n: nat, left: nat)
    requires 1 <= left <= n
    ensures BoundedRetry.Retried(Script(env, n), n - left, left) ==
            if BoundedRetry.IsTransient(env(left + 2).provider) && left > 1 then
              BoundedRetry.Retried(Script(env, n), n - (left - 1), left - 1)
            else env(left + 2).provider
  {
    hide BoundedRetry.Retried, Script;
    var k := n - left;
    ScriptAt(env, n, k);
    RetriedUnfolds(Script(env, n), k, left);
    assert n + 2 - k == left + 2 && k + 1 == n - (left - 1);
  }

  lemma ScriptAt(env: nat -> Env, n: nat, k: nat)
    requires k <= n
    ensures Script(env, n)(k) == env(n + 2 - k).provider
  {
  }

  lemma RetriedUnfolds(script: nat -> ProviderBehaviour, from: nat, left: nat)
    requires left >= 1
    ensures BoundedRetry.Retried(script, from, left) ==
            if BoundedRetry.IsTransient(script(from)) && left > 1 then BoundedRetry.Retried(script, from + 1, left - 1)
            else script(from)
  {
  }

  lemma AttemptGoesRound(auth: Authorizer, s: Shared, d: DirectCredit, left: nat, env: nat -> Env)
    requires left > 1 && BoundedRetry.IsTransient(env(left + 2).provider)
    ensures Finish(auth, s, DirectAttempt(d, left), env) == Finish(auth, s, DirectAttempt(d, left - 1), env)
  {
    hide Finish, CallStep;
    OneDirectStep(auth, s, DirectAttempt(d, left), env);
  }

  lemma LastAttempt(auth: Authorizer, s: Shared, d: DirectCredit, left: nat, env: nat -> Env)
    requires left <= 1 || !BoundedRetry.IsTransient(env(left + 2).provider)
    ensures Finish(auth, s, DirectAttempt(d, left), env) ==
            SettledCredit(s, d, env(left + 2).provider, env(1).completes)
  {
    hide Finish, CallStep, Submit;
    var done := SubmitCredit(s, DirectKey(d.digest), Credit(d.reservationId, d.amount, d.reason));
    var answer := ProviderResult(done.item, done.deduplicated);
    var s' := s.(ledger := done.log);
    OneDirectStep(auth, s, DirectAttempt(d, left), env);
    match env(left + 2).provider
    case Answers =>
      OneDirectStep(auth, s', DirectComplete(d, answer), env);
      Ended(auth, s', if env(1).completes then DirectIssued(answer) else Failed(LifecycleIncomplete), env);
    case FailsBefore(_) =>
      Ended(auth, s, Failed(ProviderFailed), env);
    case FailsAfter =>
      Ended(auth, s', Failed(ProviderFailed), env);
  }

  lemma Ended(auth: Authorizer, s: Shared, outcome: Outcome, env: nat -> Env)
    ensures Finish(auth, s, Done(outcome), env) == After(s, Done(outcome))
  {
  }

  /** A call on its own, from any program point, leaves the shared invariant intact. */
  lemma {:induction false} FinishKeepsInvariant(auth: Authorizer, s: Shared, call: Call, env: nat -> Env)
    requires Sound(auth) && SharedInv(s) && CallInv(s, call)
    ensures var end := Finish(auth, s, call, env);
      SharedInv(end.shared) && CallInv(end.shared, end.call) && SharedGrows(s, end.shared)
    decreases Rank(call)
  {
    hide SharedInv, CallInv, SharedGrows, Finish;
    OneStep(auth, s, call, env);
    SharedGrowsReflexive(s);
    if !call.Done? {
      var after := CallStep(auth, s, call, env(Rank(call)));
      CallStepInv(auth, s, call, env(Rank(call)));
      FinishKeepsInvariant(auth, after.shared, after.call, env);
      SharedGrowsTransitive(s, after.shared, Finish(auth, after.shared, after.call, env).shared);
    }
  }

  // ---------- Crash recovery ----------

  /** Choices under which nothing stands in the way of an approved credit. */
  predicate Favourable(auth: Authorizer, rec: ApprovalRecord, env: nat -> Env) {
    Passed(auth, ApprovedRequest(auth, rec), env(7), env(6)) && env(5).provider.Answers? && env(4).completes
  }

  /** The whole approve call on its own, from a pending or approved row. */
  lemma ApproveAlone(auth: Authorizer, s: Shared, id: string, operator: string, note: Option<string>, env: nat -> Env)
    requires SharedInv(s) && id in s.rows && Favourable(auth, s.rows[id], env)
    requires s.rows[id].status == Approved || s.rows[id].status == Pending
    ensures var rec := DecidedRow(s.rows[id], true, operator, note, env(9).now);
      var result := ResultOf(s, rec, env(6).policyId);
      var row := ExecutedRow(rec, result, env(3).now);
      Finish(auth, s, ApproveRequire(id, operator, note), env) ==
        After(BooksAfter(s, rec).(rows := s.rows[id := row]), Done(Response(row, Issued(result))))
  {
    hide Finish, SharedInv, SubmitCredit;
    var rec := DecidedRow(s.rows[id], true, operator, note, env(9).now);
    var decided := s.(rows := s.rows[id := rec]);
    ApprovalReachesExecutor(auth, s, id, operator, note, env);
    assert ApprovedRequest(auth, rec) == ApprovedRequest(auth, s.rows[id]);
    ExecutionAlone(auth, decided, rec, env);
    var row := ExecutedRow(rec, ResultOf(s, rec, env(6).policyId), env(3).now);
    assert decided.rows[id := row] == s.rows[id := row];
    assert BooksAfter(decided, rec).ledger == BooksAfter(s, rec).ledger by {
      SameBooks(s, decided, rec);
    }
  }

  /**
   * The first completed decision wins: after a denial an approve call conflicts and a
   * second denial repeats the record, after an executed approval a denial conflicts and a
   * second approval replays the stored result; none of the four changes anything.
   */
  lemma FirstDecisionWins(auth: Authorizer, s: Shared, id: string, operator: string, note: Option<string>,
                          env: nat -> Env, other: string, otherNote: Option<string>, later: nat -> Env)
    requires SharedInv(s) && id in s.rows && s.rows[id].status == Pending
    ensures var denied := Finish(auth, s, DenyDecide(id, operator, note), env).shared;
      && id in denied.rows
      && Finish(auth, denied, ApproveRequire(id, other, otherNote), later) == After(denied, Done(Conflict(Denied)))
      && Finish(auth, denied, DenyDecide(id, other, otherNote), later) == After(denied, Done(Denial(denied.rows[id])))
    ensures Favourable(auth, s.rows[id], env) ==>
      var issued := Finish(auth, s, ApproveRequire(id, operator, note), env).shared;
      && id in issued.rows && issued.rows[id].executionResult.Some?
      && Finish(auth, issued, DenyDecide(id, other, otherNote), later) == After(issued, Done(Conflict(Executed)))
      && Finish(auth, issued, ApproveRequire(id, other, otherNote), later) ==
           After(issued, Done(Replay(issued.rows[id], MarkReplayed(issued.rows[id].executionResult))))
  {
    hide Finish, SharedInv, Submit, Favourable;
    DenyAlone(auth, s, id, operator, note, env);
    var denied := Finish(auth, s, DenyDecide(id, operator, note), env).shared;
    ApproveWithoutExecution(auth, denied, id, other, otherNote, later);
    DenyAlone(auth, denied, id, other, otherNote, later);
    assert denied.rows[id := denied.rows[id]] == denied.rows;
    if Favourable(auth, s.rows[id], env) {
      ApproveAlone(auth, s, id, operator, note, env);
      var issued := Finish(auth, s, ApproveRequire(id, operator, note), env).shared;
      ApproveWithoutExecution(auth, issued, id, other, otherNote, later);
      DenyAlone(auth, issued, id, other, otherNote, later);
    }
  }

  lemma SameBooks(s: Shared, other: Shared, rec: ApprovalRecord)
    requires s.ledger == other.ledger
    ensures BooksAfter(s, rec).ledger == BooksAfter(other, rec).ledger
  {
  }

  /** Starting a call and letting it run undisturbed is a continuation of the run. */
  lemma CallAloneIsARun(auth: Authorizer, es: seq<Event>, c: nat, call: Call, env: nat -> Env)
    requires c !in Reached(auth, es).calls && Initial(call)
    ensures var w := Reached(auth, es);
      var end := Finish(auth, w.shared, call, env);
      Reached(auth, es + ([Start(c, call)] + FinishEvents(auth, w.shared, c, call, env))) ==
        World(end.shared, w.calls[c := end.call])
  {
    hide Finish, FinishEvents, CallStep, Initial;
    var w := Reached(auth, es);
    var rest := FinishEvents(auth, w.shared, c, call, env);
    var tail := [Start(c, call)] + rest;
    RunConcat(auth, EMPTY_WORLD, es, tail);
    assert tail[1..] == rest;
    var started := Step(auth, w, tail[0]);
    FinishIsARun(auth, started, c, env);
    var end := Finish(auth, w.shared, call, env);
    assert started.calls[c := end.call] == w.calls[c := end.call];
  }

  /**
   * From every reachable state in which a record is approved (or still pending), whatever
   * calls are in flight and however earlier ones crashed or failed, one undisturbed
   * approve call that is authorized and answered ends in executed with exactly one
   * credit; every other record, credit and call is left as it was.  The stored duplicate
   * flag is set exactly when an earlier call, interrupted or still in flight, had already
   * put the credit on the books.
   */
  lemma CrashRecovery(auth: Authorizer, es: seq<Event>, c: nat, id: string, operator: string,
                      note: Option<string>, env: nat -> Env)
    requires Sound(auth)
    requires var w := Reached(auth, es);
      && c !in w.calls && id in w.shared.rows
      && (w.shared.rows[id].status == Approved || w.shared.rows[id].status == Pending)
      && Favourable(auth, w.shared.rows[id], env)
    ensures var w := Reached(auth, es);
      var call := ApproveRequire(id, operator, note);
      var w' := Reached(auth, es + ([Start(c, call)] + FinishEvents(auth, w.shared, c, call, env)));
      var asked := w.shared.rows[id];
      var credit := Credit(asked.reservationId, asked.amount, asked.reason);
      var repeated := |Effects(w.shared.ledger, id)| == 1;
      var result := ExecutionResult(credit, repeated, id, env(6).policyId);
      && id in w'.shared.rows && w'.shared.rows[id].status == Executed
      && w'.shared.rows[id].executionResult == Some(result)
      && w'.shared.rows == w.shared.rows[id := w'.shared.rows[id]]
      && w'.shared.ledger.entries ==
           w.shared.ledger.entries + (if repeated then [] else [Entry(Some(ApprovedKey(id)), credit)])
      && |Effects(w'.shared.ledger, id)| == 1
      && w'.calls == w.calls[c := Done(Response(w'.shared.rows[id], Issued(result)))]
  {
    hide Finish, FinishEvents, Run, SharedInv, CallInv, Effects, Submit;
    var w := Reached(auth, es);
    var call := ApproveRequire(id, operator, note);
    ReachedInv(auth, es);
    RowsKeyed(w.shared, id);
    RepeatedExactly(w.shared, id);
    ApproveAlone(auth, w.shared, id, operator, note, env);
    BooksGain(w.shared, DecidedRow(w.shared.rows[id], true, operator, note, env(9).now));
    CallAloneIsARun(auth, es, c, call, env);
    ExactlyOnceEffect(auth, es + ([Start(c, call)] + FinishEvents(auth, w.shared, c, call, env)), id);
  }

  lemma RepeatedExactly(s: Shared, id: string)
    requires SharedInv(s)
    ensures |Effects(s.ledger, id)| == 1 <==> ApprovedKey(id) in s.ledger.byKey
  {
    EffectsFollowIndex(s, id);
  }

  lemma BooksGain(s: Shared, rec: ApprovalRecord)
    ensures BooksAfter(s, rec).ledger.entries == s.ledger.entries +
      (if ApprovedKey(rec.approvalId) in s.ledger.byKey then []
       else [Entry(Some(ApprovedKey(rec.approvalId)), CreditOf(rec))])
  {
  }

  lemma RowsKeyed(s: Shared, id: string)
    requires SharedInv(s) && id in s.rows
    ensures s.rows[id].approvalId == id
  {
  }

  // ---------- With the rule table itself as authorizer ----------

  /** The authorizer that allows what the first matching rule of the table allows. */
  function TableAuthorizer(ids: Identities): Authorizer {
    Authorizer(ids, (req: Request) => FirstMatch(Rules(ids), req) == Allow)
  }

  lemma TableIsSound(ids: Identities)
    ensures Sound(TableAuthorizer(ids))
  {
    forall req: Request | TableAuthorizer(ids).mayAllow(req) ensures AllowRuleMatches(ids, req) {
      FirstMatchIsAllowRule(ids, req);
    }
  }

  lemma TableAllowsApproved(ids: Identities, rec: ApprovalRecord)
    requires rec.approvalId != "" && 0.0 < rec.amount <= 100.0
    ensures TableAuthorizer(ids).mayAllow(ApprovedRequest(TableAuthorizer(ids), rec))
  {
    var req := ApprovedRequest(TableAuthorizer(ids), rec);
    FirstMatchIsAllowRule(ids, req);
    AllowedExactly(ids, req);
  }

  /**
   * Every approval can be paid out: from every reachable state with the row approved or
   * pending, one undisturbed approve call whose checks, provider and lifecycle all say yes
   * executes it, and the provider then holds the one credit the row asks for.
   */
  lemma ApprovedGetsPaid(ids: Identities, es: seq<Event>, c: nat, id: string, operator: string,
                         note: Option<string>, env: nat -> Env)
    requires var w := Reached(TableAuthorizer(ids), es);
      && c !in w.calls && id in w.shared.rows && id != ""
      && (w.shared.rows[id].status == Approved || w.shared.rows[id].status == Pending)
    requires env(7).admitted && env(7).permit && env(6).live && env(5).provider.Answers? && env(4).completes
    ensures var auth := TableAuthorizer(ids);
      var w := Reached(auth, es);
      var call := ApproveRequire(id, operator, note);
      var w' := Reached(auth, es + ([Start(c, call)] + FinishEvents(auth, w.shared, c, call, env)));
      var row := w.shared.rows[id];
      && id in w'.shared.rows && w'.shared.rows[id].status == Executed
      && (row.status == Pending ==>
            w'.shared.rows[id].decidedBy == Some(operator) && w'.shared.rows[id].decisionNote == note)
      && exists i: nat ::
           i < |w'.shared.ledger.entries|
           && w'.shared.ledger.entries[i] ==
                Entry(Some("approved-credit:" + id), Credit(row.reservationId, row.amount, row.reason))
  {
    hide Finish, FinishEvents, Run, SharedInv, CallInv, TableAuthorizer, FirstMatch;
    var auth := TableAuthorizer(ids);
    var w := Reached(auth, es);
    var call := ApproveRequire(id, operator, note);
    TableIsSound(ids);
    ReachedInv(auth, es);
    RowInBand(w.shared, id);
    TableAllowsApproved(ids, w.shared.rows[id]);
    CrashRecovery(auth, es, c, id, operator, note, env);
    ApproveAlone(auth, w.shared, id, operator, note, env);
    CallAloneIsARun(auth, es, c, call, env);
    var more := es + ([Start(c, call)] + FinishEvents(auth, w.shared, c, call, env));
    ReachedInv(auth, more);
    CreditOnBooks(Reached(auth, more).shared, id);
  }

  lemma RowInBand(s: Shared, id: string)
    requires SharedInv(s) && id in s.rows
    ensures s.rows[id].approvalId == id && 25.0 < s.rows[id].amount <= 100.0
  {
    assert RowOk(s.rows[id]);
  }

  lemma CreditOnBooks(s: Shared, id: string)
    requires SharedInv(s) && id in s.rows && s.rows[id].status == Executed
    ensures var row := s.rows[id];
      exists i: nat ::
        i < |s.ledger.entries|
        && s.ledger.entries[i] ==
             Entry(Some("approved-credit:" + id), Credit(row.reservationId, row.amount, row.reason))
  {
    assert ExecutedOk(s, id);
    var e := Entry(Some(ApprovedKey(id)), CreditOf(s.rows[id]));
    assert e in s.ledger.entries;
    var i: nat :| i < |s.ledger.entries| && s.ledger.entries[i] == e;
  }

  /** A small direct credit that nothing stands in the way of is issued as asked, or repeated. */
  lemma SmallCreditGetsIssued(ids: Identities, s: Shared, d: DirectCredit, n: nat, env: nat -> Env)
    requires 0.0 < d.amount <= 25.0 && n >= 1
    requires env(n + 4).admitted && env(n + 4).permit && env(n + 3).live && env(n + 2).provider.Answers?
             && env(1).completes
    ensures var auth := TableAuthorizer(ids);
      var key := "credit:" + d.digest;
      var end := Finish(auth, s, DirectBegin(d, n), env);
      if key in s.ledger.byKey then
        end == After(s, Done(DirectIssued(ProviderResult(s.ledger.byKey[key], true))))
      else
        var credit := Credit(d.reservationId, d.amount, d.reason);
        && end.call == Done(DirectIssued(ProviderResult(credit, false))) && end.shared.rows == s.rows
        && end.shared.ledger.entries == s.ledger.entries + [Entry(Some(key), credit)]
  {
    hide Finish, TableAuthorizer, Script, BoundedRetry.Retried;
    var auth := TableAuthorizer(ids);
    TableAllowsDirect(ids, d);
    DirectGateAlone(auth, s, d, n, env);
    DirectWriteAlone(auth, s, d, n, env);
    RetriedOnce(env, n, n);
  }

  lemma TableAllowsDirect(ids: Identities, d: DirectCredit)
    requires 0.0 < d.amount <= 25.0
    ensures var auth := TableAuthorizer(ids);
      auth.ids == ids
      && auth.mayAllow(Request(CreditIssue, ids.serviceRecovery, "reservation:" + d.reservationId,
                               map[Amount := d.amount], map[], map[]))
  {
    var req := Request(CreditIssue, ids.serviceRecovery, "reservation:" + d.reservationId,
                       map[Amount := d.amount], map[], map[]);
    FirstMatchIsAllowRule(ids, req);
    AllowedExactly(ids, req);
  }

  // ---------- One request, one record ----------

  /** In every run there is at most one record per task, reservation and amount. */
  lemma OneRequestOneRecord(auth: Authorizer, es: seq<Event>, a: string, b: string)
    requires Sound(auth)
    requires var rows := Reached(auth, es).shared.rows;
      && a in rows && b in rows
      && rows[a].taskId == rows[b].taskId && rows[a].reservationId == rows[b].reservationId
      && rows[a].amount == rows[b].amount
    ensures a == b
  {
    ReachedInv(auth, es);
    var rows := Reached(auth, es).shared.rows;
    assert SameRequest(rows[a], rows[b]);
  }

  /** A request that will answer "deduplicated" creates nothing: it names an older record. */
  lemma DeduplicatedNamesOlderRecord(auth: Authorizer, es: seq<Event>, c: nat, env: Env)
    requires Sound(auth) && c in Reached(auth, es).calls
    requires Reached(auth, es).calls[c].RequestCreate? && Reached(auth, es).calls[c].existed
    ensures var w := Reached(auth, es);
      var w' := Step(auth, w, Advance(c, env));
      && w'.shared == w.shared
      && w'.calls[c].RequestComplete? && w'.calls[c].existed
      && w'.calls[c].rec.approvalId in w.shared.rows
      && w.shared.rows[w'.calls[c].rec.approvalId] == w'.calls[c].rec
  {
    ReachedInv(auth, es);
    var w := Reached(auth, es);
    assert CallInv(w.shared, w.calls[c]);
    CreateKeepsTable(w.shared.rows, env.freshId, w.calls[c].q, env.now);
  }

  /** A request looks in the store exactly when all three answers to its spelled-out question are yes. */
  lemma RequestGateAlone(auth: Authorizer, s: Shared, q: CreditRequest, env: nat -> Env)
    ensures var question := Request(
              Action.CreditRequest, auth.ids.serviceRecovery, "reservation:" + q.reservationId,
              map[Amount := q.amount], map[], map[]);
      Finish(auth, s, RequestBegin(q), env) ==
        if auth.mayAllow(question) && env(5).admitted && env(5).permit && env(4).live then
          Finish(auth, s, RequestFind(q), env)
        else After(s, Done(CallBlocked))
  {
    hide Finish, CallStep;
    OneRequestStep(auth, s, RequestBegin(q), env);
    OneRequestStep(auth, s, RequestRevalidate(q), env);
    Ended(auth, s, CallBlocked, env);
  }

  /** A row for this task, reservation and amount is stored. */
  ghost predicate Known(rows: Table, q: CreditRequest) {
    exists k :: k in rows && rows[k].taskId == q.taskId && rows[k].reservationId == q.reservationId
                && rows[k].amount == q.amount
  }

  /** An authorized request that was made before changes nothing and names the stored row. */
  lemma RepeatedRequestAlone(auth: Authorizer, s: Shared, q: CreditRequest, env: nat -> Env)
    requires Known(s.rows, q)
    ensures var end := Finish(auth, s, RequestFind(q), env);
      && end.shared == s && end.call.Done?
      && (!env(1).completes ==> end.call == Done(Failed(LifecycleIncomplete)))
      && (env(1).completes ==>
            && end.call.outcome.Requested? && end.call.outcome.deduplicated
            && var rec := end.call.outcome.record;
            && rec in s.rows.Values
            && rec.taskId == q.taskId && rec.reservationId == q.reservationId && rec.amount == q.amount)
  {
    hide Finish, CallStep, CreateTx, Find;
    var (rows, reply) := CreateTx(s.rows, env(2).freshId, q, env(2).now);
    CreateDecidedByContent(s.rows, env(2).freshId, q, env(2).now);
    FindsByContent(s.rows, q);
    OneRequestStep(auth, s, RequestFind(q), env);
    OneRequestStep(auth, s, RequestCreate(q, true), env);
    OneRequestStep(auth, s, RequestComplete(reply.record, true), env);
    Ended(auth, s, if env(1).completes then Requested(reply.record, true) else Failed(LifecycleIncomplete), env);
  }

  /** An authorized new request stores one undecided row with its own fields, under the fresh id. */
  lemma NewRequestAlone(auth: Authorizer, s: Shared, q: CreditRequest, env: nat -> Env)
    requires !Known(s.rows, q)
    ensures var end := Finish(auth, s, RequestFind(q), env);
      var id := env(2).freshId;
      if id in s.rows then end == After(s, Done(Failed(InsertRejected)))
      else
        && id in end.shared.rows && IsNewRequest(end.shared.rows[id], id, q, env(2).now)
        && end.shared == s.(rows := s.rows[id := end.shared.rows[id]])
        && end.call ==
             Done(if env(1).completes then Requested(end.shared.rows[id], false) else Failed(LifecycleIncomplete))
  {
    hide Finish, CallStep, CreateTx, Find;
    var (rows, reply) := CreateTx(s.rows, env(2).freshId, q, env(2).now);
    CreateDecidedByContent(s.rows, env(2).freshId, q, env(2).now);
    FindsByContent(s.rows, q);
    OneRequestStep(auth, s, RequestFind(q), env);
    OneRequestStep(auth, s, RequestCreate(q, false), env);
    var s' := s.(rows := rows);
    if reply.IdTaken? {
      Ended(auth, s', Failed(InsertRejected), env);
    } else {
      OneRequestStep(auth, s', RequestComplete(reply.record, false), env);
      Ended(auth, s', if env(1).completes then Requested(reply.record, false) else Failed(LifecycleIncomplete), env);
    }
  }

  lemma FindsByContent(t: Table, q: CreditRequest)
    ensures Find(t, q.taskId, q.reservationId, q.amount).Some? <==> Known(t, q)
    ensures HasMatch(t, q.taskId, q.reservationId, q.amount) <==> Known(t, q)
  {
    assert HasMatch(t, q.taskId, q.reservationId, q.amount) <==>
           exists k :: k in t && Matches(t[k], q.taskId, q.reservationId, q.amount);
  }

  /** When no other call moves in between, the flag is exact in both directions. */
  lemma FlagIsExactAlone(auth: Authorizer, s: Shared, q: CreditRequest, env: nat -> Env)
    requires SharedInv(s) && InRequestBand(q) && env(1).completes && env(2).freshId !in s.rows
    ensures var end := Finish(auth, s, RequestFind(q), env);
      && end.call.Done? && end.call.outcome.Requested?
      && var rec := end.call.outcome.record;
      && (end.call.outcome.deduplicated <==> HasMatch(s.rows, q.taskId, q.reservationId, q.amount))
      && (end.call.outcome.deduplicated <==> rec.approvalId in s.rows)
      && (end.call.outcome.deduplicated <==> end.shared == s)
      && rec.taskId == q.taskId && rec.reservationId == q.reservationId && rec.amount == q.amount
  {
    hide Finish, CallStep;
    FindsByContent(s.rows, q);
    if Known(s.rows, q) {
      RepeatedRequestAlone(auth, s, q, env);
    } else {
      NewRequestAlone(auth, s, q, env);
    }
    var rec := Finish(auth, s, RequestFind(q), env).call.outcome.record;
    if k :| k in s.rows && s.rows[k] == rec {
      RowsKeyed(s, k);
    }
  }

  lemma LooksUp(auth: Authorizer, s: Shared, q: CreditRequest, env: Env)
    ensures CallStep(auth, s, RequestFind(q), env) == After(s, RequestCreate(q, Known(s.rows, q)))
  {
  }

  /** The create step under a fresh id, on rows that satisfy the invariant. */
  lemma Inserts(auth: Authorizer, s: Shared, q: CreditRequest, existed: bool, env: Env)
    requires SharedInv(s) && CallInv(s, RequestCreate(q, existed)) && env.freshId !in s.rows
    ensures var after := CallStep(auth, s, RequestCreate(q, existed), env);
      && after.call.RequestComplete? && after.call.existed == existed
      && Matches(after.call.rec, q.taskId, q.reservationId, q.amount)
      && (after.call.rec.approvalId in s.rows <==> Known(s.rows, q))
      && (after.call.rec.approvalId in s.rows <==> after.shared == s)
      && (existed ==> Known(s.rows, q))
  {
    CreateKeepsTable(s.rows, env.freshId, q, env.now);
  }

  /**
   * The flag over runs.  A call looks up, any events follow that leave it where it is, it
   * inserts.  Its flag tells whether the record it names was already stored if and only if
   * nobody recorded this request in between.
   */
  lemma FlagIsExact(auth: Authorizer, es: seq<Event>, c: nat, look: Env, between: seq<Event>, insert: Env)
    requires Sound(auth) && c in Reached(auth, es).calls && Reached(auth, es).calls[c].RequestFind?
    requires var looked := Step(auth, Reached(auth, es), Advance(c, look));
      var w := Run(auth, looked, between);
      c in w.calls && w.calls[c] == looked.calls[c] && insert.freshId !in w.shared.rows
    ensures var first := Reached(auth, es);
      var q := first.calls[c].q;
      var w := Run(auth, Step(auth, first, Advance(c, look)), between);
      var w' := Step(auth, w, Advance(c, insert));
      var call := w'.calls[c];
      && call.RequestComplete?
      && call.rec.taskId == q.taskId && call.rec.reservationId == q.reservationId && call.rec.amount == q.amount
      && (call.rec.approvalId in w.shared.rows <==> w'.shared == w.shared)
      && ((call.existed <==> call.rec.approvalId in w.shared.rows) <==>
            (Known(first.shared.rows, q) <==> Known(w.shared.rows, q)))
  {
    hide Run, CallStep, SharedInv, CallInv;
    var first := Reached(auth, es);
    var looked := Step(auth, first, Advance(c, look));
    var w := Run(auth, looked, between);
    ReachedInv(auth, es);
    StepInv(auth, first, Advance(c, look));
    RunInv(auth, looked, between);
    var q := first.calls[c].q;
    LooksUp(auth, first.shared, q, look);
    assert CallInv(w.shared, w.calls[c]);
    Inserts(auth, w.shared, q, w.calls[c].existed, insert);
  }

  /**
   * Overlapping calls can miss a duplicate: both look before either inserts, so the second
   * reports a fresh request while naming the first one's record.
   */
  lemma FlagMissesARace(auth: Authorizer, s: Shared, q: CreditRequest, first: Env, second: Env)
    requires !HasMatch(s.rows, q.taskId, q.reservationId, q.amount) && first.freshId !in s.rows
    ensures var a := CallStep(auth, s, RequestFind(q), first);
      var b := CallStep(auth, a.shared, RequestFind(q), second);
      var a' := CallStep(auth, b.shared, a.call, first);
      var b' := CallStep(auth, a'.shared, b.call, second);
      && a'.call == RequestComplete(NewRow(first.freshId, q, first.now), false)
      && b'.call == a'.call && b'.shared == a'.shared
  {
    var row := NewRow(first.freshId, q, first.now);
    var rows := s.rows[first.freshId := row];
    var found := Find(s.rows, q.taskId, q.reservationId, q.amount);
    assert Matches(rows[first.freshId], q.taskId, q.reservationId, q.amount);
    var again := Find(rows, q.taskId, q.reservationId, q.amount);
    assert forall k :: k in s.rows ==> !Matches(s.rows[k], q.taskId, q.reservationId, q.amount);
    var id :| id in rows && rows[id] == again.value;
  }
}
