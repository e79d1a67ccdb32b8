/**
 * The operations as the service runs them: objects over one approval store and one
 * credit ledger, updated in place.  Every method is proved to do, when no other call
 * moves, exactly what the step system does with the same call and the same choices of
 * the environment; what the step system guarantees is proved in `CreditTheorems`.
 */
module CreditOperations {
  import opened Wrappers
  import opened Approvals
  import opened KeyedLog
  import opened Policy
  import opened CreditProtocol
  import BoundedRetry
  import CreditTheorems
  import Delegation
  import DirectCredits
  import IdempotencyKeys

  /** How an admitted execution was closed with the execution controller. */
  datatype Settlement = Completed | MarkedUnknown

  /** How the executor comes back to its caller. */
  datatype Exit = Returned(execution: Execution) | Raised(failure: Failure)

  /** Where the approve handler goes on after the executor came back. */
  function Resume(rec: ApprovalRecord, e: Exit): Call {
    match e
    case Returned(execution) => Refresh(rec.approvalId, execution)
    case Raised(failure) => Done(Failed(failure))
  }

  /** The settlement an execution leaves behind: one for each permit that passed, none without. */
  function SettledBy(e: Exit): seq<Settlement> {
    match e
    case Returned(execution) => if execution.Issued? then [Completed] else []
    case Raised(failure) => [if failure == ProviderFailed then MarkedUnknown else Completed]
  }

  /** The same, told by the answer of an approve call. */
  function Settled(outcome: Outcome): seq<Settlement> {
    match outcome
    case Response(_, execution) => SettledBy(Returned(execution))
    case Failed(failure) => SettledBy(Raised(failure))
    case _ => []
  }

  class CreditService {
    const store: ApprovalStore
    const provider: BoundedRetry.CreditProvider
    const ledger: KeyedProvider<Credit>
    const grants: Delegation.GrantStore
    const retryPolicy: BoundedRetry.AcceptedPolicy
    const hash: string -> string
    var settlements: seq<Settlement>

    constructor (store: ApprovalStore, provider: BoundedRetry.CreditProvider, grants: Delegation.GrantStore,
                 retryPolicy: BoundedRetry.AcceptedPolicy, hash: string -> string)
      ensures this.store == store && this.provider == provider && ledger == provider.ledger
      ensures this.grants == grants && this.retryPolicy == retryPolicy && this.hash == hash && settlements == []
    {
      this.store := store;
      this.provider := provider;
      this.ledger := provider.ledger;
      this.grants := grants;
      this.retryPolicy := retryPolicy;
      this.hash := hash;
      settlements := [];
    }

    ghost predicate Valid()
      reads this, provider, ledger
    {
      ledger == provider.ledger && ledger.Valid()
    }

    /** The shared state of the step system. */
    ghost function State(): Shared
      reads this, store, ledger
    {
      Shared(store.rows, ledger.AsLog())
    }

    // ---------- approved_credit.py ----------

    /** Write the result back and read the row again. */
    method WriteBack(auth: Authorizer, rec: ApprovalRecord, result: ExecutionResult, env: nat -> Env)
      returns (r: Exit)
      requires Valid()
      modifies store
      ensures State().ledger == old(State().ledger)
      ensures Finish(auth, old(State()), Mark(rec, result), env) == Finish(auth, State(), Resume(rec, r), env)
      ensures SettledBy(r) == [Completed] && r != Raised(RowLost)
      ensures old(store.rows).Keys <= store.rows.Keys && (r.Returned? ==> rec.approvalId in store.rows)
    {
      hide Finish;
      ghost var before := State();
      OneExecuteStep(auth, before, Mark(rec, result), env);
      var reply := store.MarkExecuted(rec.approvalId, result, env(3).now);
      match reply {
        case MarkUnknownApproval => return Raised(MarkRejected);
        case MarkWrongState(_) => return Raised(MarkRejected);
        case AlreadyExecuted(_) => return Returned(Issued(result));
        case Marked =>
          OneExecuteStep(auth, State(), MarkReread(rec.approvalId, result), env);
          var again := store.Get(rec.approvalId);
          return if again.None? then Raised(RowLost) else Returned(Issued(result));
      }
    }

    /** The provider write, its settlement with the controller, and the write-back. */
    method IssueApproved(auth: Authorizer, rec: ApprovalRecord, policyId: Option<string>, env: nat -> Env)
      returns (r: Exit)
      requires Valid()
      modifies this`settlements, store, provider, ledger
      ensures Valid()
      ensures Finish(auth, old(State()), Issue(rec, policyId), env) == Finish(auth, State(), Resume(rec, r), env)
      ensures settlements == old(settlements) + SettledBy(r)
      ensures SettledBy(r) == [if env(5).provider.Answers? then Completed else MarkedUnknown]
      ensures provider.effects == old(provider.effects) + (if Acts(env(5).provider) then 1 else 0)
      ensures r != Raised(RowLost) && old(store.rows).Keys <= store.rows.Keys
    {
      hide Finish;
      OneExecuteStep(auth, State(), Issue(rec, policyId), env);
      var reply := provider.Issue(CreditOf(rec), ApprovedKey(rec.approvalId), env(5).provider);
      if reply.Raises? {
        settlements := settlements + [MarkedUnknown];
        return Raised(ProviderFailed);
      }
      settlements := settlements + [Completed];
      var answer := reply.result;
      OneExecuteStep(auth, State(), Complete(rec, policyId, answer), env);
      if !env(4).completes {
        return Raised(LifecycleIncomplete);
      }
      r := WriteBack(auth, rec, ExecutionResult(answer.credit, answer.deduplicated, rec.approvalId, policyId), env);
    }

    /** Replay, block, authorize twice, then issue: the executor. */
    method Execute(auth: Authorizer, rec: ApprovalRecord, env: nat -> Env) returns (r: Exit)
      requires Valid()
      modifies this`settlements, store, provider, ledger
      ensures Valid()
      ensures Finish(auth, old(State()), Begin(rec), env) == Finish(auth, State(), Resume(rec, r), env)
      ensures settlements == old(settlements) + SettledBy(r)
      ensures var question := Request(
          CreditIssueApproved, auth.ids.approvalExecutor, "reservation:" + rec.reservationId,
          map[Amount := rec.amount], map[ApprovalId := rec.approvalId], map[ApprovalVerified := true]);
        SettledBy(r) ==
        if rec.status != Approved || !Passed(auth, question, env(7), env(6)) then []
        else if env(5).provider.Answers? then [Completed] else [MarkedUnknown]
      ensures rec.status == Executed ==>
        State() == old(State()) && r == Returned(Replayed(ExecutorReplay(rec)))
      ensures old(provider.effects) <= provider.effects <= old(provider.effects) + 1
      ensures r != Raised(RowLost) && old(store.rows).Keys <= store.rows.Keys
    {
      hide Finish;
      OneStep(auth, State(), Begin(rec), env);
      OneStep(auth, State(), Revalidate(rec), env);
      if rec.status == Executed {
        return Returned(Replayed(ExecutorReplay(rec)));
      }
      if rec.status != Approved {
        return Returned(Blocked);
      }
      var req := ApprovedRequest(auth, rec);
      if !env(7).admitted || !auth.mayAllow(req) || !env(7).permit {
        return Returned(Blocked);
      }
      if !env(6).live || !auth.mayAllow(req) {
        return Returned(Blocked);
      }
      r := IssueApproved(auth, rec, env(6).policyId, env);
    }

    // ---------- main.py ----------

    /**
     * The approve handler.  Its one grant to the executor is registered exactly when the
     * approval was still pending or already approved.
     */
    method ApproveCreditRequest(auth: Authorizer, id: string, operator: string, note: Option<string>, env: nat -> Env,
                                taskId: string, grantId: string, now: int)
      returns (outcome: Outcome)
      requires Valid() && TableOk(store.rows)
      modifies this`settlements, store, provider, ledger, grants
      ensures Valid()
      ensures Finish(auth, old(State()), ApproveRequire(id, operator, note), env) == After(State(), Done(outcome))
      ensures outcome != Failed(RowLost) && settlements == old(settlements) + Settled(outcome)
      ensures old(provider.effects) <= provider.effects <= old(provider.effects) + 1
      ensures
        if id in old(store.rows) && old(store.rows)[id].status in {Pending, Approved} then
          var grant := Delegation.Grant(grantId, operator, auth.ids.approvalExecutor, taskId,
                                        Delegation.AmountScope(CreditIssueApproved, 100.0), now, now + 600);
          && grants.grants == old(grants.grants) + {grant}
          && Delegation.ValidChain([grant], Delegation.Task(taskId, operator, now + 600), auth.ids.approvalExecutor,
                                   grants.grants)
        else grants.grants == old(grants.grants)
    {
      hide Finish, CallStep, Delegation.ValidChain, OneRowPerRequest;
      OneApproveStep(auth, State(), ApproveRequire(id, operator, note), env);
      OneApproveStep(auth, State(), ApproveDecide(id, operator, note), env);
      var found := store.Get(id);
      if found.None? {
        outcome := NotFound;
      } else if found.value.status == Executed {
        outcome := Replay(found.value, MarkReplayed(found.value.executionResult));
      } else {
        var decision := store.Decide(id, true, operator, note, env(9).now);
        match decision {
          case UnknownApproval => outcome := NotFound;
          case WrongState(status) => outcome := Conflict(status);
          case AlreadyDecided(rec) =>
            GrantExecutor(auth, operator, taskId, grantId, now);
            outcome := ExecuteAndRefresh(auth, rec, env);
          case Decided =>
            OneApproveStep(auth, State(), ApproveReread(id), env);
            var reread := store.Get(id);
            if reread.None? {
              outcome := NotFound;
            } else {
              GrantExecutor(auth, operator, taskId, grantId, now);
              outcome := ExecuteAndRefresh(auth, reread.value, env);
            }
        }
      }
      CreditTheorems.Ended(auth, State(), outcome, env);
    }

    /** One grant from the operator to the executor, for a fresh task of ten minutes. */
    method GrantExecutor(auth: Authorizer, operator: string, taskId: string, grantId: string, now: int)
      modifies grants
      ensures var grant := Delegation.Grant(grantId, operator, auth.ids.approvalExecutor, taskId,
                                            Delegation.AmountScope(CreditIssueApproved, 100.0), now, now + 600);
        && grants.grants == old(grants.grants) + {grant}
        && Delegation.ValidChain([grant], Delegation.Task(taskId, operator, now + 600), auth.ids.approvalExecutor,
                                 grants.grants)
    {
      var task := Delegation.Task(taskId, operator, now + Delegation.EXECUTOR_SECONDS);
      var chain := grants.IssueApprovalExecutor(auth.ids, task, Delegation.EXECUTOR_LIMIT, now, grantId);
      assert chain.value == [chain.value[0]];
    }

    method ExecuteAndRefresh(auth: Authorizer, rec: ApprovalRecord, env: nat -> Env) returns (outcome: Outcome)
      requires Valid() && rec.approvalId in store.rows
      modifies this`settlements, store, provider, ledger
      ensures Valid()
      ensures Finish(auth, old(State()), Begin(rec), env) == Finish(auth, State(), Done(outcome), env)
      ensures outcome != Failed(RowLost) && settlements == old(settlements) + Settled(outcome)
      ensures old(provider.effects) <= provider.effects <= old(provider.effects) + 1
    {
      hide Finish;
      var executed := Execute(auth, rec, env);
      if executed.Raised? {
        return Failed(executed.failure);
      }
      OneStep(auth, State(), Refresh(rec.approvalId, executed.execution), env);
      var refreshed := store.Get(rec.approvalId);
      outcome := if refreshed.None? then Failed(RowLost) else Response(refreshed.value, executed.execution);
    }

    method DenyCreditRequest(auth: Authorizer, id: string, operator: string, note: Option<string>, env: nat -> Env)
      returns (outcome: Outcome)
      modifies store
      ensures Finish(auth, old(State()), DenyDecide(id, operator, note), env) == After(State(), Done(outcome))
    {
      hide Finish;
      OneStep(auth, State(), DenyDecide(id, operator, note), env);
      var decision := store.Decide(id, false, operator, note, env(2).now);
      match decision {
        case UnknownApproval => outcome := NotFound;
        case WrongState(status) => outcome := Conflict(status);
        case AlreadyDecided(rec) => outcome := Denial(rec);
        case Decided =>
          OneStep(auth, State(), DenyReread(id), env);
          var reread := store.Get(id);
          outcome := if reread.None? then NotFound else Denial(reread.value);
      }
      OneStep(auth, State(), Done(outcome), env);
    }

    // ---------- guest_operations.py ----------

    /** The operation of an authorized request: look, create, report. */
    method CreateRequest(auth: Authorizer, q: CreditRequest, env: nat -> Env) returns (outcome: Outcome)
      requires OneRowPerRequest(store.rows)
      modifies this`settlements, store
      ensures Finish(auth, old(State()), RequestFind(q), env) == Finish(auth, State(), Done(outcome), env)
      ensures settlements == old(settlements) +
        [if outcome == Failed(InsertRejected) then MarkedUnknown else Completed]
      ensures store.rows == old(store.rows) ||
        (env(2).freshId in store.rows && env(2).freshId !in old(store.rows)
         && store.rows == old(store.rows)[env(2).freshId := store.rows[env(2).freshId]]
         && IsNewRequest(store.rows[env(2).freshId], env(2).freshId, q, env(2).now))
      ensures outcome.Requested? ==>
        if store.rows == old(store.rows) then outcome.record in store.rows.Values
        else outcome.record == store.rows[env(2).freshId]
    {
      hide Finish, OneRowPerRequest, Find, CreateTx, CallStep;
      CreateDecidedByContent(store.rows, env(2).freshId, q, env(2).now);
      OneRequestStep(auth, State(), RequestFind(q), env);
      var existing := store.FindCreditRequest(q.taskId, q.reservationId, q.amount);
      OneRequestStep(auth, State(), RequestCreate(q, existing.Some?), env);
      var reply := store.CreateCreditRequest(env(2).freshId, q, env(2).now);
      if reply.IdTaken? {
        settlements := settlements + [MarkedUnknown];
        return Failed(InsertRejected);
      }
      settlements := settlements + [Completed];
      OneRequestStep(auth, State(), RequestComplete(reply.record, existing.Some?), env);
      outcome := if env(1).completes then Requested(reply.record, existing.Some?) else Failed(LifecycleIncomplete);
    }

    method RequestGuestCredit(auth: Authorizer, q: CreditRequest, env: nat -> Env) returns (outcome: Outcome)
      requires OneRowPerRequest(store.rows)
      modifies this`settlements, store
      ensures Finish(auth, old(State()), RequestBegin(q), env) == After(State(), Done(outcome))
      ensures var question := Request(
          Action.CreditRequest, auth.ids.serviceRecovery, "reservation:" + q.reservationId,
          map[Amount := q.amount], map[], map[]);
        settlements == old(settlements) +
        (if !Passed(auth, question, env(5), env(4)) then []
         else if outcome == Failed(InsertRejected) then [MarkedUnknown] else [Completed])
      ensures store.rows == old(store.rows) ||
        (env(2).freshId in store.rows && env(2).freshId !in old(store.rows)
         && store.rows == old(store.rows)[env(2).freshId := store.rows[env(2).freshId]]
         && IsNewRequest(store.rows[env(2).freshId], env(2).freshId, q, env(2).now))
      ensures outcome.Requested? ==>
        if store.rows == old(store.rows) then outcome.record in store.rows.Values
        else outcome.record == store.rows[env(2).freshId]
    {
      hide Finish, OneRowPerRequest;
      OneStep(auth, State(), RequestBegin(q), env);
      OneStep(auth, State(), RequestRevalidate(q), env);
      var req := RequestCall(auth.ids, q.reservationId, q.amount);
      if !env(5).admitted || !auth.mayAllow(req) || !env(5).permit || !env(4).live {
        outcome := CallBlocked;
      } else {
        outcome := CreateRequest(auth, q, env);
      }
      OneStep(auth, State(), Done(outcome), env);
    }

    // ---------- guest_credit.py ----------

    /** The bounded retry around the provider write, its settlement, and the lifecycle check. */
    method AttemptUntilSettled(auth: Authorizer, d: DirectCredit, env: nat -> Env)
      returns (outcome: Outcome, reported: seq<nat>, slept: seq<real>)
      requires Valid()
      modifies this`settlements, provider, ledger
      ensures Valid()
      ensures Finish(auth, old(State()), DirectAttempt(d, retryPolicy.maxAttempts), env)
              == After(State(), Done(outcome))
      ensures var final := BoundedRetry.Retried(Script(env), 0, retryPolicy.maxAttempts);
        && provider.effects == old(provider.effects) + (if Acts(final) then 1 else 0)
        && settlements == old(settlements) + [if final.Answers? then Completed else MarkedUnknown]
      ensures |reported| < retryPolicy.maxAttempts && BoundedRetry.CountsUp(reported)
      ensures slept == BoundedRetry.Sleeps(retryPolicy, |reported|)
    {
      hide Finish, CallStep, CreditTheorems.Script;
      hide BoundedRetry.Retried, BoundedRetry.Sleeps, BoundedRetry.Booked, BoundedRetry.CountsUp;
      CreditTheorems.DirectWriteAlone(auth, State(), d, retryPolicy.maxAttempts, env);
      var reply, retries, waits, made := BoundedRetry.ExecuteWithBoundedRetry(
        provider, Credit(d.reservationId, d.amount, d.reason), DirectKey(d.digest), Script(env), retryPolicy);
      reported, slept := retries, waits;
      if reply.Raises? {
        settlements := settlements + [MarkedUnknown];
        outcome := Failed(ProviderFailed);
      } else {
        settlements := settlements + [Completed];
        outcome := if env(1).completes then DirectIssued(reply.result) else Failed(LifecycleIncomplete);
      }
    }

    /** The provider's behaviour attempt by attempt. */
    function Script(env: nat -> Env): nat -> ProviderBehaviour {
      CreditTheorems.Script(env, retryPolicy.maxAttempts)
    }

    /**
     * Authorize twice, then write with bounded retry.  A permit that passed makes the
     * provider act at most once, even without idempotency, and is settled exactly once,
     * as completed exactly when the final outcome was an answer; without one nothing moves.
     */
    method IssueCredit(auth: Authorizer, taskId: string, reservationId: string, amount: real, reason: string,
                       env: nat -> Env)
      returns (outcome: Outcome, reported: seq<nat>, slept: seq<real>)
      requires Valid()
      modifies this`settlements, provider, ledger
      ensures Valid()
      ensures Finish(auth, old(State()),
                     DirectBegin(DirectCredits.DirectCreditOf(hash, taskId, reservationId, amount, reason),
                                 retryPolicy.maxAttempts), env)
              == After(State(), Done(outcome))
      ensures |reported| < retryPolicy.maxAttempts && BoundedRetry.CountsUp(reported)
      ensures slept == BoundedRetry.Sleeps(retryPolicy, |reported|)
      ensures var n := retryPolicy.maxAttempts;
        var final := BoundedRetry.Retried(Script(env), 0, n);
        var question := Request(
          CreditIssue, auth.ids.serviceRecovery, "reservation:" + reservationId, map[Amount := amount], map[], map[]);
        if Passed(auth, question, env(n + 4), env(n + 3)) then
          && provider.effects == old(provider.effects) + (if Acts(final) then 1 else 0)
          && settlements == old(settlements) + [if final.Answers? then Completed else MarkedUnknown]
        else
          && provider.effects == old(provider.effects) && settlements == old(settlements)
          && outcome == CallBlocked && State() == old(State())
      ensures Sound(auth) && IdempotencyKeys.Injective(hash) && '\n' !in taskId
              && DirectCredits.BooksByContent(hash, old(ledger.AsLog())) ==>
        && DirectCredits.BooksByContent(hash, ledger.AsLog())
        && (outcome.DirectIssued? ==>
              && outcome.answer.credit.reservationId == reservationId
              && -0.01 <= outcome.answer.credit.amount - amount <= 0.01
              && (!outcome.answer.deduplicated ==>
                    outcome.answer.credit == Credit(reservationId, amount, reason)))
    {
      hide Finish, CallStep, CreditTheorems.Script, IdempotencyKeys.CreditText;
      hide BoundedRetry.Retried, BoundedRetry.Sleeps, Sound, IdempotencyKeys.Injective, DirectCredits.BooksByContent;
      var n: nat := retryPolicy.maxAttempts;
      var d := DirectCredits.DirectCreditOf(hash, taskId, reservationId, amount, reason);
      CreditTheorems.DirectGateAlone(auth, State(), d, n, env);
      AnsweredByContent(auth, State(), taskId, reservationId, amount, reason, n, env);
      var req := CreditCall(auth.ids, reservationId, amount);
      if !env(n + 4).admitted || !auth.mayAllow(req) || !env(n + 4).permit || !env(n + 3).live {
        NoSleep();
        outcome, reported, slept := CallBlocked, [], [];
      } else {
        outcome, reported, slept := AttemptUntilSettled(auth, d, env);
      }
    }

    lemma AnsweredByContent(auth: Authorizer, s: Shared, taskId: string, reservationId: string, amount: real,
                            reason: string, n: nat, env: nat -> Env)
      requires n >= 1
      ensures var call := DirectBegin(DirectCredits.DirectCreditOf(hash, taskId, reservationId, amount, reason), n);
        var end := Finish(auth, s, call, env);
        Sound(auth) && IdempotencyKeys.Injective(hash) && '\n' !in taskId
        && DirectCredits.BooksByContent(hash, s.ledger) ==>
          && DirectCredits.BooksByContent(hash, end.shared.ledger) && end.call.Done?
          && (end.call.outcome.DirectIssued? ==>
                && end.call.outcome.answer.credit.reservationId == reservationId
                && -0.01 <= end.call.outcome.answer.credit.amount - amount <= 0.01
                && (!end.call.outcome.answer.deduplicated ==>
                      end.call.outcome.answer.credit == Credit(reservationId, amount, reason)))
    {
      hide Finish;
      if Sound(auth) && IdempotencyKeys.Injective(hash) && '\n' !in taskId
         && DirectCredits.BooksByContent(hash, s.ledger)
      {
        DirectCredits.CallByContentAlone(hash, auth, s, taskId, reservationId, amount, reason, n, env);
      }
    }

    lemma NoSleep()
      ensures BoundedRetry.Sleeps(retryPolicy, 0) == []
    {
    }
  }
}
