/**
 * Task-bound delegation: grants, chains of grants, and the issuers that register them.
 * What makes a chain valid is the abstract contract of the authorizer.
 */
module Delegation {
  import opened Wrappers
  import opened Policy

  datatype Task = Task(taskId: string, initiatedBy: string, expiresAt: int)

  datatype Scope = Scope(actions: set<Action>, prefixes: seq<string>, limits: map<Argument, real>)

  datatype Grant = Grant(
    grantId: string, grantorId: string, granteeId: string, taskId: string, scope: Scope,
    issuedAt: int, expiresAt: int)

  predicate Permits(s: Scope, req: Request) {
    && req.action in s.actions
    && (exists p :: p in s.prefixes && p <= req.resource)
    && (forall a :: a in s.limits ==> a in req.numbers && req.numbers[a] <= s.limits[a])
  }

  /** Every authority in `child` is already in `parent`. */
  predicate Within(child: Scope, parent: Scope) {
    && child.actions <= parent.actions
    && (forall p :: p in child.prefixes ==> exists q :: q in parent.prefixes && q <= p)
    && (forall a :: a in parent.limits ==> a in child.limits && child.limits[a] <= parent.limits[a])
  }

  /** A chain from the task's human to the executing principal, each grant within the one before. */
  predicate ValidChain(chain: seq<Grant>, task: Task, executor: string, registered: set<Grant>) {
    && chain != []
    && chain[0].grantorId == task.initiatedBy
    && chain[0].expiresAt <= task.expiresAt
    && chain[|chain| - 1].granteeId == executor
    && (forall i :: 0 <= i < |chain| ==> chain[i] in registered && chain[i].taskId == task.taskId)
    && (forall i :: 0 < i < |chain| ==> Follows(chain[i - 1], chain[i]))
  }

  predicate Follows(parent: Grant, child: Grant) {
    child.grantorId == parent.granteeId && child.expiresAt <= parent.expiresAt && Within(child.scope, parent.scope)
  }

  lemma WithinTransitive(a: Scope, b: Scope, c: Scope)
    requires Within(a, b) && Within(b, c)
    ensures Within(a, c)
  {
  }

  lemma WithinPermitsLess(child: Scope, parent: Scope, req: Request)
    requires Within(child, parent) && Permits(child, req)
    ensures Permits(parent, req)
  {
  }

  /**
   * Along a valid chain of any length, authority and lifetime only shrink: whatever a
   * later grant permits, every earlier grant permits, until no later than the task ends.
   */
  lemma {:induction false} Attenuation(
    chain: seq<Grant>, task: Task, executor: string, registered: set<Grant>, i: nat, j: nat, req: Request)
    requires ValidChain(chain, task, executor, registered) && i <= j < |chain|
    ensures Within(chain[j].scope, chain[i].scope)
    ensures chain[j].expiresAt <= chain[i].expiresAt <= task.expiresAt
    ensures chain[i].taskId == chain[j].taskId == task.taskId && chain[i] in registered && chain[j] in registered
    ensures Permits(chain[j].scope, req) ==> Permits(chain[i].scope, req)
    decreases j
  {
    if i == j {
      forall p | p in chain[i].scope.prefixes ensures exists q :: q in chain[i].scope.prefixes && q <= p {
        assert p <= p;
      }
      if i > 0 {
        Attenuation(chain, task, executor, registered, i - 1, i - 1, req);
        assert Follows(chain[i - 1], chain[i]);
      }
    } else {
      Attenuation(chain, task, executor, registered, i, j - 1, req);
      assert Follows(chain[j - 1], chain[j]);
      WithinTransitive(chain[j].scope, chain[j - 1].scope, chain[i].scope);
      if Permits(chain[j].scope, req) {
        WithinPermitsLess(chain[j].scope, chain[i].scope, req);
      }
    }
  }

  // ---------- Issuers ----------

  const SERVICE_RECOVERY_CREDIT_LIMIT := 25.0
  const APPROVAL_REQUEST_LIMIT := 100.0
  const EXECUTOR_LIMIT := 100.0
  const CHAIN_SECONDS := 30 * 60
  const EXECUTOR_SECONDS := 10 * 60

  function AmountScope(action: Action, limit: real): Scope {
    Scope({action}, [RESERVATION_PREFIX], map[Amount := limit])
  }

  /** An action on reservations without a numeric bound. */
  function ActionScope(action: Action): Scope {
    Scope({action}, [RESERVATION_PREFIX], map[])
  }

  function Min(a: int, b: int): (m: int)
    ensures m <= a && m <= b && (m == a || m == b)
  {
    if a < b then a else b
  }

  /** Human to supervisor to specialist, for this task, for half an hour at most. */
  predicate IsSpecialistChain(chain: seq<Grant>, task: Task, supervisor: string, specialist: string, now: int) {
    && |chain| == 2
    && chain[0].grantorId == task.initiatedBy && chain[0].granteeId == supervisor
    && chain[1].grantorId == supervisor && chain[1].granteeId == specialist
    && chain[0].taskId == chain[1].taskId == task.taskId
    && chain[0].expiresAt == chain[1].expiresAt == Min(task.expiresAt, now + 30 * 60)
  }

  datatype IssueError = LimitNotPositive | SpecialistAboveSupervisor

  class GrantStore {
    var grants: set<Grant>

    constructor ()
      ensures grants == {}
    {
      grants := {};
    }

    /** Register a two-grant chain: human to supervisor to specialist. */
    method IssueChain(ids: Identities, task: Task, child: string, rootScope: Scope, childScope: Scope, now: int,
                      rootId: string, childId: string)
      returns (chain: seq<Grant>)
      requires Within(childScope, rootScope)
      modifies this
      ensures |chain| == 2
      ensures chain[0].grantorId == task.initiatedBy && chain[0].granteeId == ids.supervisor
      ensures chain[1].grantorId == ids.supervisor && chain[1].granteeId == child
      ensures chain[0].taskId == chain[1].taskId == task.taskId
      ensures chain[0].grantId == rootId && chain[1].grantId == childId
      ensures chain[0].scope == rootScope && chain[1].scope == childScope
      ensures chain[0].issuedAt == chain[1].issuedAt == now
      ensures chain[0].expiresAt == chain[1].expiresAt == Min(task.expiresAt, now + 30 * 60)
      ensures grants == old(grants) + {chain[0], chain[1]}
      ensures ValidChain(chain, task, child, grants)
    {
      var expiresAt := Min(task.expiresAt, now + CHAIN_SECONDS);
      var root := Grant(rootId, task.initiatedBy, ids.supervisor, task.taskId, rootScope, now, expiresAt);
      var leaf := Grant(childId, ids.supervisor, child, task.taskId, childScope, now, expiresAt);
      grants := grants + {root, leaf};
      chain := [root, leaf];
    }

    /** Reservation reads, maintenance and messages: both grants carry the one bare action. */
    method IssueSpecialist(ids: Identities, task: Task, specialist: string, action: Action, now: int,
                           rootId: string, childId: string)
      returns (chain: seq<Grant>)
      modifies this
      ensures ValidChain(chain, task, specialist, grants)
      ensures |chain| == 2 && chain[0].scope == chain[1].scope == ActionScope(action)
      ensures IsSpecialistChain(chain, task, ids.supervisor, specialist, now)
      ensures grants == old(grants) + {chain[0], chain[1]}
    {
      var scope := ActionScope(action);
      assert RESERVATION_PREFIX in scope.prefixes && RESERVATION_PREFIX <= RESERVATION_PREFIX;
      chain := IssueChain(ids, task, specialist, scope, scope, now, rootId, childId);
    }

    method IssueServiceRecovery(ids: Identities, task: Task, supervisorLimit: real, serviceLimit: real, now: int,
                                rootId: string, childId: string)
      returns (r: Result<seq<Grant>, IssueError>)
      modifies this
      ensures r.Failure? <==> serviceLimit > supervisorLimit || serviceLimit <= 0.0
      ensures r == Failure(SpecialistAboveSupervisor) <==> serviceLimit > supervisorLimit
      ensures r.Failure? ==> grants == old(grants)
      ensures r.Success? ==>
        && ValidChain(r.value, task, ids.serviceRecovery, grants)
        && |r.value| == 2 && r.value[0].scope == AmountScope(CreditIssue, supervisorLimit)
        && r.value[1].scope == AmountScope(CreditIssue, serviceLimit)
        && IsSpecialistChain(r.value, task, ids.supervisor, ids.serviceRecovery, now)
        && grants == old(grants) + {r.value[0], r.value[1]}
    {
      if serviceLimit > supervisorLimit {
        return Failure(SpecialistAboveSupervisor);
      }
      if supervisorLimit <= 0.0 || serviceLimit <= 0.0 {
        return Failure(LimitNotPositive);
      }
      AmountScopeWithin(CreditIssue, serviceLimit, supervisorLimit);
      var chain := IssueChain(ids, task, ids.serviceRecovery, AmountScope(CreditIssue, supervisorLimit),
                              AmountScope(CreditIssue, serviceLimit), now, rootId, childId);
      r := Success(chain);
    }

    method IssueCreditRequest(ids: Identities, task: Task, limit: real, now: int, rootId: string, childId: string)
      returns (r: Result<seq<Grant>, IssueError>)
      modifies this
      ensures r.Failure? <==> limit <= 0.0
      ensures r.Failure? ==> grants == old(grants)
      ensures r.Success? ==>
        && ValidChain(r.value, task, ids.serviceRecovery, grants)
        && |r.value| == 2 && r.value[0].scope == r.value[1].scope == AmountScope(CreditRequest, limit)
        && IsSpecialistChain(r.value, task, ids.supervisor, ids.serviceRecovery, now)
        && grants == old(grants) + {r.value[0], r.value[1]}
    {
      if limit <= 0.0 {
        return Failure(LimitNotPositive);
      }
      AmountScopeWithin(CreditRequest, limit, limit);
      var scope := AmountScope(CreditRequest, limit);
      var chain := IssueChain(ids, task, ids.serviceRecovery, scope, scope, now, rootId, childId);
      r := Success(chain);
    }

    /** The approval executor is delegated to directly by the deciding human. */
    method IssueApprovalExecutor(ids: Identities, task: Task, limit: real, now: int, grantId: string)
      returns (r: Result<seq<Grant>, IssueError>)
      modifies this
      ensures r.Failure? <==> limit <= 0.0
      ensures r.Failure? ==> grants == old(grants)
      ensures r.Success? ==>
        && ValidChain(r.value, task, ids.approvalExecutor, grants)
        && |r.value| == 1 && r.value[0].scope == AmountScope(CreditIssueApproved, limit)
        && r.value[0].grantId == grantId && r.value[0].issuedAt == now && r.value[0].taskId == task.taskId
        && r.value[0].grantorId == task.initiatedBy && r.value[0].granteeId == ids.approvalExecutor
        && r.value[0].expiresAt == Min(task.expiresAt, now + 10 * 60)
        && grants == old(grants) + {r.value[0]}
    {
      if limit <= 0.0 {
        return Failure(LimitNotPositive);
      }
      var grant := Grant(grantId, task.initiatedBy, ids.approvalExecutor, task.taskId,
                         AmountScope(CreditIssueApproved, limit), now,
                         Min(task.expiresAt, now + EXECUTOR_SECONDS));
      grants := grants + {grant};
      r := Success([grant]);
    }
  }

  lemma AmountScopeWithin(action: Action, lower: real, upper: real)
    requires lower <= upper
    ensures Within(AmountScope(action, lower), AmountScope(action, upper))
  {
  }

  // ---------- Delegation and policy together ----------

  /** Authority has to come from the chain and from the rule table. */
  function Decision(ids: Identities, scope: Scope, req: Request): Effect {
    if Permits(scope, req) then FirstMatch(Rules(ids), req) else Deny
  }

  /** A bounded scope permits its action on reservations up to its limit, and nothing else. */
  lemma AmountScopePermits(action: Action, limit: real, req: Request)
    ensures Permits(AmountScope(action, limit), req) <==>
      && req.action == action && "reservation:" <= req.resource
      && Amount in req.numbers && req.numbers[Amount] <= limit
  {
    var scope := AmountScope(action, limit);
    assert RESERVATION_PREFIX in scope.prefixes;
    assert Amount in scope.limits;
  }

  /** A bare scope permits its action on reservations, and nothing else. */
  lemma ActionScopePermits(action: Action, req: Request)
    ensures Permits(ActionScope(action), req) <==> req.action == action && "reservation:" <= req.resource
  {
    assert RESERVATION_PREFIX in ActionScope(action).prefixes;
  }

  /**
   * What a service-recovery chain with any positive limit can do.  With the default
   * limit 25 a direct credit is possible exactly in (0, 25]; with a wider delegation the
   * rule table still asks for approval above 25.
   */
  lemma DirectCreditBand(ids: Identities, limit: real, reservationId: string, amount: real)
    ensures var effect := Decision(ids, AmountScope(CreditIssue, limit), CreditCall(ids, reservationId, amount));
      && (effect == Allow <==> 0.0 < amount <= 25.0 && amount <= limit)
      && (effect == RequireApproval <==> 25.0 < amount <= 100.0 && amount <= limit)
  {
    DirectCreditEffect(ids, reservationId, amount);
    AmountScopePermits(CreditIssue, limit, CreditCall(ids, reservationId, amount));
  }

  /** A credit request is possible exactly in (25, 100], cut off at the delegated limit. */
  lemma CreditRequestBand(ids: Identities, limit: real, reservationId: string, amount: real)
    ensures
      (Decision(ids, AmountScope(CreditRequest, limit), RequestCall(ids, reservationId, amount)) == Allow <==>
        25.0 < amount <= 100.0 && amount <= limit)
  {
    var req := RequestCall(ids, reservationId, amount);
    var decision := Decision(ids, AmountScope(CreditRequest, limit), req);
    AmountScopePermits(CreditRequest, limit, req);
    assert decision == Allow <==> amount <= limit && AllowRuleMatches(ids, req) by {
      FirstMatchIsAllowRule(ids, req);
    }
    assert AllowRuleMatches(ids, req) <==> 25.0 < amount <= 100.0 by {
      AllowedBands(ids, reservationId, amount, "");
    }
  }

  /** The approval executor may issue exactly up to its limit. */
  lemma ApprovedCreditBand(ids: Identities, limit: real, reservationId: string, amount: real, approvalId: string)
    requires approvalId != ""
    ensures
      (Decision(ids, AmountScope(CreditIssueApproved, limit),
                ApprovedCall(ids, reservationId, amount, approvalId)) == Allow <==>
        0.0 < amount <= 100.0 && amount <= limit)
  {
    var req := ApprovedCall(ids, reservationId, amount, approvalId);
    var decision := Decision(ids, AmountScope(CreditIssueApproved, limit), req);
    AmountScopePermits(CreditIssueApproved, limit, req);
    assert decision == Allow <==> amount <= limit && AllowRuleMatches(ids, req) by {
      FirstMatchIsAllowRule(ids, req);
    }
    assert AllowRuleMatches(ids, req) <==> 0.0 < amount <= 100.0 by {
      AllowedBands(ids, reservationId, amount, approvalId);
    }
  }

  /**
   * With the default limits the two ways to a credit split (0, 100] between them: up to
   * 25 it is issued directly, above 25 it has to be requested, and whatever can be
   * requested can be executed once approved.
   */
  lemma DefaultBands(ids: Identities, reservationId: string, amount: real, approvalId: string)
    requires approvalId != ""
    ensures
      var direct := Decision(ids, AmountScope(CreditIssue, SERVICE_RECOVERY_CREDIT_LIMIT),
                             CreditCall(ids, reservationId, amount)) == Allow;
      var requested := Decision(ids, AmountScope(CreditRequest, APPROVAL_REQUEST_LIMIT),
                                RequestCall(ids, reservationId, amount)) == Allow;
      var executed := Decision(ids, AmountScope(CreditIssueApproved, EXECUTOR_LIMIT),
                               ApprovedCall(ids, reservationId, amount, approvalId)) == Allow;
      && (direct <==> 0.0 < amount <= 25.0)
      && (requested <==> 25.0 < amount <= 100.0)
      && (executed <==> direct || requested)
  {
    hide Decision;
    DirectCreditBand(ids, SERVICE_RECOVERY_CREDIT_LIMIT, reservationId, amount);
    CreditRequestBand(ids, APPROVAL_REQUEST_LIMIT, reservationId, amount);
    ApprovedCreditBand(ids, EXECUTOR_LIMIT, reservationId, amount, approvalId);
  }
}
