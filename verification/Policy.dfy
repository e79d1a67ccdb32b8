/** The ordered rule table of the security runtime and the requests it is asked about. */
module Policy {
  /** guest.credit.issue, guest.credit.request, guest.credit.issue.approved and so on. */
  datatype Action =
    CreditIssue | CreditRequest | CreditIssueApproved | ReservationRead | MaintenanceCreate | MessageSend

  const RESERVATION_PREFIX := "reservation:"

  /** The principal ids the runtime was built with. */
  datatype Identities = Identities(
    supervisor: string, reservations: string, propertyOperations: string, guestSupport: string,
    serviceRecovery: string, approvalExecutor: string)

  /** An invocation: numeric, text and boolean arguments are kept apart. */
  datatype Request = Request(
    action: Action, principal: string, resource: string,
    numbers: map<Argument, real>, texts: map<Argument, string>, flags: map<Argument, bool>)

  datatype Argument = Amount | ApprovalId | ApprovalVerified

  datatype Effect = Allow | RequireApproval | Deny

  datatype PolicyId =
    | ReservationsRead
    | PropertyOperationsMaintenanceCreate
    | GuestSupportMessageSend
    | ServiceRecoveryCreditRequest
    | ServiceRecoverySmallCredit
    | ServiceRecoveryCreditNeedsApproval
    | ApprovedCreditExecutor

  datatype Condition =
    | Always
    | AmountIn(lowerExclusive: real, upperInclusive: real)
    | VerifiedApproval(limit: real)

  datatype Rule = Rule(
    policyId: PolicyId, effect: Effect, action: Action, principal: string, prefix: string, condition: Condition)

  predicate AmountWithin(req: Request, lowerExclusive: real, upperInclusive: real) {
    Amount in req.numbers && lowerExclusive < req.numbers[Amount] <= upperInclusive
  }

  predicate Holds(c: Condition, req: Request) {
    match c
    case Always => true
    case AmountIn(lower, upper) => AmountWithin(req, lower, upper)
    case VerifiedApproval(limit) =>
      && ApprovalVerified in req.flags && req.flags[ApprovalVerified]
      && ApprovalId in req.texts && req.texts[ApprovalId] != ""
      && AmountWithin(req, 0.0, limit)
  }

  predicate RuleMatches(r: Rule, req: Request) {
    r.action == req.action && r.principal == req.principal && r.prefix <= req.resource && Holds(r.condition, req)
  }

  function Rules(ids: Identities): seq<Rule> {
    [
      Rule(ReservationsRead, Allow, ReservationRead, ids.reservations, RESERVATION_PREFIX, Always),
      Rule(PropertyOperationsMaintenanceCreate, Allow, MaintenanceCreate, ids.propertyOperations,
           RESERVATION_PREFIX, Always),
      Rule(GuestSupportMessageSend, Allow, MessageSend, ids.guestSupport, RESERVATION_PREFIX, Always),
      Rule(ServiceRecoveryCreditRequest, Allow, CreditRequest, ids.serviceRecovery, RESERVATION_PREFIX,
           AmountIn(25.0, 100.0)),
      Rule(ServiceRecoverySmallCredit, Allow, CreditIssue, ids.serviceRecovery, RESERVATION_PREFIX,
           AmountIn(0.0, 25.0)),
      Rule(ServiceRecoveryCreditNeedsApproval, RequireApproval, CreditIssue, ids.serviceRecovery,
           RESERVATION_PREFIX, AmountIn(0.0, 100.0)),
      Rule(ApprovedCreditExecutor, Allow, CreditIssueApproved, ids.approvalExecutor, RESERVATION_PREFIX,
           VerifiedApproval(100.0))
    ]
  }

  // ---------- Two ways to read the table ----------

  /** The effect of the first matching rule; no match means deny. */
  function FirstMatch(rules: seq<Rule>, req: Request): Effect {
    if rules == [] then Deny
    else if RuleMatches(rules[0], req) then rules[0].effect
    else FirstMatch(rules[1..], req)
  }

  /** Some ALLOW rule matches: all that the credit protocol assumes of "allowed". */
  ghost predicate AllowRuleMatches(ids: Identities, req: Request) {
    exists r :: r in Rules(ids) && r.effect == Allow && RuleMatches(r, req)
  }

  function CreditCall(ids: Identities, reservationId: string, amount: real): Request {
    Request(CreditIssue, ids.serviceRecovery, RESERVATION_PREFIX + reservationId,
            map[Amount := amount], map[], map[])
  }

  function RequestCall(ids: Identities, reservationId: string, amount: real): Request {
    Request(CreditRequest, ids.serviceRecovery, RESERVATION_PREFIX + reservationId,
            map[Amount := amount], map[], map[])
  }

  function ApprovedCall(ids: Identities, reservationId: string, amount: real, approvalId: string): Request {
    Request(CreditIssueApproved, ids.approvalExecutor, RESERVATION_PREFIX + reservationId,
            map[Amount := amount], map[ApprovalId := approvalId], map[ApprovalVerified := true])
  }

  function AllowRuleIndex(action: Action): nat {
    match action
    case ReservationRead => 0
    case MaintenanceCreate => 1
    case MessageSend => 2
    case CreditRequest => 3
    case CreditIssue => 4
    case CreditIssueApproved => 6
  }

  /** For each action there is one rule in the table that can allow it. */
  lemma AllowRuleFor(ids: Identities, req: Request)
    ensures AllowRuleMatches(ids, req) <==> RuleMatches(Rules(ids)[AllowRuleIndex(req.action)], req)
  {
    var i := AllowRuleIndex(req.action);
    assert Rules(ids)[i] in Rules(ids) && Rules(ids)[i].effect == Allow;
  }

  /**
   * The whole table in terms of the request: only reservations, only the specialist of the
   * action, and for credits only the band, for approved credits only with verified evidence.
   */
  lemma AllowedExactly(ids: Identities, req: Request)
    ensures AllowRuleMatches(ids, req) <==>
      && "reservation:" <= req.resource
      && match req.action
         case ReservationRead => req.principal == ids.reservations
         case MaintenanceCreate => req.principal == ids.propertyOperations
         case MessageSend => req.principal == ids.guestSupport
         case CreditRequest =>
           req.principal == ids.serviceRecovery && Amount in req.numbers && 25.0 < req.numbers[Amount] <= 100.0
         case CreditIssue =>
           req.principal == ids.serviceRecovery && Amount in req.numbers && 0.0 < req.numbers[Amount] <= 25.0
         case CreditIssueApproved =>
           && req.principal == ids.approvalExecutor && Amount in req.numbers && 0.0 < req.numbers[Amount] <= 100.0
           && ApprovalVerified in req.flags && req.flags[ApprovalVerified]
           && ApprovalId in req.texts && req.texts[ApprovalId] != ""
  {
    hide AllowRuleMatches;
    AllowRuleFor(ids, req);
  }

  /** The bands the table allows: one iff per credit action. */
  lemma AllowedBands(ids: Identities, reservationId: string, amount: real, approvalId: string)
    ensures AllowRuleMatches(ids, CreditCall(ids, reservationId, amount)) <==> 0.0 < amount <= 25.0
    ensures AllowRuleMatches(ids, RequestCall(ids, reservationId, amount)) <==> 25.0 < amount <= 100.0
    ensures AllowRuleMatches(ids, ApprovedCall(ids, reservationId, amount, approvalId))
       <==> 0.0 < amount <= 100.0 && approvalId != ""
  {
    hide AllowRuleMatches;
    assert RESERVATION_PREFIX <= RESERVATION_PREFIX + reservationId;
    AllowedExactly(ids, CreditCall(ids, reservationId, amount));
    AllowedExactly(ids, RequestCall(ids, reservationId, amount));
    AllowedExactly(ids, ApprovedCall(ids, reservationId, amount, approvalId));
  }

  /** An ALLOW rule behind rules it never overlaps, unless they are ALLOW too, decides the same. */
  lemma {:induction false} FirstMatchWithoutShadowing(rules: seq<Rule>, req: Request)
    requires forall i, j :: 0 <= i < j < |rules| && rules[i].effect != Allow && rules[j].effect == Allow ==>
               !(RuleMatches(rules[i], req) && RuleMatches(rules[j], req))
    ensures FirstMatch(rules, req) == Allow <==> exists r :: r in rules && r.effect == Allow && RuleMatches(r, req)
  {
    if rules != [] {
      FirstMatchWithoutShadowing(rules[1..], req);
      assert forall r :: r in rules <==> r == rules[0] || r in rules[1..];
      if RuleMatches(rules[0], req) && rules[0].effect != Allow {
        forall r | r in rules && r.effect == Allow ensures !RuleMatches(r, req) {
          var j :| 0 <= j < |rules| && rules[j] == r;
        }
      }
    }
  }

  /**
   * For this table "first match" and "any ALLOW rule" give the same permissions, for
   * every request: the one rule that asks for approval overlaps no ALLOW rule behind it.
   */
  lemma FirstMatchIsAllowRule(ids: Identities, req: Request)
    ensures FirstMatch(Rules(ids), req) == Allow <==> AllowRuleMatches(ids, req)
  {
    FirstMatchWithoutShadowing(Rules(ids), req);
  }

  /** Direct credits in detail: automatic up to 25, approval up to 100, nothing else. */
  lemma DirectCreditEffect(ids: Identities, reservationId: string, amount: real)
    ensures FirstMatch(Rules(ids), CreditCall(ids, reservationId, amount)) ==
            if 0.0 < amount <= 25.0 then Allow
            else if 25.0 < amount <= 100.0 then RequireApproval
            else Deny
  {
    var req := CreditCall(ids, reservationId, amount);
    var rules := Rules(ids);
    assert RESERVATION_PREFIX <= req.resource;
    SkipOthers(rules, req, 4);
    assert rules[4..][1..] == rules[5..] && rules[5..][1..] == rules[6..] && rules[6..][1..] == [];
    assert FirstMatch(rules[6..], req) == Deny;
    assert FirstMatch(rules[5..], req) == if 0.0 < amount <= 100.0 then RequireApproval else Deny;
  }

  lemma {:induction false} SkipOthers(rules: seq<Rule>, req: Request, n: nat)
    requires n <= |rules|
    requires forall i :: 0 <= i < n ==> !RuleMatches(rules[i], req)
    ensures FirstMatch(rules, req) == FirstMatch(rules[n..], req)
  {
    if n == 0 {
      assert rules[0..] == rules;
    } else {
      SkipOthers(rules[1..], req, n - 1);
      assert rules[1..][n - 1..] == rules[n..];
    }
  }
}
