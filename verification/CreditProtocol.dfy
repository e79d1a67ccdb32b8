/**
 * The guest-credit protocol as a step system.  Any number of calls are in flight; each
 * is a program point with the snapshot it holds.  One step of one call touches the
 * shared state at most once: a locked block of the approval store, or one call of the
 * external credit provider.  Whatever the code cannot control (authorization, provider
 * failures, clocks, fresh ids) is chosen by the environment at every step, and a call
 * may crash at any program point.
 */
module CreditProtocol {
  import opened Wrappers
  import opened Timestamps
  import opened Approvals
  import opened KeyedLog
  import opened Policy

  /**
   * The authorizer is not part of this model: `mayAllow` are the requests it could ever
   * allow, and the environment decides at each check whether it does.
   */
  datatype Authorizer = Authorizer(ids: Identities, mayAllow: Request -> bool)

  /** All that is assumed of it: what it allows, some ALLOW rule of the table matches. */
  ghost predicate Sound(auth: Authorizer) {
    forall req :: auth.mayAllow(req) ==> AllowRuleMatches(auth.ids, req)
  }

  // ---------- State ----------

  /** What survives a crash: the approval table and the provider's books. */
  datatype Shared = Shared(rows: Table, ledger: Log<Credit>)

  function ApprovedKey(approvalId: string): string {
    "approved-credit:" + approvalId
  }

  function DirectKey(digest: string): string {
    "credit:" + digest
  }

  /** The two key families are disjoint and each is injective. */
  lemma KeyFamilies(a: string, b: string)
    ensures ApprovedKey(a) == ApprovedKey(b) <==> a == b
    ensures DirectKey(a) == DirectKey(b) <==> a == b
    ensures ApprovedKey(a) != DirectKey(b)
  {
    assert ApprovedKey(a)[16..] == a && ApprovedKey(b)[16..] == b;
    assert DirectKey(a)[7..] == a && DirectKey(b)[7..] == b;
    assert ApprovedKey(a)[0] == 'a' && DirectKey(b)[0] == 'c';
  }

  /** A direct credit; `digest` is the hash its idempotency key is built from. */
  datatype DirectCredit = DirectCredit(digest: string, reservationId: string, amount: real, reason: string)

  datatype Execution =
    | Blocked
    | Replayed(stored: Option<ExecutionResult>)
    | Issued(result: ExecutionResult)

  datatype Failure = ProviderFailed | LifecycleIncomplete | InsertRejected | MarkRejected | RowLost

  datatype Outcome =
    | NotFound
    | Conflict(status: Status)
    | Replay(record: ApprovalRecord, stored: Option<ExecutionResult>)
    | Response(record: ApprovalRecord, execution: Execution)
    | Denial(record: ApprovalRecord)
    | Requested(record: ApprovalRecord, deduplicated: bool)
    | CallBlocked
    | DirectIssued(answer: ProviderResult)
    | Failed(failure: Failure)

  /** A call at its next program point. */
  datatype Call =
    // approve_credit_request, then the executor
    | ApproveRequire(id: string, operator: string, note: Option<string>)
    | ApproveDecide(id: string, operator: string, note: Option<string>)
    | ApproveReread(id: string)
    | Begin(rec: ApprovalRecord)
    | Revalidate(rec: ApprovalRecord)
    | Issue(rec: ApprovalRecord, policyId: Option<string>)
    | Complete(rec: ApprovalRecord, policyId: Option<string>, answer: ProviderResult)
    | Mark(rec: ApprovalRecord, result: ExecutionResult)
    | MarkReread(id: string, result: ExecutionResult)
    | Refresh(id: string, execution: Execution)
    // deny_credit_request
    | DenyDecide(id: string, operator: string, note: Option<string>)
    | DenyReread(id: string)
    // request_guest_credit
    | RequestBegin(q: CreditRequest)
    | RequestRevalidate(q: CreditRequest)
    | RequestFind(q: CreditRequest)
    | RequestCreate(q: CreditRequest, existed: bool)
    | RequestComplete(rec: ApprovalRecord, existed: bool)
    // issue_credit; `left` attempts remain
    | DirectBegin(d: DirectCredit, left: nat)
    | DirectRevalidate(d: DirectCredit, left: nat)
    | DirectAttempt(d: DirectCredit, left: nat)
    | DirectComplete(d: DirectCredit, answer: ProviderResult)
    | Done(outcome: Outcome)

  predicate Initial(call: Call) {
    call.ApproveRequire? || call.DenyDecide? || call.RequestBegin? || (call.DirectBegin? && call.left >= 1)
  }

  /** How the provider behaves when it is called: a transient failure never acted. */
  datatype ProviderBehaviour = Answers | FailsBefore(transient: bool) | FailsAfter

  predicate Acts(b: ProviderBehaviour) {
    b.Answers? || b.FailsAfter?
  }

  datatype Env = Env(
    admitted: bool, permit: bool, live: bool, policyId: Option<string>, provider: ProviderBehaviour,
    completes: bool, now: Moment, freshId: string)

  datatype After = After(shared: Shared, call: Call)

  // ---------- One step of one call ----------

  /** Every step of a call lowers its rank, so every call that is not stopped ends. */
  function Rank(call: Call): nat {
    match call
    case ApproveRequire(_, _, _) => 10
    case ApproveDecide(_, _, _) => 9
    case ApproveReread(_) => 8
    case Begin(_) => 7
    case Revalidate(_) => 6
    case Issue(_, _) => 5
    case Complete(_, _, _) => 4
    case Mark(_, _) => 3
    case MarkReread(_, _) => 2
    case Refresh(_, _) => 1
    case DenyDecide(_, _, _) => 2
    case DenyReread(_) => 1
    case RequestBegin(_) => 5
    case RequestRevalidate(_) => 4
    case RequestFind(_) => 3
    case RequestCreate(_, _) => 2
    case RequestComplete(_, _) => 1
    case DirectBegin(_, left) => left + 4
    case DirectRevalidate(_, left) => left + 3
    case DirectAttempt(_, left) => left + 2
    case DirectComplete(_, _) => 1
    case Done(_) => 0
  }

  /** Admission: the authorizer said yes to a request it may allow at all. */
  ghost predicate Admitted(auth: Authorizer, req: Request, env: Env) {
    env.admitted && auth.mayAllow(req) && env.permit
  }

  ghost predicate StillAllowed(auth: Authorizer, req: Request, env: Env) {
    env.live && auth.mayAllow(req)
  }

  /** Admission and revalidation both passed. */
  predicate Passed(auth: Authorizer, req: Request, begin: Env, live: Env) {
    begin.admitted && begin.permit && live.live && auth.mayAllow(req)
  }

  function ApprovedRequest(auth: Authorizer, rec: ApprovalRecord): Request {
    ApprovedCall(auth.ids, rec.reservationId, rec.amount, rec.approvalId)
  }

  function MarkReplayed(r: Option<ExecutionResult>): Option<ExecutionResult> {
    if r.Some? then Some(r.value.(deduplicated := true)) else None
  }

  /** The executor's own replay writes the approval id over the stored result as well. */
  function ExecutorReplay(rec: ApprovalRecord): Option<ExecutionResult> {
    if rec.executionResult.Some? then
      Some(rec.executionResult.value.(approvalId := rec.approvalId, deduplicated := true))
    else None
  }

  function SubmitCredit(s: Shared, key: string, credit: Credit): Submitted<Credit> {
    Submit(s.ledger, Some(key), credit)
  }

  ghost function ApproveStep(auth: Authorizer, s: Shared, call: Call, env: Env): (after: After)
    requires call.ApproveRequire? || call.ApproveDecide? || call.ApproveReread? || call.Refresh?
    ensures Rank(after.call) < Rank(call)
  {
    match call
    case ApproveRequire(id, operator, note) =>
      After(s,
        if id !in s.rows then Done(NotFound)
        else if s.rows[id].status == Executed then
          Done(Replay(s.rows[id], MarkReplayed(s.rows[id].executionResult)))
        else ApproveDecide(id, operator, note))
    case ApproveDecide(id, operator, note) =>
      var (rows, reply) := DecideTx(s.rows, id, true, operator, note, env.now);
      After(s.(rows := rows),
        match reply
        case UnknownApproval => Done(NotFound)
        case WrongState(status) => Done(Conflict(status))
        case AlreadyDecided(rec) => Begin(rec)
        case Decided => ApproveReread(id))
    case ApproveReread(id) =>
      After(s, if id !in s.rows then Done(NotFound) else Begin(s.rows[id]))
    case Refresh(id, execution) =>
      After(s, if id !in s.rows then Done(Failed(RowLost)) else Done(Response(s.rows[id], execution)))
  }

  /** The executor's provider call: every failure that escapes it is an unknown outcome. */
  function IssueStep(s: Shared, rec: ApprovalRecord, policyId: Option<string>, env: Env): (after: After)
    ensures Rank(after.call) < 5
  {
    var done := SubmitCredit(s, ApprovedKey(rec.approvalId), CreditOf(rec));
    match env.provider
    case Answers =>
      After(s.(ledger := done.log), Complete(rec, policyId, ProviderResult(done.item, done.deduplicated)))
    case FailsBefore(_) => After(s, Done(Failed(ProviderFailed)))
    case FailsAfter => After(s.(ledger := done.log), Done(Failed(ProviderFailed)))
  }

  /** Writing the result back; a row another executor has finished is left as it is. */
  function MarkStep(s: Shared, rec: ApprovalRecord, result: ExecutionResult, env: Env): (after: After)
    ensures Rank(after.call) < 3
  {
    var (rows, reply) := MarkTx(s.rows, rec.approvalId, result, env.now);
    After(s.(rows := rows),
      match reply
      case Marked => MarkReread(rec.approvalId, result)
      case AlreadyExecuted(_) => Refresh(rec.approvalId, Issued(result))
      case MarkUnknownApproval => Done(Failed(MarkRejected))
      case MarkWrongState(_) => Done(Failed(MarkRejected)))
  }

  ghost function ExecuteStep(auth: Authorizer, s: Shared, call: Call, env: Env): (after: After)
    requires call.Begin? || call.Revalidate? || call.Issue? || call.Complete? || call.Mark? || call.MarkReread?
    ensures Rank(after.call) < Rank(call)
  {
    match call
    case Begin(rec) =>
      After(s,
        if rec.status == Executed then Refresh(rec.approvalId, Replayed(ExecutorReplay(rec)))
        else if rec.status != Approved then Refresh(rec.approvalId, Blocked)
        else if Admitted(auth, ApprovedRequest(auth, rec), env) then Revalidate(rec)
        else Refresh(rec.approvalId, Blocked))
    case Revalidate(rec) =>
      After(s,
        if StillAllowed(auth, ApprovedRequest(auth, rec), env) then Issue(rec, env.policyId)
        else Refresh(rec.approvalId, Blocked))
    case Issue(rec, policyId) =>
      IssueStep(s, rec, policyId, env)
    case Complete(rec, policyId, answer) =>
      After(s,
        if env.completes then
          Mark(rec, ExecutionResult(answer.credit, answer.deduplicated, rec.approvalId, policyId))
        else Done(Failed(LifecycleIncomplete)))
    case Mark(rec, result) =>
      MarkStep(s, rec, result, env)
    case MarkReread(id, result) =>
      After(s, if id !in s.rows then Done(Failed(RowLost)) else Refresh(id, Issued(result)))
  }

  ghost function RequestStep(auth: Authorizer, s: Shared, call: Call, env: Env): (after: After)
    requires call.RequestBegin? || call.RequestRevalidate? || call.RequestFind? || call.RequestCreate?
             || call.RequestComplete?
    ensures Rank(after.call) < Rank(call)
  {
    match call
    case RequestBegin(q) =>
      After(s, if Admitted(auth, RequestCall(auth.ids, q.reservationId, q.amount), env) then RequestRevalidate(q)
               else Done(CallBlocked))
    case RequestRevalidate(q) =>
      After(s, if StillAllowed(auth, RequestCall(auth.ids, q.reservationId, q.amount), env) then RequestFind(q)
               else Done(CallBlocked))
    case RequestFind(q) =>
      After(s, RequestCreate(q, Find(s.rows, q.taskId, q.reservationId, q.amount).Some?))
    case RequestCreate(q, existed) =>
      var (rows, reply) := CreateTx(s.rows, env.freshId, q, env.now);
      After(s.(rows := rows),
        match reply
        case IdTaken => Done(Failed(InsertRejected))
        case Existing(rec) => RequestComplete(rec, existed)
        case Inserted(rec) => RequestComplete(rec, existed))
    case RequestComplete(rec, existed) =>
      After(s, if env.completes then Done(Requested(rec, existed)) else Done(Failed(LifecycleIncomplete)))
  }

  /** One attempt of a direct credit; only a transient failure with attempts left is retried. */
  function AttemptStep(s: Shared, d: DirectCredit, left: nat, env: Env): (after: After)
    ensures Rank(after.call) < left + 2
  {
    var done := SubmitCredit(s, DirectKey(d.digest), Credit(d.reservationId, d.amount, d.reason));
    match env.provider
    case Answers =>
      After(s.(ledger := done.log), DirectComplete(d, ProviderResult(done.item, done.deduplicated)))
    case FailsBefore(transient) =>
      After(s, if transient && left > 1 then DirectAttempt(d, left - 1) else Done(Failed(ProviderFailed)))
    case FailsAfter => After(s.(ledger := done.log), Done(Failed(ProviderFailed)))
  }

  ghost function DirectStep(auth: Authorizer, s: Shared, call: Call, env: Env): (after: After)
    requires call.DirectBegin? || call.DirectRevalidate? || call.DirectAttempt? || call.DirectComplete?
    ensures Rank(after.call) < Rank(call)
  {
    match call
    case DirectBegin(d, left) =>
      After(s, if Admitted(auth, CreditCall(auth.ids, d.reservationId, d.amount), env) then DirectRevalidate(d, left)
               else Done(CallBlocked))
    case DirectRevalidate(d, left) =>
      After(s, if StillAllowed(auth, CreditCall(auth.ids, d.reservationId, d.amount), env) then DirectAttempt(d, left)
               else Done(CallBlocked))
    case DirectAttempt(d, left) =>
      AttemptStep(s, d, left, env)
    case DirectComplete(d, answer) =>
      After(s, if env.completes then Done(DirectIssued(answer)) else Done(Failed(LifecycleIncomplete)))
  }

  ghost function DenyStep(s: Shared, call: Call, env: Env): (after: After)
    requires call.DenyDecide? || call.DenyReread?
    ensures Rank(after.call) < Rank(call)
  {
    match call
    case DenyDecide(id, operator, note) =>
      var (rows, reply) := DecideTx(s.rows, id, false, operator, note, env.now);
      After(s.(rows := rows),
        match reply
        case UnknownApproval => Done(NotFound)
        case WrongState(status) => Done(Conflict(status))
        case AlreadyDecided(rec) => Done(Denial(rec))
        case Decided => DenyReread(id))
    case DenyReread(id) =>
      After(s, if id !in s.rows then Done(NotFound) else Done(Denial(s.rows[id])))
  }

  ghost function CallStep(auth: Authorizer, s: Shared, call: Call, env: Env): (after: After)
    ensures call.Done? || Rank(after.call) < Rank(call)
  {
    if call.Done? then After(s, call)
    else if call.DenyDecide? || call.DenyReread? then DenyStep(s, call, env)
    else if call.ApproveRequire? || call.ApproveDecide? || call.ApproveReread? || call.Refresh? then
      ApproveStep(auth, s, call, env)
    else if call.DirectBegin? || call.DirectRevalidate? || call.DirectAttempt? || call.DirectComplete? then
      DirectStep(auth, s, call, env)
    else if call.RequestBegin? || call.RequestRevalidate? || call.RequestFind? || call.RequestCreate?
            || call.RequestComplete? then
      RequestStep(auth, s, call, env)
    else ExecuteStep(auth, s, call, env)
  }

  // ---------- Runs ----------

  datatype World = World(shared: Shared, calls: map<nat, Call>)

  datatype Event =
    | Start(c: nat, call: Call)
    | Advance(c: nat, env: Env)
    | Crash(c: nat)

  const EMPTY_WORLD := World(Shared(map[], Log([], map[])), map[])

  ghost function Step(auth: Authorizer, w: World, e: Event): World {
    match e
    case Start(c, call) =>
      if c !in w.calls && Initial(call) then w.(calls := w.calls[c := call]) else w
    case Advance(c, env) =>
      if c in w.calls then
        var after := CallStep(auth, w.shared, w.calls[c], env);
        World(after.shared, w.calls[c := after.call])
      else w
    case Crash(c) => w.(calls := w.calls - {c})
  }

  ghost function Run(auth: Authorizer, w: World, es: seq<Event>): World
    decreases |es|
  {
    if es == [] then w else Run(auth, Step(auth, w, es[0]), es[1..])
  }

  /** The world after a run of the whole service from nothing. */
  ghost function Reached(auth: Authorizer, es: seq<Event>): World {
    Run(auth, EMPTY_WORLD, es)
  }

  lemma {:induction false} RunConcat(auth: Authorizer, w: World, a: seq<Event>, b: seq<Event>)
    ensures Run(auth, w, a + b) == Run(auth, Run(auth, w, a), b)
    decreases |a|
  {
    if a == [] {
      assert [] + b == b;
    } else {
      assert (a + b)[1..] == a[1..] + b;
      RunConcat(auth, Step(auth, w, a[0]), a[1..], b);
    }
  }

  // ---------- One call on its own ----------

  /**
   * The call taken to its end with no other call moving; the environment's choices are
   * indexed by the rank of the program point they are made at.
   */
  ghost function Finish(auth: Authorizer, s: Shared, call: Call, env: nat -> Env): After
    decreases Rank(call)
  {
    if call.Done? then After(s, call)
    else
      var after := CallStep(auth, s, call, env(Rank(call)));
      Finish(auth, after.shared, after.call, env)
  }

  /** Unfolding `Finish` once, in general and for four groups of program points. */
  lemma OneStep(auth: Authorizer, s: Shared, call: Call, env: nat -> Env)
    ensures var after := CallStep(auth, s, call, env(Rank(call)));
      Finish(auth, s, call, env) == if call.Done? then After(s, call) else Finish(auth, after.shared, after.call, env)
  {
  }

  lemma OneApproveStep(auth: Authorizer, s: Shared, call: Call, env: nat -> Env)
    requires call.ApproveRequire? || call.ApproveDecide? || call.ApproveReread? || call.Refresh?
    ensures var after := ApproveStep(auth, s, call, env(Rank(call)));
      Finish(auth, s, call, env) == Finish(auth, after.shared, after.call, env)
  {
  }

  lemma OneRequestStep(auth: Authorizer, s: Shared, call: Call, env: nat -> Env)
    requires call.RequestBegin? || call.RequestRevalidate? || call.RequestFind? || call.RequestCreate?
             || call.RequestComplete?
    ensures var after := RequestStep(auth, s, call, env(Rank(call)));
      Finish(auth, s, call, env) == Finish(auth, after.shared, after.call, env)
  {
  }

  lemma OneDirectStep(auth: Authorizer, s: Shared, call: Call, env: nat -> Env)
    requires call.DirectBegin? || call.DirectRevalidate? || call.DirectAttempt? || call.DirectComplete?
    ensures var after := DirectStep(auth, s, call, env(Rank(call)));
      Finish(auth, s, call, env) == Finish(auth, after.shared, after.call, env)
  {
  }

  lemma OneExecuteStep(auth: Authorizer, s: Shared, call: Call, env: nat -> Env)
    requires call.Begin? || call.Revalidate? || call.Issue? || call.Complete? || call.Mark? || call.MarkReread?
    ensures var after := ExecuteStep(auth, s, call, env(Rank(call)));
      Finish(auth, s, call, env) == Finish(auth, after.shared, after.call, env)
  {
  }

  /** The events of that undisturbed run. */
  ghost function FinishEvents(auth: Authorizer, s: Shared, c: nat, call: Call, env: nat -> Env): seq<Event>
    decreases Rank(call)
  {
    if call.Done? then []
    else
      var after := CallStep(auth, s, call, env(Rank(call)));
      [Advance(c, env(Rank(call)))] + FinishEvents(auth, after.shared, c, after.call, env)
  }

  /** Running those events inside any world is exactly `Finish` of the call. */
  lemma {:induction false} FinishIsARun(auth: Authorizer, w: World, c: nat, env: nat -> Env)
    requires c in w.calls
    ensures var es := FinishEvents(auth, w.shared, c, w.calls[c], env);
      var end := Finish(auth, w.shared, w.calls[c], env);
      Run(auth, w, es) == World(end.shared, w.calls[c := end.call]) && end.call.Done?
    decreases Rank(w.calls[c])
  {
    var call := w.calls[c];
    if call.Done? {
      assert w.calls[c := call] == w.calls;
    } else {
      var e := Advance(c, env(Rank(call)));
      var w' := Step(auth, w, e);
      FinishIsARun(auth, w', c, env);
      var rest := FinishEvents(auth, w'.shared, c, w'.calls[c], env);
      assert ([e] + rest)[1..] == rest;
      var end := Finish(auth, w'.shared, w'.calls[c], env);
      assert w'.calls[c := end.call] == w.calls[c := end.call];
    }
  }
}
