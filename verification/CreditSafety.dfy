/**
 * The inductive invariant of the credit protocol, in rely-guarantee form: what the
 * shared state always satisfies, what every in-flight call may rely on, and the
 * one-way growth of the shared state that keeps the calls' facts true.
 */
module CreditSafety {
  import opened Wrappers
  import opened Timestamps
  import opened Approvals
  import opened KeyedLog
  import opened Policy
  import opened CreditProtocol

  // ---------- The invariant ----------

  /** The provider holds the credit of this approved or executed row, under its key. */
  ghost predicate Credited(s: Shared, id: string) {
    && id in s.rows && (s.rows[id].status == Approved || s.rows[id].status == Executed)
    && ApprovedKey(id) in s.ledger.byKey && s.ledger.byKey[ApprovedKey(id)] == CreditOf(s.rows[id])
  }

  ghost predicate DirectlyIssued(s: Shared, k: string) {
    && k in s.ledger.byKey && 0.0 < s.ledger.byKey[k].amount <= 25.0
    && exists digest :: k == DirectKey(digest)
  }

  ghost predicate KeyJustified(s: Shared, k: string) {
    DirectlyIssued(s, k) || exists id :: k == ApprovedKey(id) && Credited(s, id)
  }

  /** An executed row has its credit, and its stored result is about that credit. */
  ghost predicate ExecutedOk(s: Shared, id: string)
    requires id in s.rows
  {
    s.rows[id].status == Executed ==>
      && Credited(s, id)
      && s.rows[id].executionResult.Some?
      && s.rows[id].executionResult.value.credit == CreditOf(s.rows[id])
      && s.rows[id].executionResult.value.approvalId == id
  }

  ghost predicate SharedInv(s: Shared) {
    && TableOk(s.rows)
    && Agrees(s.ledger)
    && (forall i :: 0 <= i < |s.ledger.entries| ==> s.ledger.entries[i].key.Some?)
    && (forall k :: k in s.ledger.byKey ==> KeyJustified(s, k))
    && (forall id :: id in s.rows ==> ExecutedOk(s, id))
  }

  ghost predicate SharedGrows(s: Shared, later: Shared) {
    TableEvolves(s.rows, later.rows) && Grows(s.ledger, later.ledger)
  }

  /** The current row is something the snapshot may have become. */
  ghost predicate Snapshot(s: Shared, rec: ApprovalRecord) {
    rec.approvalId in s.rows && RowOk(rec) && Evolves(rec, s.rows[rec.approvalId])
  }

  ghost predicate ResultFor(rec: ApprovalRecord, result: ExecutionResult) {
    result.credit == CreditOf(rec) && result.approvalId == rec.approvalId
  }

  /** What an execution outcome says is true of the row it is about. */
  ghost predicate ExecutionOk(rec: ApprovalRecord, execution: Execution) {
    match execution
    case Blocked => true
    case Replayed(stored) =>
      rec.status == Executed && rec.executionResult.Some? && stored == MarkReplayed(rec.executionResult)
    case Issued(result) => rec.status == Executed && ResultFor(rec, result)
  }

  ghost predicate OutcomeOk(s: Shared, outcome: Outcome) {
    match outcome
    case Replay(rec, stored) => Snapshot(s, rec) && ExecutionOk(rec, Replayed(stored))
    case Response(rec, execution) => Snapshot(s, rec) && ExecutionOk(rec, execution)
    case Denial(rec) => Snapshot(s, rec) && rec.status == Denied
    case Requested(rec, _) => Snapshot(s, rec)
    case Failed(failure) => failure != MarkRejected && failure != RowLost
    case NotFound => true
    case Conflict(_) => true
    case CallBlocked => true
    case DirectIssued(answer) => 0.0 < answer.credit.amount <= 25.0
  }

  ghost predicate InRequestBand(q: CreditRequest) {
    LOWER_REQUEST_LIMIT < q.amount <= UPPER_REQUEST_LIMIT
  }

  ghost predicate InDirectBand(d: DirectCredit) {
    0.0 < d.amount <= 25.0
  }

  /** What a call may rely on at its program point. */
  ghost predicate CallInv(s: Shared, call: Call) {
    match call
    case ApproveRequire(_, _, _) => true
    case ApproveDecide(_, _, _) => true
    case ApproveReread(id) => id in s.rows && (s.rows[id].status == Approved || s.rows[id].status == Executed)
    case Begin(rec) => Snapshot(s, rec) && (rec.status == Approved || rec.status == Executed)
    case Revalidate(rec) => Snapshot(s, rec) && rec.status == Approved
    case Issue(rec, _) => Snapshot(s, rec) && rec.status == Approved
    case Complete(rec, _, answer) =>
      Snapshot(s, rec) && rec.status == Approved && Credited(s, rec.approvalId) && answer.credit == CreditOf(rec)
    case Mark(rec, result) =>
      Snapshot(s, rec) && rec.status == Approved && Credited(s, rec.approvalId) && ResultFor(rec, result)
    case MarkReread(id, result) =>
      id in s.rows && ExecutionOk(s.rows[id], Issued(result))
    case Refresh(id, execution) => id in s.rows && ExecutionOk(s.rows[id], execution)
    case DenyDecide(_, _, _) => true
    case DenyReread(id) => id in s.rows && s.rows[id].status == Denied
    case RequestBegin(_) => true
    case RequestRevalidate(_) => true
    case RequestFind(q) => InRequestBand(q)
    case RequestCreate(q, existed) =>
      InRequestBand(q) && (existed ==> HasMatch(s.rows, q.taskId, q.reservationId, q.amount))
    case RequestComplete(rec, _) => Snapshot(s, rec)
    case DirectBegin(_, _) => true
    case DirectRevalidate(_, _) => true
    case DirectAttempt(d, _) => InDirectBand(d)
    case DirectComplete(_, answer) => 0.0 < answer.credit.amount <= 25.0
    case Done(outcome) => OutcomeOk(s, outcome)
  }

  ghost predicate WorldInv(w: World) {
    SharedInv(w.shared) && forall c :: c in w.calls ==> CallInv(w.shared, w.calls[c])
  }

  // ---------- Growth keeps the calls' facts ----------

  lemma SharedGrowsTransitive(a: Shared, b: Shared, c: Shared)
    requires SharedGrows(a, b) && SharedGrows(b, c)
    ensures SharedGrows(a, c)
  {
  }

  lemma SnapshotStable(s: Shared, later: Shared, rec: ApprovalRecord)
    requires Snapshot(s, rec) && SharedGrows(s, later)
    ensures Snapshot(later, rec)
  {
  }

  lemma CreditedStable(s: Shared, later: Shared, id: string)
    requires Credited(s, id) && SharedGrows(s, later)
    ensures Credited(later, id)
  {
  }

  lemma OutcomeStable(s: Shared, later: Shared, outcome: Outcome)
    requires OutcomeOk(s, outcome) && SharedGrows(s, later)
    ensures OutcomeOk(later, outcome)
  {
  }

  lemma CallStable(s: Shared, later: Shared, call: Call)
    requires CallInv(s, call) && SharedGrows(s, later)
    ensures CallInv(later, call)
  {
  }

  // ---------- One step ----------

  /** Changing rows only, so that they evolve, keeps the books justified. */
  lemma RowsChange(s: Shared, rows: Table)
    requires SharedInv(s) && TableOk(rows) && TableEvolves(s.rows, rows)
    requires forall id :: id in rows ==> ExecutedOk(s.(rows := rows), id)
    ensures SharedInv(s.(rows := rows)) && SharedGrows(s, s.(rows := rows))
  {
  }

  /** A provider call under a justified key keeps the books justified. */
  lemma LedgerChange(s: Shared, key: string, credit: Credit)
    requires SharedInv(s)
    requires var done := SubmitCredit(s, key, credit); KeyJustified(s.(ledger := done.log), key)
    ensures var done := SubmitCredit(s, key, credit);
      SharedInv(s.(ledger := done.log)) && SharedGrows(s, s.(ledger := done.log))
  {
    SubmitKeepsAgreement(s.ledger, Some(key), credit);
    var later := s.(ledger := SubmitCredit(s, key, credit).log);
    forall id | id in s.rows ensures Evolves(s.rows[id], later.rows[id]) {
    }
    forall k | k in later.ledger.byKey ensures KeyJustified(later, k) {
      if k != key {
        assert KeyJustified(s, k);
        if DirectlyIssued(s, k) {
          assert DirectlyIssued(later, k);
        } else {
          var id :| k == ApprovedKey(id) && Credited(s, id);
          CreditedStable(s, later, id);
        }
      }
    }
    forall id | id in later.rows ensures ExecutedOk(later, id) {
      assert ExecutedOk(s, id);
      if s.rows[id].status == Executed {
        CreditedStable(s, later, id);
      }
    }
  }

  ghost predicate GoodStep(s: Shared, after: After) {
    SharedInv(after.shared) && CallInv(after.shared, after.call) && SharedGrows(s, after.shared)
  }

  lemma SharedGrowsReflexive(s: Shared)
    ensures SharedGrows(s, s)
  {
  }

  lemma DecideStepInv(s: Shared, id: string, approved: bool, operator: string, note: Option<string>, now: Moment)
    requires SharedInv(s)
    ensures var (rows, reply) := DecideTx(s.rows, id, approved, operator, note, now);
      var later := s.(rows := rows);
      && SharedInv(later) && SharedGrows(s, later)
      && (reply.Decided? ==> id in rows && rows[id].status == if approved then Approved else Denied)
      && (reply.AlreadyDecided? ==>
            Snapshot(later, reply.record) && reply.record.status == if approved then Approved else Denied)
  {
    var (rows, reply) := DecideTx(s.rows, id, approved, operator, note, now);
    DecideKeepsTable(s.rows, id, approved, operator, note, now);
    forall k | k in rows ensures ExecutedOk(s.(rows := rows), k) {
      assert ExecutedOk(s, k);
    }
    RowsChange(s, rows);
  }

  lemma ApproveStepInv(auth: Authorizer, s: Shared, call: Call, env: Env)
    requires SharedInv(s) && CallInv(s, call)
    requires call.ApproveRequire? || call.ApproveDecide? || call.ApproveReread? || call.Refresh?
    ensures GoodStep(s, ApproveStep(auth, s, call, env))
  {
    SharedGrowsReflexive(s);
    match call
    case ApproveRequire(id, _, _) =>
      if id in s.rows {
        assert ExecutedOk(s, id) && RowOk(s.rows[id]);
      }
    case ApproveDecide(id, operator, note) =>
      DecideStepInv(s, id, true, operator, note, env.now);
    case ApproveReread(id) =>
      assert RowOk(s.rows[id]);
    case Refresh(id, _) =>
      assert RowOk(s.rows[id]);
  }

  lemma DenyStepInv(s: Shared, call: Call, env: Env)
    requires SharedInv(s) && CallInv(s, call)
    requires call.DenyDecide? || call.DenyReread?
    ensures GoodStep(s, DenyStep(s, call, env))
  {
    SharedGrowsReflexive(s);
    match call
    case DenyDecide(id, operator, note) =>
      DecideStepInv(s, id, false, operator, note, env.now);
    case DenyReread(id) =>
      assert RowOk(s.rows[id]);
  }

  /** The provider call of an approved snapshot, whether or not it is a repeat. */
  lemma ApprovedIssueInv(s: Shared, rec: ApprovalRecord)
    requires SharedInv(s) && Snapshot(s, rec) && rec.status == Approved
    ensures var done := SubmitCredit(s, ApprovedKey(rec.approvalId), CreditOf(rec));
      var later := s.(ledger := done.log);
      SharedInv(later) && SharedGrows(s, later) && Credited(later, rec.approvalId) && done.item == CreditOf(rec)
  {
    var id := rec.approvalId;
    var key := ApprovedKey(id);
    var done := SubmitCredit(s, key, CreditOf(rec));
    if key in s.ledger.byKey {
      assert KeyJustified(s, key);
      if digest :| key == DirectKey(digest) {
        KeyFamilies(id, digest);
      }
      var other :| key == ApprovedKey(other) && Credited(s, other);
      KeyFamilies(id, other);
    }
    assert Credited(s.(ledger := done.log), id);
    LedgerChange(s, key, CreditOf(rec));
  }

  lemma IssueStepInv(s: Shared, rec: ApprovalRecord, policyId: Option<string>, env: Env)
    requires SharedInv(s) && CallInv(s, Issue(rec, policyId))
    ensures GoodStep(s, IssueStep(s, rec, policyId, env))
  {
    hide SharedInv, SharedGrows, Evolves, RowOk, Submit;
    SharedGrowsReflexive(s);
    ApprovedIssueInv(s, rec);
    SnapshotStable(s, s.(ledger := SubmitCredit(s, ApprovedKey(rec.approvalId), CreditOf(rec)).log), rec);
  }

  lemma MarkedInv(s: Shared, rec: ApprovalRecord, result: ExecutionResult, now: Moment)
    requires SharedInv(s) && Snapshot(s, rec) && rec.status == Approved
    requires Credited(s, rec.approvalId) && ResultFor(rec, result)
    ensures var (rows, reply) := MarkTx(s.rows, rec.approvalId, result, now);
      var later := s.(rows := rows);
      && SharedInv(later) && SharedGrows(s, later)
      && (reply.Marked? || reply.AlreadyExecuted?)
      && rec.approvalId in rows && ExecutionOk(rows[rec.approvalId], Issued(result))
  {
    var id := rec.approvalId;
    var (rows, reply) := MarkTx(s.rows, id, result, now);
    MarkKeepsTable(s.rows, id, result, now);
    var later := s.(rows := rows);
    assert Evolves(s.rows[id], rows[id]);
    forall k | k in rows ensures ExecutedOk(later, k) {
      assert ExecutedOk(s, k);
    }
    RowsChange(s, rows);
  }

  lemma MarkStepInv(s: Shared, rec: ApprovalRecord, result: ExecutionResult, env: Env)
    requires SharedInv(s) && CallInv(s, Mark(rec, result))
    ensures GoodStep(s, MarkStep(s, rec, result, env))
  {
    MarkedInv(s, rec, result, env.now);
  }

  lemma BeginStepInv(auth: Authorizer, s: Shared, rec: ApprovalRecord, env: Env)
    requires SharedInv(s) && CallInv(s, Begin(rec))
    ensures GoodStep(s, ExecuteStep(auth, s, Begin(rec), env))
  {
  }

  lemma ExecuteStepInv(auth: Authorizer, s: Shared, call: Call, env: Env)
    requires SharedInv(s) && CallInv(s, call)
    requires call.Begin? || call.Revalidate? || call.Issue? || call.Complete? || call.Mark? || call.MarkReread?
    ensures GoodStep(s, ExecuteStep(auth, s, call, env))
  {
    if call.Begin? {
      BeginStepInv(auth, s, call.rec, env);
    } else if call.Issue? {
      IssueStepInv(s, call.rec, call.policyId, env);
    } else if call.Mark? {
      MarkStepInv(s, call.rec, call.result, env);
    } else {
      SharedGrowsReflexive(s);
    }
  }

  lemma RequestStepInv(auth: Authorizer, s: Shared, call: Call, env: Env)
    requires Sound(auth) && SharedInv(s) && CallInv(s, call)
    requires call.RequestBegin? || call.RequestRevalidate? || call.RequestFind? || call.RequestCreate?
             || call.RequestComplete?
    ensures GoodStep(s, RequestStep(auth, s, call, env))
  {
    hide SharedInv, SharedGrows, Sound, TableOk, Evolves, RowOk;
    SharedGrowsReflexive(s);
    match call
    case RequestBegin(q) =>
    case RequestRevalidate(q) =>
      RequestAllowed(auth, q);
    case RequestFind(q) =>
    case RequestCreate(q, _) =>
      CreateStepInv(s, env.freshId, q, env.now);
    case RequestComplete(_, _) =>
  }

  lemma RequestAllowed(auth: Authorizer, q: CreditRequest)
    requires Sound(auth)
    ensures auth.mayAllow(RequestCall(auth.ids, q.reservationId, q.amount)) ==> InRequestBand(q)
  {
  }

  lemma DirectAllowed(auth: Authorizer, d: DirectCredit)
    requires Sound(auth)
    ensures auth.mayAllow(CreditCall(auth.ids, d.reservationId, d.amount)) ==> InDirectBand(d)
  {
  }

  lemma CreateStepInv(s: Shared, id: string, q: CreditRequest, now: Moment)
    requires SharedInv(s) && InRequestBand(q)
    ensures var (rows, reply) := CreateTx(s.rows, id, q, now);
      var later := s.(rows := rows);
      SharedInv(later) && SharedGrows(s, later) && (!reply.IdTaken? ==> Snapshot(later, reply.record))
  {
    var (rows, reply) := CreateTx(s.rows, id, q, now);
    CreateKeepsTable(s.rows, id, q, now);
    forall k | k in rows ensures ExecutedOk(s.(rows := rows), k) {
      if k in s.rows {
        assert ExecutedOk(s, k);
      }
    }
    RowsChange(s, rows);
    if !reply.IdTaken? {
      assert RowOk(rows[reply.record.approvalId]);
    }
  }

  /** The provider call of a direct credit inside its band. */
  lemma DirectIssueInv(s: Shared, d: DirectCredit)
    requires SharedInv(s) && InDirectBand(d)
    ensures var done := SubmitCredit(s, DirectKey(d.digest), Credit(d.reservationId, d.amount, d.reason));
      var later := s.(ledger := done.log);
      SharedInv(later) && SharedGrows(s, later) && 0.0 < done.item.amount <= 25.0
  {
    var key := DirectKey(d.digest);
    var credit := Credit(d.reservationId, d.amount, d.reason);
    if key in s.ledger.byKey {
      assert KeyJustified(s, key);
      if id :| key == ApprovedKey(id) {
        KeyFamilies(id, d.digest);
      }
    }
    assert DirectlyIssued(s.(ledger := SubmitCredit(s, key, credit).log), key);
    LedgerChange(s, key, credit);
  }

  lemma AttemptStepInv(s: Shared, d: DirectCredit, left: nat, env: Env)
    requires SharedInv(s) && InDirectBand(d)
    ensures GoodStep(s, AttemptStep(s, d, left, env))
  {
    SharedGrowsReflexive(s);
    DirectIssueInv(s, d);
  }

  lemma DirectStepInv(auth: Authorizer, s: Shared, call: Call, env: Env)
    requires Sound(auth) && SharedInv(s) && CallInv(s, call)
    requires call.DirectBegin? || call.DirectRevalidate? || call.DirectAttempt? || call.DirectComplete?
    ensures GoodStep(s, DirectStep(auth, s, call, env))
  {
    SharedGrowsReflexive(s);
    match call
    case DirectBegin(_, _) =>
    case DirectRevalidate(d, _) =>
      DirectAllowed(auth, d);
    case DirectAttempt(d, left) =>
      AttemptStepInv(s, d, left, env);
    case DirectComplete(_, _) =>
  }

  lemma CallStepInv(auth: Authorizer, s: Shared, call: Call, env: Env)
    requires Sound(auth) && SharedInv(s) && CallInv(s, call)
    ensures GoodStep(s, CallStep(auth, s, call, env))
  {
    hide SharedInv, CallInv, SharedGrows, Sound;
    hide ApproveStep, ExecuteStep, RequestStep, DirectStep, DenyStep;
    if call.Done? {
      SharedGrowsReflexive(s);
    } else if call.DenyDecide? || call.DenyReread? {
      DenyStepInv(s, call, env);
    } else if call.ApproveRequire? || call.ApproveDecide? || call.ApproveReread? || call.Refresh? {
      ApproveStepInv(auth, s, call, env);
    } else if call.DirectBegin? || call.DirectRevalidate? || call.DirectAttempt? || call.DirectComplete? {
      DirectStepInv(auth, s, call, env);
    } else if call.RequestBegin? || call.RequestRevalidate? || call.RequestFind? || call.RequestCreate?
              || call.RequestComplete? {
      RequestStepInv(auth, s, call, env);
    } else {
      ExecuteStepInv(auth, s, call, env);
    }
  }

  // ---------- Every run ----------

  lemma StepInv(auth: Authorizer, w: World, e: Event)
    requires Sound(auth) && WorldInv(w)
    ensures WorldInv(Step(auth, w, e)) && SharedGrows(w.shared, Step(auth, w, e).shared)
  {
    SharedGrowsReflexive(w.shared);
    if e.Advance? && e.c in w.calls {
      var w' := Step(auth, w, e);
      CallStepInv(auth, w.shared, w.calls[e.c], e.env);
      forall c | c in w'.calls ensures CallInv(w'.shared, w'.calls[c]) {
        if c != e.c {
          CallStable(w.shared, w'.shared, w.calls[c]);
        }
      }
    }
  }

  lemma {:induction false} RunInv(auth: Authorizer, w: World, es: seq<Event>)
    requires Sound(auth) && WorldInv(w)
    ensures WorldInv(Run(auth, w, es)) && SharedGrows(w.shared, Run(auth, w, es).shared)
    decreases |es|
  {
    if es == [] {
      SharedGrowsReflexive(w.shared);
    } else {
      var w' := Step(auth, w, es[0]);
      StepInv(auth, w, es[0]);
      RunInv(auth, w', es[1..]);
      SharedGrowsTransitive(w.shared, w'.shared, Run(auth, w, es).shared);
    }
  }

  lemma ReachedInv(auth: Authorizer, es: seq<Event>)
    requires Sound(auth)
    ensures WorldInv(Reached(auth, es))
  {
    RunInv(auth, EMPTY_WORLD, es);
  }
}
