/**
 * Durable approval records.  The SQL table is a map from approval id to row.  Each
 * locked block of the store is one transaction function below; the class
 * `ApprovalStore` runs those transactions on a table it updates in place.
 */
module Approvals {
  import opened Wrappers
  import opened Timestamps

  const LOWER_REQUEST_LIMIT := 25.0
  const UPPER_REQUEST_LIMIT := 100.0

  datatype Status = Pending | Approved | Denied | Executed

  datatype Credit = Credit(reservationId: string, amount: real, reason: string)

  /** What a credit provider answers: the credit on its books and the duplicate flag. */
  datatype ProviderResult = ProviderResult(credit: Credit, deduplicated: bool)

  datatype ExecutionResult = ExecutionResult(
    credit: Credit, deduplicated: bool, approvalId: string, policyId: Option<string>)

  datatype ApprovalRecord = ApprovalRecord(
    approvalId: string,
    taskId: string,
    requestedBy: string,
    reservationId: string,
    amount: real,
    reason: string,
    policyId: Option<string>,
    status: Status,
    createdAt: Moment,
    decidedAt: Option<Moment>,
    decidedBy: Option<string>,
    decisionNote: Option<string>,
    executedAt: Option<Moment>,
    executionResult: Option<ExecutionResult>)

  type Table = map<string, ApprovalRecord>

  /** The fields that identify a request and never change once it is stored. */
  datatype CreditRequest = CreditRequest(
    taskId: string, requestedBy: string, reservationId: string, amount: real, reason: string,
    policyId: Option<string>)

  function CreditOf(r: ApprovalRecord): Credit {
    Credit(r.reservationId, r.amount, r.reason)
  }

  function RequestOf(r: ApprovalRecord): CreditRequest {
    CreditRequest(r.taskId, r.requestedBy, r.reservationId, r.amount, r.reason, r.policyId)
  }

  // ---------- Transactions ----------

  predicate Matches(r: ApprovalRecord, taskId: string, reservationId: string, amount: real) {
    r.taskId == taskId && r.reservationId == reservationId && r.amount == amount
  }

  ghost predicate HasMatch(t: Table, taskId: string, reservationId: string, amount: real) {
    exists id :: id in t && Matches(t[id], taskId, reservationId, amount)
  }

  /** The row already recorded for this task, reservation and amount, if any. */
  ghost function Find(t: Table, taskId: string, reservationId: string, amount: real): (r: Option<ApprovalRecord>)
    ensures r.None? <==> !HasMatch(t, taskId, reservationId, amount)
    ensures r.Some? ==> r.value in t.Values && Matches(r.value, taskId, reservationId, amount)
  {
    if HasMatch(t, taskId, reservationId, amount) then
      var id :| id in t && Matches(t[id], taskId, reservationId, amount);
      Some(t[id])
    else
      None
  }

  /** A request as it is first stored: undecided, with nothing executed. */
  predicate IsNewRequest(r: ApprovalRecord, id: string, q: CreditRequest, now: Moment) {
    && r.approvalId == id && r.createdAt == now
    && r.taskId == q.taskId && r.requestedBy == q.requestedBy && r.reservationId == q.reservationId
    && r.amount == q.amount && r.reason == q.reason && r.policyId == q.policyId
    && r.status == Pending && r.decidedAt.None? && r.decidedBy.None? && r.decisionNote.None?
    && r.executedAt.None? && r.executionResult.None?
  }

  datatype CreateReply = Existing(record: ApprovalRecord) | Inserted(record: ApprovalRecord) | IdTaken

  function NewRow(id: string, q: CreditRequest, now: Moment): ApprovalRecord {
    ApprovalRecord(id, q.taskId, q.requestedBy, q.reservationId, q.amount, q.reason, q.policyId,
                   Pending, now, None, None, None, None, None)
  }

  /** Look up and insert under one lock; the primary key refuses an id already taken. */
  ghost function CreateTx(t: Table, id: string, q: CreditRequest, now: Moment): (Table, CreateReply) {
    var existing := Find(t, q.taskId, q.reservationId, q.amount);
    if existing.Some? then (t, Existing(existing.value))
    else if id in t then (t, IdTaken)
    else (t[id := NewRow(id, q, now)], Inserted(NewRow(id, q, now)))
  }

  datatype DecideReply =
    | AlreadyDecided(record: ApprovalRecord)  // returned from inside the lock
    | Decided                                 // written; the caller reads the row again
    | UnknownApproval
    | WrongState(status: Status)

  function DecideTx(t: Table, id: string, approved: bool, decidedBy: string, note: Option<string>, now: Moment)
    : (Table, DecideReply)
  {
    var target := if approved then Approved else Denied;
    if id !in t then (t, UnknownApproval)
    else if t[id].status == target then (t, AlreadyDecided(t[id]))
    else if t[id].status != Pending then (t, WrongState(t[id].status))
    else
      (t[id := t[id].(status := target, decidedAt := Some(now), decidedBy := Some(decidedBy), decisionNote := note)],
       Decided)
  }

  datatype MarkReply =
    | AlreadyExecuted(record: ApprovalRecord)
    | Marked
    | MarkUnknownApproval
    | MarkWrongState(status: Status)

  function MarkTx(t: Table, id: string, result: ExecutionResult, now: Moment): (Table, MarkReply) {
    if id !in t then (t, MarkUnknownApproval)
    else if t[id].status == Executed then (t, AlreadyExecuted(t[id]))
    else if t[id].status != Approved then (t, MarkWrongState(t[id].status))
    else
      (t[id := t[id].(status := Executed, executedAt := Some(now), executionResult := Some(result))], Marked)
  }

  // ---------- What a table always looks like ----------

  /** One row: its amount lies in the request band and its optional fields follow its state. */
  predicate RowOk(r: ApprovalRecord) {
    && LOWER_REQUEST_LIMIT < r.amount <= UPPER_REQUEST_LIMIT
    && (r.status == Pending <==> r.decidedBy.None?)
    && (r.decidedAt.None? <==> r.decidedBy.None?)
    && (r.decidedBy.None? ==> r.decisionNote.None?)
    && (r.status == Executed <==> r.executionResult.Some?)
    && (r.executedAt.Some? <==> r.executionResult.Some?)
  }

  predicate SameRequest(a: ApprovalRecord, b: ApprovalRecord) {
    Matches(a, b.taskId, b.reservationId, b.amount)
  }

  ghost predicate OneRowPerRequest(t: Table) {
    forall a, b :: a in t && b in t && SameRequest(t[a], t[b]) ==> a == b
  }

  /** Rows are stored under their own id, and one request has at most one row. */
  ghost predicate TableOk(t: Table) {
    && (forall id :: id in t ==> t[id].approvalId == id && RowOk(t[id]))
    && OneRowPerRequest(t)
  }

  /**
   * `later` is a row `r` may have become: the request never changes, a decision is
   * taken once and kept, and a denied or executed row is final.
   */
  predicate Evolves(r: ApprovalRecord, later: ApprovalRecord) {
    && later.approvalId == r.approvalId
    && later.createdAt == r.createdAt
    && RequestOf(later) == RequestOf(r)
    && (r.status != Pending ==>
          later.decidedAt == r.decidedAt && later.decidedBy == r.decidedBy && later.decisionNote == r.decisionNote)
    && match r.status
       case Pending => true
       case Approved => later == r || later.status == Executed
       case Denied => later == r
       case Executed => later == r
  }

  ghost predicate TableEvolves(t: Table, later: Table) {
    forall id :: id in t ==> id in later && Evolves(t[id], later[id])
  }

  /** Replacing a row by one it may become keeps the table well formed. */
  lemma ReplaceRow(t: Table, id: string, row: ApprovalRecord)
    requires TableOk(t) && id in t && RowOk(row) && Evolves(t[id], row)
    ensures TableOk(t[id := row]) && TableEvolves(t, t[id := row])
  {
  }

  lemma NewRequestKeepsOneRow(t: Table, id: string, row: ApprovalRecord)
    requires OneRowPerRequest(t) && id !in t && !HasMatch(t, row.taskId, row.reservationId, row.amount)
    ensures OneRowPerRequest(t[id := row])
  {
  }

  lemma CreateKeepsTable(t: Table, id: string, q: CreditRequest, now: Moment)
    requires TableOk(t) && LOWER_REQUEST_LIMIT < q.amount <= UPPER_REQUEST_LIMIT
    ensures var (t', reply) := CreateTx(t, id, q, now);
      && TableOk(t') && TableEvolves(t, t')
      && (reply.IdTaken? ==> id in t)
      && (!reply.IdTaken? ==>
            reply.record.approvalId in t' && t'[reply.record.approvalId] == reply.record
            && Matches(reply.record, q.taskId, q.reservationId, q.amount))
      && (reply.Existing? ==> t' == t)
      && (reply.Inserted? ==> IsNewRequest(reply.record, id, q, now) && t' == t[id := reply.record])
  {
    var existing := Find(t, q.taskId, q.reservationId, q.amount);
    if existing.Some? {
      var k :| k in t && t[k] == existing.value;
    } else if id !in t {
      NewRequestKeepsOneRow(t, id, NewRow(id, q, now));
    }
  }

  /** Which of the three things happens, told by the fields of the stored rows. */
  lemma CreateDecidedByContent(t: Table, id: string, q: CreditRequest, now: Moment)
    ensures var (t', reply) := CreateTx(t, id, q, now);
      var known := exists k :: k in t && t[k].taskId == q.taskId && t[k].reservationId == q.reservationId
                               && t[k].amount == q.amount;
      && (known ==> reply.Existing? && t' == t && reply.record in t.Values
                    && reply.record.taskId == q.taskId && reply.record.reservationId == q.reservationId
                    && reply.record.amount == q.amount)
      && (!known && id in t ==> reply.IdTaken? && t' == t)
      && (!known && id !in t ==>
            reply.Inserted? && IsNewRequest(reply.record, id, q, now) && t' == t[id := reply.record])
  {
    assert HasMatch(t, q.taskId, q.reservationId, q.amount) <==>
           exists k :: k in t && Matches(t[k], q.taskId, q.reservationId, q.amount);
  }

  lemma DecideKeepsTable(t: Table, id: string, approved: bool, decidedBy: string, note: Option<string>, now: Moment)
    requires TableOk(t)
    ensures var (t', reply) := DecideTx(t, id, approved, decidedBy, note, now);
      && TableOk(t') && TableEvolves(t, t')
      && (reply.AlreadyDecided? || reply.Decided? ==>
            id in t' && t'[id].status == if approved then Approved else Denied)
      && (reply.Decided? ==>
            t'[id].decidedAt == Some(now) && t'[id].decidedBy == Some(decidedBy) && t'[id].decisionNote == note)
      && (reply.AlreadyDecided? ==> t' == t && reply.record == t[id])
      && (forall k :: k in t && k != id ==> t'[k] == t[k])
  {
    var (t', reply) := DecideTx(t, id, approved, decidedBy, note, now);
    if reply.Decided? {
      ReplaceRow(t, id, t'[id]);
    }
  }

  lemma MarkKeepsTable(t: Table, id: string, result: ExecutionResult, now: Moment)
    requires TableOk(t)
    ensures var (t', reply) := MarkTx(t, id, result, now);
      && TableOk(t') && TableEvolves(t, t')
      && (reply.Marked? ==> t'[id].executionResult == Some(result) && t'[id].executedAt == Some(now))
      && (reply.Marked? || reply.AlreadyExecuted? ==> id in t' && t'[id].status == Executed)
      && (forall k :: k in t && k != id ==> t'[k] == t[k])
  {
    var (t', reply) := MarkTx(t, id, result, now);
    if reply.Marked? {
      ReplaceRow(t, id, t'[id]);
    }
  }

  // ---------- Listing ----------

  /** What `ORDER BY created_at DESC` returns for the rows in one state, or for all rows. */
  ghost predicate IsListing(t: Table, status: Option<Status>, rows: seq<ApprovalRecord>) {
    && (forall r :: r in rows <==> r in t.Values && (status.None? || r.status == status.value))
    && (forall i, j :: 0 <= i < j < |rows| ==> rows[i] != rows[j])
    && (forall i, j :: 0 <= i < j < |rows| ==> !TextLess(IsoText(rows[i].createdAt), IsoText(rows[j].createdAt)))
  }

  /** A listing by descending text is newest first by the clock. */
  lemma ListingIsNewestFirst(t: Table, status: Option<Status>, rows: seq<ApprovalRecord>)
    requires IsListing(t, status, rows)
    ensures forall i, j :: 0 <= i < j < |rows| ==> Micros(rows[i].createdAt) >= Micros(rows[j].createdAt)
  {
    forall i, j | 0 <= i < j < |rows|
      ensures Micros(rows[i].createdAt) >= Micros(rows[j].createdAt)
    {
      TextOrderIsTimeOrder(rows[i].createdAt, rows[j].createdAt);
    }
  }

  // ---------- The store object ----------

  class ApprovalStore {
    var rows: Table

    constructor (persisted: Table)
      ensures rows == persisted
    {
      rows := persisted;
    }

    method Get(id: string) returns (r: Option<ApprovalRecord>)
      ensures r == if id in rows then Some(rows[id]) else None
    {
      r := if id in rows then Some(rows[id]) else None;
    }

    method FindCreditRequest(taskId: string, reservationId: string, amount: real) returns (r: Option<ApprovalRecord>)
      requires OneRowPerRequest(rows)
      ensures r == Find(rows, taskId, reservationId, amount)
    {
      if id :| id in rows && Matches(rows[id], taskId, reservationId, amount) {
        r := Some(rows[id]);
        ghost var found := Find(rows, taskId, reservationId, amount);
        ghost var k :| k in rows && rows[k] == found.value;
      } else {
        r := None;
      }
    }

    method CreateCreditRequest(id: string, q: CreditRequest, now: Moment) returns (reply: CreateReply)
      requires OneRowPerRequest(rows)
      modifies this
      ensures (rows, reply) == CreateTx(old(rows), id, q, now)
      ensures reply.Inserted? ==> IsNewRequest(reply.record, id, q, now) && rows == old(rows)[id := reply.record]
    {
      var existing := FindCreditRequest(q.taskId, q.reservationId, q.amount);
      if existing.Some? {
        return Existing(existing.value);
      }
      if id in rows {
        return IdTaken;
      }
      var record := NewRow(id, q, now);
      rows := rows[id := record];
      reply := Inserted(record);
    }

    method Decide(id: string, approved: bool, decidedBy: string, note: Option<string>, now: Moment)
      returns (reply: DecideReply)
      modifies this
      ensures (rows, reply) == DecideTx(old(rows), id, approved, decidedBy, note, now)
    {
      if id !in rows {
        return UnknownApproval;
      }
      var current := rows[id];
      var target := if approved then Approved else Denied;
      if current.status == target {
        return AlreadyDecided(current);
      }
      if current.status != Pending {
        return WrongState(current.status);
      }
      rows := rows[id := current.(status := target, decidedAt := Some(now), decidedBy := Some(decidedBy),
                                  decisionNote := note)];
      reply := Decided;
    }

    method MarkExecuted(id: string, result: ExecutionResult, now: Moment) returns (reply: MarkReply)
      modifies this
      ensures (rows, reply) == MarkTx(old(rows), id, result, now)
    {
      if id !in rows {
        return MarkUnknownApproval;
      }
      var current := rows[id];
      if current.status == Executed {
        return AlreadyExecuted(current);
      }
      if current.status != Approved {
        return MarkWrongState(current.status);
      }
      rows := rows[id := current.(status := Executed, executedAt := Some(now), executionResult := Some(result))];
      reply := Marked;
    }
  }
}
