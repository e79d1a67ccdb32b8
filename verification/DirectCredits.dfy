/** What content-derived keys mean for the ledger: near-identical repeats and a count bound. */
module DirectCredits {
  import opened Wrappers
  import opened Approvals
  import opened KeyedLog
  import opened AmountText
  import opened IdempotencyKeys
  import P = CreditProtocol
  import CreditSafety
  import CreditTheorems
  import BoundedRetry
  import Policy

  /** A direct credit keyed by its own content, within the direct band. */
  ghost predicate IsDirectEntry(hash: Hash, taskId: string, e: Entry<Credit>) {
    && e.key == Some(CreditKey(hash, taskId, e.item.reservationId, e.item.amount))
    && '\n' !in taskId && 0.0 < e.item.amount <= 25.0
  }

  /** The only two kinds of call the ledger gets. */
  ghost predicate IsCreditCall(hash: Hash, e: Entry<Credit>) {
    (exists taskId :: IsDirectEntry(hash, taskId, e)) || (exists id :: e.key == Some(P.ApprovedKey(id)))
  }

  lemma {:induction false} IndexedByContent(hash: Hash, calls: seq<Entry<Credit>>, n: nat, k: string)
    requires n <= |calls| && forall i :: 0 <= i < n ==> IsCreditCall(hash, calls[i])
    ensures k in Replay(calls, n).byKey ==> IsCreditCall(hash, Entry(Some(k), Replay(calls, n).byKey[k]))
  {
    if n > 0 && k in Replay(calls, n).byKey {
      if k in Replay(calls, n - 1).byKey {
        IndexedByContent(hash, calls, n - 1, k);
      } else {
        assert calls[n - 1] == Entry(Some(k), Replay(calls, n).byKey[k]);
      }
    }
  }

  /**
   * After any calls, a repeated direct credit is answered with a credit for the same
   * reservation whose amount is at most one cent away.
   */
  lemma RepeatWithinOneCent(hash: Hash, calls: seq<Entry<Credit>>, taskId: string, credit: Credit)
    requires Injective(hash) && '\n' !in taskId && 0.0 < credit.amount <= 25.0
    requires forall i :: 0 <= i < |calls| ==> IsCreditCall(hash, calls[i])
    ensures var key := CreditKey(hash, taskId, credit.reservationId, credit.amount);
      var s := Submit(Replay(calls, |calls|), Some(key), credit);
      && s.item.reservationId == credit.reservationId
      && -0.01 <= s.item.amount - credit.amount <= 0.01
      && (!s.deduplicated ==> s.item == credit)
  {
    var log := Replay(calls, |calls|);
    var key := CreditKey(hash, taskId, credit.reservationId, credit.amount);
    if key in log.byKey {
      IndexedByContent(hash, calls, |calls|, key);
      var known := log.byKey[key];
      if id :| Some(key) == Some(P.ApprovedKey(id)) {
        P.KeyFamilies(id, hash(CreditText(taskId, credit.reservationId, credit.amount)));
      }
      var task :| IsDirectEntry(hash, task, Entry(Some(key), known));
      SameCreditKey(hash, task, known.reservationId, known.amount, taskId, credit.reservationId, credit.amount);
      SameCentsClose(known.amount, credit.amount);
    }
  }

  /** The direct credit of a call: its arguments, under the key derived from them. */
  function DirectCreditOf(hash: Hash, taskId: string, reservationId: string, amount: real, reason: string)
    : P.DirectCredit
  {
    P.DirectCredit(hash(CreditText(taskId, reservationId, amount)), reservationId, amount, reason)
  }

  /** The key of a direct call, spelled out; the credit it asks for is the call's own. */
  lemma DirectCallSpelled(hash: Hash, taskId: string, reservationId: string, amount: real, reason: string)
    ensures var d := DirectCreditOf(hash, taskId, reservationId, amount, reason);
      && P.DirectKey(d.digest) ==
           "credit:" + hash("guest.credit.issue\n" + taskId + "\n" + reservationId + "\n" + FormatAmount(amount))
      && d.reservationId == reservationId && d.amount == amount && d.reason == reason
  {
    CreditTextSpelled(taskId, reservationId, amount);
  }

  /** Two direct calls share a key exactly when task, reservation and cents agree. */
  lemma DirectCallsShareAKey(hash: Hash, t1: string, r1: string, a1: real, why1: string,
                             t2: string, r2: string, a2: real, why2: string)
    requires Injective(hash) && '\n' !in t1 && '\n' !in t2 && a1 > 0.0 && a2 > 0.0
    ensures P.DirectKey(DirectCreditOf(hash, t1, r1, a1, why1).digest) ==
            P.DirectKey(DirectCreditOf(hash, t2, r2, a2, why2).digest)
       <==> t1 == t2 && r1 == r2 && Cents(a1) == Cents(a2)
  {
    SameCreditKey(hash, t1, r1, a1, t2, r2, a2);
  }

  // ---------- How many direct credits one task can get for one reservation ----------

  ghost function DirectPositions(hash: Hash, log: Log<Credit>, taskId: string, reservationId: string): set<nat> {
    set i: nat | i < |log.entries| && IsDirectEntry(hash, taskId, log.entries[i])
                 && log.entries[i].item.reservationId == reservationId
  }

  lemma {:induction false} Pigeonhole(positions: set<nat>, hole: map<nat, int>, holes: nat)
    requires forall i :: i in positions ==> i in hole && 0 <= hole[i] < holes
    requires forall i, j :: i in positions && j in positions && hole[i] == hole[j] ==> i == j
    ensures |positions| <= holes
    decreases holes
  {
    if holes == 0 {
      assert positions == {};
    } else if last :| last in positions && hole[last] == holes - 1 {
      Pigeonhole(positions - {last}, hole, holes - 1);
    } else {
      Pigeonhole(positions, hole, holes - 1);
    }
  }

  /**
   * One task never gets more than 2501 direct credits for one reservation: amounts in
   * (0, 25] have 2501 different cent texts, and each text is one key.
   */
  lemma AtMost2501DirectCredits(hash: Hash, log: Log<Credit>, taskId: string, reservationId: string)
    requires Agrees(log)
    ensures |DirectPositions(hash, log, taskId, reservationId)| <= 2501
  {
    var positions := DirectPositions(hash, log, taskId, reservationId);
    var hole := map i | i in positions :: Cents(log.entries[i].item.amount);
    forall i | i in positions ensures 0 <= hole[i] < 2501 {
      SmallAmountCents(log.entries[i].item.amount);
    }
    forall i, j | i in positions && j in positions && hole[i] == hole[j] ensures i == j {
      SameTextSameCents(log.entries[i].item.amount, log.entries[j].item.amount);
      assert log.entries[i].key == log.entries[j].key;
    }
    Pigeonhole(positions, hole, 2501);
  }

  // ---------- Over runs ----------

  /** The digest is the hash of the credit's own content, under some task. */
  ghost predicate FromContent(hash: Hash, d: P.DirectCredit) {
    exists taskId :: '\n' !in taskId && d.digest == hash(CreditText(taskId, d.reservationId, d.amount))
  }

  /** Every direct call of the run was started with a key made from its content. */
  ghost predicate ContentKeyed(hash: Hash, es: seq<P.Event>) {
    forall i :: 0 <= i < |es| && es[i].Start? && es[i].call.DirectBegin? ==> FromContent(hash, es[i].call.d)
  }

  predicate WithinOneCent(credit: Credit, d: P.DirectCredit) {
    credit.reservationId == d.reservationId && -0.01 <= credit.amount - d.amount <= 0.01
  }

  ghost predicate BooksByContent(hash: Hash, log: Log<Credit>) {
    forall digest :: P.DirectKey(digest) in log.byKey ==>
      exists taskId :: IsDirectEntry(hash, taskId, Entry(Some(P.DirectKey(digest)), log.byKey[P.DirectKey(digest)]))
  }

  ghost predicate CallByContent(hash: Hash, call: P.Call) {
    match call
    case DirectBegin(d, _) => FromContent(hash, d)
    case DirectRevalidate(d, _) => FromContent(hash, d)
    case DirectAttempt(d, _) => FromContent(hash, d)
    case DirectComplete(d, answer) => WithinOneCent(answer.credit, d)
    case _ => true
  }

  ghost predicate ContentInv(hash: Hash, w: P.World) {
    BooksByContent(hash, w.shared.ledger) && forall c :: c in w.calls ==> CallByContent(hash, w.calls[c])
  }

  /** The provider acting on a direct credit keeps the books by content and answers within a cent. */
  lemma DirectSubmit(hash: Hash, s: P.Shared, d: P.DirectCredit)
    requires Injective(hash) && BooksByContent(hash, s.ledger) && FromContent(hash, d) && 0.0 < d.amount <= 25.0
    ensures var done := P.SubmitCredit(s, P.DirectKey(d.digest), Credit(d.reservationId, d.amount, d.reason));
      && BooksByContent(hash, done.log) && WithinOneCent(done.item, d)
      && (!done.deduplicated ==> done.item == Credit(d.reservationId, d.amount, d.reason))
  {
    var task :| '\n' !in task && d.digest == hash(CreditText(task, d.reservationId, d.amount));
    var key, credit := P.DirectKey(d.digest), Credit(d.reservationId, d.amount, d.reason);
    if key in s.ledger.byKey {
      var known := s.ledger.byKey[key];
      var other :| IsDirectEntry(hash, other, Entry(Some(key), known));
      SameCreditKey(hash, other, known.reservationId, known.amount, task, d.reservationId, d.amount);
      SameCentsClose(known.amount, d.amount);
    } else {
      var log := P.SubmitCredit(s, key, credit).log;
      forall digest | P.DirectKey(digest) in log.byKey
        ensures exists t :: IsDirectEntry(hash, t, Entry(Some(P.DirectKey(digest)), log.byKey[P.DirectKey(digest)]))
      {
        if P.DirectKey(digest) == key {
          assert IsDirectEntry(hash, task, Entry(Some(key), credit));
        }
      }
    }
  }

  lemma ApprovedSubmit(hash: Hash, s: P.Shared, id: string, credit: Credit)
    requires BooksByContent(hash, s.ledger)
    ensures BooksByContent(hash, P.SubmitCredit(s, P.ApprovedKey(id), credit).log)
  {
    var log := P.SubmitCredit(s, P.ApprovedKey(id), credit).log;
    forall digest | P.DirectKey(digest) in log.byKey
      ensures exists t :: IsDirectEntry(hash, t, Entry(Some(P.DirectKey(digest)), log.byKey[P.DirectKey(digest)]))
    {
      P.KeyFamilies(id, digest);
    }
  }

  lemma CallKeepsContent(hash: Hash, auth: P.Authorizer, s: P.Shared, call: P.Call, env: P.Env)
    requires Injective(hash) && BooksByContent(hash, s.ledger) && CallByContent(hash, call)
    requires call.DirectAttempt? ==> 0.0 < call.d.amount <= 25.0
    ensures var after := P.CallStep(auth, s, call, env);
      BooksByContent(hash, after.shared.ledger) && CallByContent(hash, after.call)
  {
    hide BooksByContent, FromContent, WithinOneCent, P.SubmitCredit;
    if call.Issue? {
      ApprovedSubmit(hash, s, call.rec.approvalId, CreditOf(call.rec));
    } else if call.DirectAttempt? {
      DirectSubmit(hash, s, call.d);
    }
  }

  lemma {:induction false} RunKeepsContent(hash: Hash, auth: P.Authorizer, w: P.World, es: seq<P.Event>)
    requires Injective(hash) && P.Sound(auth) && CreditSafety.WorldInv(w)
    requires ContentInv(hash, w) && ContentKeyed(hash, es)
    ensures ContentInv(hash, P.Run(auth, w, es))
    decreases |es|
  {
    hide P.CallStep, BooksByContent, FromContent, CreditSafety.SharedInv;
    if es != [] {
      var e := es[0];
      if e.Advance? && e.c in w.calls {
        assert CreditSafety.CallInv(w.shared, w.calls[e.c]);
        CallKeepsContent(hash, auth, w.shared, w.calls[e.c], e.env);
      }
      CreditSafety.StepInv(auth, w, e);
      RunKeepsContent(hash, auth, P.Step(auth, w, e), es[1..]);
    }
  }

  lemma ReachedByContent(hash: Hash, auth: P.Authorizer, es: seq<P.Event>)
    requires Injective(hash) && P.Sound(auth) && ContentKeyed(hash, es)
    ensures ContentInv(hash, P.Reached(auth, es)) && CreditSafety.WorldInv(P.Reached(auth, es))
  {
    CreditSafety.ReachedInv(auth, es);
    RunKeepsContent(hash, auth, P.EMPTY_WORLD, es);
  }

  /**
   * In every such run, every entry under a `credit:` key carries its own content, and a
   * direct call with its provider answer was answered within one cent.
   */
  lemma DirectCreditsMatchContent(hash: Hash, auth: P.Authorizer, es: seq<P.Event>)
    requires Injective(hash) && P.Sound(auth) && ContentKeyed(hash, es)
    ensures var w := P.Reached(auth, es);
      && (forall i, digest ::
            0 <= i < |w.shared.ledger.entries| && w.shared.ledger.entries[i].key == Some(P.DirectKey(digest)) ==>
              exists taskId :: IsDirectEntry(hash, taskId, w.shared.ledger.entries[i]))
      && (forall c :: c in w.calls && w.calls[c].DirectComplete? ==>
            WithinOneCent(w.calls[c].answer.credit, w.calls[c].d))
  {
    ReachedByContent(hash, auth, es);
    var w := P.Reached(auth, es);
    forall i, digest | 0 <= i < |w.shared.ledger.entries| && w.shared.ledger.entries[i].key == Some(P.DirectKey(digest))
      ensures exists taskId :: IsDirectEntry(hash, taskId, w.shared.ledger.entries[i])
    {
      assert w.shared.ledger.entries[i] == Entry(Some(P.DirectKey(digest)), w.shared.ledger.byKey[P.DirectKey(digest)]);
    }
    forall c | c in w.calls && w.calls[c].DirectComplete?
      ensures WithinOneCent(w.calls[c].answer.credit, w.calls[c].d)
    {
      assert CallByContent(hash, w.calls[c]);
    }
  }

  /** The key is one this task derives for this reservation. */
  ghost predicate KeyOfTask(hash: Hash, key: Option<string>, taskId: string, reservationId: string) {
    exists amount :: 0.0 < amount <= 25.0 && key == Some(CreditKey(hash, taskId, reservationId, amount))
  }

  ghost function TaskPositions(hash: Hash, log: Log<Credit>, taskId: string, reservationId: string): set<nat> {
    set i: nat | i < |log.entries| && KeyOfTask(hash, log.entries[i].key, taskId, reservationId)
  }

  /** In every such run one task gets at most 2501 direct credits for one reservation. */
  lemma AtMost2501InEveryRun(hash: Hash, auth: P.Authorizer, es: seq<P.Event>, taskId: string, reservationId: string)
    requires Injective(hash) && P.Sound(auth) && ContentKeyed(hash, es) && '\n' !in taskId
    ensures |TaskPositions(hash, P.Reached(auth, es).shared.ledger, taskId, reservationId)| <= 2501
  {
    hide P.Reached;
    ReachedByContent(hash, auth, es);
    DirectCreditsMatchContent(hash, auth, es);
    var log := P.Reached(auth, es).shared.ledger;
    var counted := DirectPositions(hash, log, taskId, reservationId);
    forall i | i in TaskPositions(hash, log, taskId, reservationId) ensures i in counted {
      var amount :| 0.0 < amount <= 25.0 && log.entries[i].key == Some(CreditKey(hash, taskId, reservationId, amount));
      var known := log.entries[i].item;
      assert log.entries[i].key == Some(P.DirectKey(hash(CreditText(taskId, reservationId, amount))));
      var task :| IsDirectEntry(hash, task, log.entries[i]);
      SameCreditKey(hash, task, known.reservationId, known.amount, taskId, reservationId, amount);
    }
    AtMost2501DirectCredits(hash, log, taskId, reservationId);
    SubsetSmaller(TaskPositions(hash, log, taskId, reservationId), counted);
  }

  lemma {:induction false} SubsetSmaller(a: set<nat>, b: set<nat>)
    requires a <= b
    ensures |a| <= |b|
  {
    assert b == a + (b - a);
  }

  /**
   * A direct write on books kept by content, whatever the provider does: the books stay so,
   * and an answer is within one cent of the request and the request itself when not flagged.
   */
  lemma WriteByContent(hash: Hash, s: P.Shared, d: P.DirectCredit, final: P.ProviderBehaviour, completes: bool)
    requires Injective(hash) && BooksByContent(hash, s.ledger) && FromContent(hash, d) && 0.0 < d.amount <= 25.0
    ensures var end := CreditTheorems.SettledCredit(s, d, final, completes);
      && BooksByContent(hash, end.shared.ledger)
      && (end.call.outcome.DirectIssued? ==>
            && WithinOneCent(end.call.outcome.answer.credit, d)
            && (!end.call.outcome.answer.deduplicated ==>
                  end.call.outcome.answer.credit == Credit(d.reservationId, d.amount, d.reason)))
  {
    hide BooksByContent, WithinOneCent, FromContent;
    DirectSubmit(hash, s, d);
  }

  /** The same for a whole direct call on its own, from its own arguments. */
  lemma CallByContentAlone(hash: Hash, auth: P.Authorizer, s: P.Shared, taskId: string, reservationId: string,
                           amount: real, reason: string, n: nat, env: nat -> P.Env)
    requires P.Sound(auth) && Injective(hash) && '\n' !in taskId && BooksByContent(hash, s.ledger) && n >= 1
    ensures var end := P.Finish(auth, s, P.DirectBegin(DirectCreditOf(hash, taskId, reservationId, amount, reason), n),
                                env);
      && BooksByContent(hash, end.shared.ledger) && end.call.Done?
      && (end.call.outcome.DirectIssued? ==>
            && end.call.outcome.answer.credit.reservationId == reservationId
            && -0.01 <= end.call.outcome.answer.credit.amount - amount <= 0.01
            && (!end.call.outcome.answer.deduplicated ==>
                  end.call.outcome.answer.credit == Credit(reservationId, amount, reason)))
  {
    hide P.Finish, P.Sound, BooksByContent, CreditText, CreditTheorems.Script, BoundedRetry.Retried, Injective;
    var d := DirectCreditOf(hash, taskId, reservationId, amount, reason);
    CreditTheorems.DirectGateAlone(auth, s, d, n, env);
    if auth.mayAllow(Policy.CreditCall(auth.ids, reservationId, amount)) {
      CreditSafety.DirectAllowed(auth, d);
      CreditTheorems.DirectWriteAlone(auth, s, d, n, env);
      WriteByContent(hash, s, d, BoundedRetry.Retried(CreditTheorems.Script(env, n), 0, n), env(1).completes);
    }
  }
}
