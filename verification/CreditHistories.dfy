/**
 * What the history of a run decides: how often one call can make the provider act, and
 * which execution the stored duplicate flag of an approval speaks of.
 */
module CreditHistories {
  import opened Wrappers
  import opened Approvals
  import opened CreditProtocol
  import opened CreditSafety
  import opened CreditTheorems

  /** One more event of a run. */
  lemma ReachedStep(auth: Authorizer, es: seq<Event>, k: nat)
    requires k < |es|
    ensures Reached(auth, es[..k + 1]) == Step(auth, Reached(auth, es[..k]), es[k])
  {
    var w := Reached(auth, es[..k]);
    RunConcat(auth, EMPTY_WORLD, es[..k], [es[k]]);
    assert es[..k] + [es[k]] == es[..k + 1];
    assert [es[k]][1..] == [];
    assert Run(auth, w, [es[k]]) == Step(auth, w, es[k]);
  }

  // ---------- One call, one provider action ----------

  /** The event is a provider call of `c` on which the provider acts, whatever its books already hold. */
  predicate ActsFor(w: World, e: Event, c: nat) {
    e.Advance? && e.c == c && c in w.calls && (w.calls[c].Issue? || w.calls[c].DirectAttempt?) && Acts(e.env.provider)
  }

  /** How often the provider acted for `c` along the events. */
  ghost function Actions(auth: Authorizer, w: World, es: seq<Event>, c: nat): nat
    decreases |es|
  {
    if es == [] then 0
    else (if ActsFor(w, es[0], c) then 1 else 0) + Actions(auth, Step(auth, w, es[0]), es[1..], c)
  }

  /** The call has been answered, or failed, at the provider and will not go back to it. */
  predicate PastProvider(call: Call) {
    call.Complete? || call.Mark? || call.MarkReread? || call.Refresh? || call.DirectComplete? || call.Done?
  }

  lemma ActionIsLast(auth: Authorizer, s: Shared, call: Call, env: Env)
    ensures PastProvider(call) ==> PastProvider(CallStep(auth, s, call, env).call)
    ensures (call.Issue? || call.DirectAttempt?) && Acts(env.provider) ==>
              PastProvider(CallStep(auth, s, call, env).call)
  {
  }

  /**
   * In every interleaving, one call, retries included, makes the provider act at most
   * once.  Nothing here rests on the provider recognizing a repeated key.
   */
  lemma {:induction false} OneActionPerCall(auth: Authorizer, w: World, es: seq<Event>, c: nat)
    requires forall i :: 0 <= i < |es| ==> es[i] != Crash(c)
    ensures Actions(auth, w, es, c) <= if c in w.calls && PastProvider(w.calls[c]) then 0 else 1
    decreases |es|
  {
    hide CallStep, PastProvider;
    if es != [] {
      if es[0].Advance? && c in w.calls {
        ActionIsLast(auth, w.shared, w.calls[c], es[0].env);
      }
      ProviderStillAhead(w, es[0], c);
      OneActionPerCall(auth, Step(auth, w, es[0]), es[1..], c);
    }
  }

  lemma ProviderStillAhead(w: World, e: Event, c: nat)
    ensures ActsFor(w, e, c) ==> !PastProvider(w.calls[c])
  {
  }

  // ---------- Whose provider call the stored flag speaks of ----------

  /** At event `i` the call `c` makes its provider call for the approval. */
  ghost predicate ProviderStep(auth: Authorizer, es: seq<Event>, i: nat, c: nat, id: string) {
    && i < |es| && es[i].Advance? && es[i].c == c
    && var calls := Reached(auth, es[..i]).calls; c in calls && calls[c].Issue? && calls[c].rec.approvalId == id
  }

  /** At event `j` the call `c` writes its result back and the store answers that it is marked. */
  ghost predicate Marks(auth: Authorizer, es: seq<Event>, j: nat, c: nat, id: string) {
    && j < |es| && es[j].Advance? && es[j].c == c
    && var w := Reached(auth, es[..j]);
    && c in w.calls && w.calls[c].Mark? && w.calls[c].rec.approvalId == id
    && id in w.shared.rows && w.shared.rows[id].status == Approved
  }

  /** `c` is the same call from event `i` to event `j`. */
  predicate SameCall(es: seq<Event>, i: nat, j: nat, c: nat)
    requires j <= |es|
  {
    forall k :: i <= k < j ==> es[k] != Crash(c)
  }

  /** The approval's credit was already on the books before event `i`. */
  ghost predicate OnBooks(auth: Authorizer, es: seq<Event>, i: nat, id: string)
    requires i <= |es|
  {
    ApprovedKey(id) in Reached(auth, es[..i]).shared.ledger.byKey
  }

  /** A call that has its provider answer carries it, flag included, to the write-back. */
  predicate Carries(call: Call, id: string, flag: bool) {
    match call
    case Complete(rec, _, answer) => rec.approvalId == id && answer.deduplicated == flag
    case Mark(rec, result) => rec.approvalId == id && result.deduplicated == flag
    case _ => PastProvider(call)
  }

  lemma CarriesOn(auth: Authorizer, s: Shared, call: Call, id: string, flag: bool, env: Env)
    requires Carries(call, id, flag)
    ensures Carries(CallStep(auth, s, call, env).call, id, flag)
  {
  }

  lemma {:induction false} FlagTravels(auth: Authorizer, es: seq<Event>, i: nat, k: nat, c: nat, id: string)
    requires ProviderStep(auth, es, i, c, id) && i < k <= |es| && SameCall(es, i, k, c)
    ensures c in Reached(auth, es[..k]).calls
    ensures Carries(Reached(auth, es[..k]).calls[c], id, OnBooks(auth, es, i, id))
    decreases k
  {
    hide Reached, Carries, CallStep;
    ReachedStep(auth, es, k - 1);
    var w := Reached(auth, es[..k - 1]);
    if k == i + 1 {
      AnswerCarries(auth, w.shared, w.calls[c], es[i].env);
    } else {
      FlagTravels(auth, es, i, k - 1, c, id);
      if es[k - 1].Advance? {
        CarriesOn(auth, w.shared, w.calls[c], id, OnBooks(auth, es, i, id), es[k - 1].env);
      }
    }
  }

  lemma AnswerCarries(auth: Authorizer, s: Shared, call: Call, env: Env)
    requires call.Issue?
    ensures Carries(CallStep(auth, s, call, env).call, call.rec.approvalId,
                    ApprovedKey(call.rec.approvalId) in s.ledger.byKey)
  {
  }

  predicate HoldsAnswer(call: Call) {
    call.Complete? || call.Mark?
  }

  lemma AnswerCameFrom(auth: Authorizer, s: Shared, call: Call, env: Env)
    requires HoldsAnswer(CallStep(auth, s, call, env).call)
    ensures (call.Issue? || HoldsAnswer(call)) && CallStep(auth, s, call, env).call.rec == call.rec
  {
  }

  /** A call about to write back made its provider call earlier in the run. */
  lemma {:induction false} AnswerHasProviderStep(auth: Authorizer, es: seq<Event>, k: nat, c: nat)
    requires k <= |es| && c in Reached(auth, es[..k]).calls && HoldsAnswer(Reached(auth, es[..k]).calls[c])
    ensures exists i: nat :: i < k && ProviderStep(auth, es, i, c, Reached(auth, es[..k]).calls[c].rec.approvalId)
                             && SameCall(es, i, k, c)
    decreases k
  {
    hide CallStep, Run;
    if k == 0 {
      NothingReached(auth, es[..0]);
    } else {
      ReachedStep(auth, es, k - 1);
      var w := Reached(auth, es[..k - 1]);
      var e := es[k - 1];
      var rec := Reached(auth, es[..k]).calls[c].rec;
      if e.Advance? && e.c == c {
        AnswerCameFrom(auth, w.shared, w.calls[c], e.env);
      }
      if e.Advance? && e.c == c && w.calls[c].Issue? {
        assert ProviderStep(auth, es, k - 1, c, rec.approvalId) && SameCall(es, k - 1, k, c);
      } else {
        AnswerHasProviderStep(auth, es, k - 1, c);
        var i: nat :| i < k - 1 && ProviderStep(auth, es, i, c, rec.approvalId) && SameCall(es, i, k - 1, c);
        assert SameCall(es, i, k, c);
      }
    }
  }

  lemma NothingReached(auth: Authorizer, es: seq<Event>)
    requires es == []
    ensures Reached(auth, es) == EMPTY_WORLD
  {
  }

  /**
   * The stored duplicate flag, in every run: for the call whose write-back was taken, it is
   * set if and only if the credit was already on the books when that call made its
   * provider call, whatever other calls did before, in between and after.
   */
  lemma StoredFlagIsExact(auth: Authorizer, es: seq<Event>, j: nat, c: nat, id: string)
    requires Sound(auth) && Marks(auth, es, j, c, id)
    ensures var rows := Reached(auth, es).shared.rows;
      && id in rows && rows[id].executionResult.Some?
      && (exists i: nat :: i < j && ProviderStep(auth, es, i, c, id) && SameCall(es, i, j, c))
      && (forall i: nat :: i < j && ProviderStep(auth, es, i, c, id) && SameCall(es, i, j, c) ==>
            (rows[id].executionResult.value.deduplicated <==> OnBooks(auth, es, i, id)))
  {
    hide Run, CallStep, ProviderStep, SameCall;
    AnswerHasProviderStep(auth, es, j, c);
    var w := Reached(auth, es[..j]);
    var result := w.calls[c].result;
    MarkStores(auth, es, j, c, id);
    forall i: nat | i < j && ProviderStep(auth, es, i, c, id) && SameCall(es, i, j, c)
      ensures result.deduplicated <==> OnBooks(auth, es, i, id)
    {
      FlagTravels(auth, es, i, j, c, id);
    }
  }

  /** What a taken write-back stored is what the row holds ever after. */
  lemma MarkStores(auth: Authorizer, es: seq<Event>, j: nat, c: nat, id: string)
    requires Sound(auth) && Marks(auth, es, j, c, id)
    ensures id in Reached(auth, es).shared.rows
    ensures Reached(auth, es).shared.rows[id].executionResult == Some(Reached(auth, es[..j]).calls[c].result)
  {
    hide Run, CallStep;
    var w := Reached(auth, es[..j]);
    ReachedStep(auth, es, j);
    MarkTaken(auth, w.shared, w.calls[c], es[j].env);
    assert es == es[..j + 1] + es[j + 1..];
    DecisionsAreFinal(auth, es[..j + 1], es[j + 1..], id);
  }

  lemma MarkTaken(auth: Authorizer, s: Shared, call: Call, env: Env)
    requires call.Mark? && call.rec.approvalId in s.rows && s.rows[call.rec.approvalId].status == Approved
    ensures var rows := CallStep(auth, s, call, env).shared.rows; var id := call.rec.approvalId;
      id in rows && rows[id].status == Executed && rows[id].executionResult == Some(call.result)
  {
  }

  /** Every executed approval got its result from such a write-back. */
  lemma {:induction false} ExecutedWasMarked(auth: Authorizer, es: seq<Event>, k: nat, id: string)
    requires k <= |es|
    requires id in Reached(auth, es[..k]).shared.rows && Reached(auth, es[..k]).shared.rows[id].status == Executed
    ensures exists j: nat, c: nat :: j < k && Marks(auth, es, j, c, id)
  {
    hide CallStep, Run;
    if k == 0 {
      NothingReached(auth, es[..0]);
    } else {
      ReachedStep(auth, es, k - 1);
      var w := Reached(auth, es[..k - 1]);
      var e := es[k - 1];
      if id in w.shared.rows && w.shared.rows[id].status == Executed {
        ExecutedWasMarked(auth, es, k - 1, id);
        var j: nat, c: nat :| j < k - 1 && Marks(auth, es, j, c, id);
      } else {
        OnlyMarkExecutes(auth, w.shared, w.calls[e.c], e.env, id);
        assert Marks(auth, es, k - 1, e.c, id);
      }
    }
  }

  lemma OnlyMarkExecutes(auth: Authorizer, s: Shared, call: Call, env: Env, id: string)
    requires var rows := CallStep(auth, s, call, env).shared.rows; id in rows && rows[id].status == Executed
    ensures (id in s.rows && s.rows[id].status == Executed) ||
            (call.Mark? && call.rec.approvalId == id && id in s.rows && s.rows[id].status == Approved)
  {
  }

  // ---------- Who decided ----------

  /** At event `i` the call `c` decides the pending row, by its own operator and with its own note. */
  ghost predicate Decides(auth: Authorizer, es: seq<Event>, i: nat, c: nat, id: string, row: ApprovalRecord) {
    && i < |es| && es[i].Advance? && es[i].c == c
    && var w := Reached(auth, es[..i]);
    && id in w.shared.rows && w.shared.rows[id].status == Pending
    && c in w.calls
    && row.decidedBy.Some? && row.decidedAt == Some(es[i].env.now)
    && w.calls[c] == if row.status == Denied then DenyDecide(id, row.decidedBy.value, row.decisionNote)
                     else ApproveDecide(id, row.decidedBy.value, row.decisionNote)
  }

  predicate Decided(rows: Table, id: string) {
    id in rows && rows[id].status != Pending
  }

  lemma OnlyDecideDecides(auth: Authorizer, s: Shared, call: Call, env: Env, id: string)
    requires var rows := CallStep(auth, s, call, env).shared.rows; Decided(rows, id) && !Decided(s.rows, id)
    ensures var row := CallStep(auth, s, call, env).shared.rows[id];
      && id in s.rows && s.rows[id].status == Pending
      && row.decidedBy.Some? && row.decidedAt == Some(env.now)
      && (call.ApproveDecide? || call.DenyDecide?) && call.id == id
      && row.decidedBy == Some(call.operator) && row.decisionNote == call.note
      && (call.DenyDecide? <==> row.status == Denied)
  {
  }

  /**
   * Nobody but a human decides: every row of every run that is not pending was decided,
   * while it was pending, by the decide step of an approve or deny call for it; who, when
   * and with which note is that call's operator, that step's clock and that call's note.
   */
  lemma {:induction false} EveryDecisionHasADecider(auth: Authorizer, es: seq<Event>, k: nat, id: string)
    requires Sound(auth) && k <= |es| && Decided(Reached(auth, es[..k]).shared.rows, id)
    ensures var row := Reached(auth, es[..k]).shared.rows[id];
      row.decidedBy.Some? && exists i: nat, c: nat :: i < k && Decides(auth, es, i, c, id, row)
  {
    hide CallStep, Run, SharedInv, CallInv;
    if k == 0 {
      NothingReached(auth, es[..0]);
    } else {
      ReachedStep(auth, es, k - 1);
      var w := Reached(auth, es[..k - 1]);
      var e := es[k - 1];
      var row := Reached(auth, es[..k]).shared.rows[id];
      if Decided(w.shared.rows, id) {
        EveryDecisionHasADecider(auth, es, k - 1, id);
        var i: nat, c: nat :| i < k - 1 && Decides(auth, es, i, c, id, w.shared.rows[id]);
        ReachedInv(auth, es[..k - 1]);
        StepInv(auth, w, e);
        assert Evolves(w.shared.rows[id], row);
        assert Decides(auth, es, i, c, id, row);
      } else {
        OnlyDecideDecides(auth, w.shared, w.calls[e.c], e.env, id);
        assert Decides(auth, es, k - 1, e.c, id, row);
      }
    }
  }

  // ---------- A race without any failure sets the flag ----------

  /** An approve call from its start to just before the provider, nothing in its way. */
  function ApproachEvents(c: nat, id: string, operator: string, note: Option<string>, env: Env): seq<Event> {
    [Start(c, ApproveRequire(id, operator, note)), Advance(c, env), Advance(c, env), Advance(c, env), Advance(c, env)]
  }

  lemma Approach(auth: Authorizer, w: World, c: nat, id: string, operator: string, note: Option<string>, env: Env)
    requires SharedInv(w.shared) && c !in w.calls && id in w.shared.rows && w.shared.rows[id].status == Approved
    requires Passed(auth, ApprovedRequest(auth, w.shared.rows[id]), env, env)
    ensures Run(auth, w, ApproachEvents(c, id, operator, note, env)) ==
            World(w.shared, w.calls[c := Issue(w.shared.rows[id], env.policyId)])
  {
    hide SharedInv, Run;
    RowsKeyed(w.shared, id);
    var rec := w.shared.rows[id];
    var es := ApproachEvents(c, id, operator, note, env);
    var w1 := Step(auth, w, es[0]);
    var w2 := Step(auth, w1, es[1]);
    var w3 := Step(auth, w2, es[2]);
    var w4 := Step(auth, w3, es[3]);
    var w5 := Step(auth, w4, es[4]);
    assert w2.calls[c] == ApproveDecide(id, operator, note);
    assert w3.calls[c] == Begin(rec) && w3.shared == w.shared;
    assert w4.calls[c] == Revalidate(rec);
    assert w5 == World(w.shared, w.calls[c := Issue(rec, env.policyId)]);
    assert es == [es[0]] + [es[1], es[2], es[3], es[4]];
    RunNext(auth, w, es[0], [es[1], es[2], es[3], es[4]]);
    RunFour(auth, w1, es[1], es[2], es[3], es[4]);
  }

  lemma RunNext(auth: Authorizer, w: World, e: Event, rest: seq<Event>)
    ensures Run(auth, w, [e] + rest) == Run(auth, Step(auth, w, e), rest)
  {
    assert ([e] + rest)[1..] == rest;
  }

  lemma RunFour(auth: Authorizer, w: World, a: Event, b: Event, c: Event, d: Event)
    ensures Run(auth, w, [a, b, c, d]) == Step(auth, Step(auth, Step(auth, Step(auth, w, a), b), c), d)
  {
    hide Step, Run;
    var w1 := Step(auth, w, a);
    var w2 := Step(auth, w1, b);
    var w3 := Step(auth, w2, c);
    assert [a, b, c, d] == [a] + [b, c, d] && [b, c, d] == [b] + [c, d] && [c, d] == [c] + [d] && [d] == [d] + [];
    RunNext(auth, w, a, [b, c, d]);
    RunNext(auth, w1, b, [c, d]);
    RunNext(auth, w2, c, [d]);
    RunNext(auth, w3, d, []);
    NoEvents(auth, Step(auth, w3, d));
  }

  lemma NoEvents(auth: Authorizer, w: World)
    ensures Run(auth, w, []) == w
  {
  }

  /** `a` at the provider; then `b` at the provider, completing and writing back. */
  function RaceEvents(a: nat, b: nat, env: Env): seq<Event> {
    [Advance(a, env), Advance(b, env), Advance(b, env), Advance(b, env)]
  }

  lemma Race(auth: Authorizer, w: World, a: nat, b: nat, rec: ApprovalRecord, policyId: Option<string>, env: Env)
    requires a != b && a in w.calls && b in w.calls
    requires w.calls[a] == w.calls[b] == Issue(rec, policyId)
    requires rec.approvalId in w.shared.rows && w.shared.rows[rec.approvalId].status == Approved
    requires ApprovedKey(rec.approvalId) !in w.shared.ledger.byKey && env.provider.Answers? && env.completes
    ensures var rows := Run(auth, w, RaceEvents(a, b, env)).shared.rows; var id := rec.approvalId;
      id in rows && rows[id].executionResult.Some? && rows[id].executionResult.value.deduplicated
  {
    hide Run, Carries, PastProvider;
    var es := RaceEvents(a, b, env);
    var w1 := Step(auth, w, es[0]);
    var w2 := Step(auth, w1, es[1]);
    var w3 := Step(auth, w2, es[2]);
    var w4 := Step(auth, w3, es[3]);
    assert ApprovedKey(rec.approvalId) in w1.shared.ledger.byKey;
    assert w2.calls[b].Complete? && w2.calls[b].answer.deduplicated;
    assert w3.calls[b].Mark? && w3.calls[b].result.deduplicated;
    MarkTaken(auth, w3.shared, w3.calls[b], env);
    RunFour(auth, w, es[0], es[1], es[2], es[3]);
  }

  /**
   * Without a crash and without a failure: from every reachable state with the record
   * approved and no credit yet, two racing approve calls can store the flag set.
   */
  lemma RaceStoresDuplicate(auth: Authorizer, es: seq<Event>, a: nat, b: nat, id: string, operator: string,
                            note: Option<string>, env: Env)
    requires Sound(auth)
    requires var w := Reached(auth, es);
      && a != b && a !in w.calls && b !in w.calls && id in w.shared.rows && w.shared.rows[id].status == Approved
      && ApprovedKey(id) !in w.shared.ledger.byKey
      && Passed(auth, ApprovedRequest(auth, w.shared.rows[id]), env, env) && env.provider.Answers? && env.completes
    ensures var race := ApproachEvents(a, id, operator, note, env) + ApproachEvents(b, id, operator, note, env)
                        + RaceEvents(a, b, env);
      var rows := Reached(auth, es + race).shared.rows;
      id in rows && rows[id].executionResult.Some? && rows[id].executionResult.value.deduplicated
  {
    hide Run, SharedInv, ApproachEvents, RaceEvents;
    ReachedInv(auth, es);
    var w := Reached(auth, es);
    RowsKeyed(w.shared, id);
    var first := ApproachEvents(a, id, operator, note, env);
    var second := ApproachEvents(b, id, operator, note, env);
    var last := RaceEvents(a, b, env);
    Approach(auth, w, a, id, operator, note, env);
    var w1 := Run(auth, w, first);
    Approach(auth, w1, b, id, operator, note, env);
    var w2 := Run(auth, w1, second);
    Race(auth, w2, a, b, w.shared.rows[id], env.policyId, env);
    RunConcat(auth, EMPTY_WORLD, es, first + second + last);
    RunConcat(auth, w, first + second, last);
    RunConcat(auth, w, first, second);
  }
}
