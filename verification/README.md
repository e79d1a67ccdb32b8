# Verified model of the guest-operations core

This Dafny project models the parts of the Asante multi-agent service where money and
data are protected by the interplay of several components, and proves what that
interplay guarantees. `dafny verify dfyconfig.toml` checks the whole project.

## What is modelled

**The guest-credit protocol** (`Approvals`, `KeyedLog`, `CreditProtocol`, `CreditSafety`,
`CreditTheorems`, `CreditHistories`, `CreditOperations`). Any number of approve, deny, request and
direct-credit calls run at once. Each is a program point with the record it last read;
one step touches the shared state at most once. The environment decides authorization,
provider behaviour, lifecycle completion, clocks and fresh ids at every step, and any
call may crash anywhere. `CreditSafety` holds the inductive invariant in rely-guarantee
form: what the store and the ledger always satisfy, what each program point may rely
on, and the one-way growth that keeps those facts true while other calls move.
`CreditTheorems` draws the conclusions for every run; `CreditHistories` those that look
back at which step did what. `CreditOperations` gives the
handlers, the executor and the direct path as objects that update store and ledger in
place, each proved equal to the step system when no other call moves.

**Policy and delegation** (`Policy`, `Delegation`): the ordered rule table, grants,
chains and issuers.

**Retry and keys** (`BoundedRetry`, `AmountText`, `IdempotencyKeys`, `DirectCredits`):
the bounded retry loop, its backoff, and the texts behind idempotency keys with readers
that decode them.

**The authorization-aware cache** (`CachedReads`, `CacheTheorems`, `ReservationCache`):
overlapping reads as a step system, and the cache, provider and tool as heap objects
whose dictionaries are copied at every boundary.

**Smaller cores**: the span bridge (`SpanBridge`) and the text order of stored
timestamps (`Timestamps`).

## Assumptions

- A store method is atomic up to its lock. The re-reads at
  `approvals/store.py:264` and `:291` lie outside it and are steps of their own.
- `ledger.issue` stands for an external idempotent provider: one atomic step whose
  effect survives a crash. The in-memory check-then-append takes no lock, so nothing is
  claimed at a finer grain.
- The authorizer is a parameter. All that is assumed of it is that whatever it allows
  is matched by some ALLOW rule of the table (`CreditProtocol.Sound`); it may say no at
  any time. What makes a chain valid (`Delegation.ValidChain`) is likewise its contract,
  not proved of it.
- SHA-256 is a function parameter, assumed injective where a lemma says so.
- Amounts and times are real numbers; `:.2f` rounds half to even.
- Cache `get` and `put` are atomic; the clock may read anything at each step.

## Where code and comment disagree

The comment at `tools/approved_credit.py:50-51` says the stored result carries the
first execution's `deduplicated: False`. It can carry `True`: after a crash between
provider write and write-back, and also without any crash or failure, when two approve
calls race and the one answered second by the provider is the first to write back
(`CreditHistories.RaceStoresDuplicate`). `CreditHistories.StoredFlagIsExact` gives the
exact condition for every run. The replay paths are right either way, because they set
the flag themselves.

The docstring at `reliability/credit.py:64-65` says a caller cannot choose a key that
aliases another task. That holds when task ids have no newline;
`IdempotencyKeys.TaskIdsCollide` gives the exact condition. The service itself never
meets it: `main.py:360`, `:456`, `:510` and `:608` make every task id with
`uuid4().hex`.

## Model

| member | source | states |
|---|---|---|
| `CreditTheorems.ExactlyOnceEffect` | src/asante_secure_multi_agent/tools/approved_credit.py:41-169 | In every run of interleaved approve, deny, request and direct calls, with provider failures and crashes anywhere, the ledger holds at most one credit per approval id, it is the credit the record asks for, an executed record has it, and a pending, denied or unknown one has none. |
| `CreditTheorems.ProvenanceOfMoney` | src/asante_secure_multi_agent/security/runtime.py:57-94 | Every credit in every reachable state has exactly one of two origins: automatic, in (0, 25] under a `credit:` key, or human-approved, in (25, 100] under an `approved-credit:` key of an approved or executed record that names who decided it. |
| `CreditTheorems.StaleSnapshotsAreSafe` | src/asante_secure_multi_agent/approvals/store.py:245-264 | Whatever happens after a call took its snapshot, the row is still there with the same request and the same decision; an approved snapshot means approved or executed forever after, an executed snapshot is the row itself. |
| `CreditTheorems.DecisionsAreFinal` | src/asante_secure_multi_agent/approvals/store.py:245-263 | Once a row is decided, `decided_at`, `decided_by` and `decision_note` never change in any continuation; a denied row stays as it is and never gets a credit, an executed row stays as it is and keeps exactly one. |
| `CreditTheorems.MarkNeverRaises` | src/asante_secure_multi_agent/approvals/store.py:273-280 | No reachable call is ever refused at `mark_executed` or loses its row: at the write-back the store either marks the row or reports it already executed. |
| `CreditTheorems.AnswersAgreeWithStoredResult` | src/asante_secure_multi_agent/tools/approved_credit.py:49-57 | Every answer about an executed approval agrees, then and later, with the one stored result: both replay paths return it with only the duplicate flag set, and a racing executor answers about the same credit. |
| `CreditTheorems.CrashRecovery` | src/asante_secure_multi_agent/main.py:587-623 | From every reachable state with the record approved or pending, one undisturbed, authorized and answered approve call ends in executed with exactly one credit and leaves every other row, credit and call alone; the stored duplicate flag is set exactly when an earlier call, interrupted or still in flight, had already put the credit on the books. |
| `CreditTheorems.ApprovedGetsPaid` | src/asante_secure_multi_agent/tools/approved_credit.py:70-169 | With the rule table itself as authorizer, from every reachable state one undisturbed approve call whose checks, provider and lifecycle all say yes executes the pending or approved row, on the operator's decision, and the provider then holds the credit the row asks for under its approval key. |
| `CreditTheorems.ExecutionAlone` | src/asante_secure_multi_agent/tools/approved_credit.py:58-169 | The executor on an approved row in every case: refused, provider failing before or after it acted, lifecycle not completing, and success, with the whole resulting state for each. |
| `CreditTheorems.IssueAlone` | src/asante_secure_multi_agent/tools/approved_credit.py:143-159 | From the provider call on: which provider behaviour leaves the credit on the books and which answer the caller gets. |
| `CreditTheorems.WriteBack` | src/asante_secure_multi_agent/tools/approved_credit.py:161-169 | An undisturbed write-back of any result turns the approved row into the executed one with that result and answers with it. |
| `CreditTheorems.AuthorizeAlone` | src/asante_secure_multi_agent/tools/approved_credit.py:76-141 | The executor goes on to the provider exactly when admission, permit and revalidation all say yes to one question, spelled out: the approved-credit action by the executor principal on the record's reservation, with its amount, its approval id and the verified flag; otherwise nothing changes. |
| `CreditTheorems.ExecutorOnOtherRecords` | src/asante_secure_multi_agent/tools/approved_credit.py:49-63 | The executor replays an executed record with the duplicate flag set, blocks any other that is not approved, and changes nothing. |
| `CreditTheorems.ApproveAlone` | src/asante_secure_multi_agent/main.py:588-623 | The whole approve call from a pending or approved row, under favourable choices: decision, credit, executed row and answer. |
| `CreditTheorems.ApproveWithoutExecution` | src/asante_secure_multi_agent/main.py:589-605 | An approve call on an unknown, denied or executed approval answers 404, 409 or the replay, and changes nothing. |
| `CreditTheorems.DenyAlone` | src/asante_secure_multi_agent/main.py:640-651 | A deny call decides a pending row, repeats a denial without changing it, and refuses an approved, executed or unknown one. |
| `CreditTheorems.DirectAttemptsAlone` | src/asante_secure_multi_agent/tools/guest_credit.py:204-236 | From any attempt on, a direct credit ends as the retry specification says: books, answer or failure are those of the one final provider outcome. |
| `CreditTheorems.DirectGateAlone` | src/asante_secure_multi_agent/tools/guest_credit.py:109-196 | A direct credit goes on to the provider exactly when admission, permit and revalidation all say yes to the credit action by the service-recovery principal on its reservation with its amount; otherwise nothing changes. |
| `CreditTheorems.SmallCreditGetsIssued` | src/asante_secure_multi_agent/tools/guest_credit.py:85-248 | With the rule table as authorizer, a direct credit in (0, 25] that nothing stands in the way of is issued as asked and unflagged, or answered flagged with the credit already under its key. |
| `CreditTheorems.FirstDecisionWins` | src/asante_secure_multi_agent/main.py:581-651 | After a completed denial an approve call conflicts and a second denial repeats the record; after an executed approval a denial conflicts and a second approval replays the stored result; none of the four changes anything. |
| `CreditHistories.OneActionPerCall` | src/asante_secure_multi_agent/reliability/credit.py:71-93 | In every interleaving one call, retries included, makes the provider act at most once; nothing in this rests on the provider recognizing a repeated key. |
| `CreditHistories.StoredFlagIsExact` | src/asante_secure_multi_agent/tools/approved_credit.py:143-167 | In every run, for the call whose write-back was taken, the stored duplicate flag is set if and only if the credit was already on the books when that call made its provider call, whatever other calls do before, between and after. |
| `CreditHistories.ExecutedWasMarked` | src/asante_secure_multi_agent/approvals/store.py:273-290 | Every executed approval of every run got its result from such a write-back. |
| `CreditHistories.EveryDecisionHasADecider` | src/asante_secure_multi_agent/approvals/store.py:245-263 | Every row of every run that is not pending was decided, while pending, by the decide step of an approve or deny call for it; decider, time and note are that call's operator, that step's clock and that call's note. |
| `CreditHistories.AnswerHasProviderStep` | src/asante_secure_multi_agent/tools/approved_credit.py:143-167 | A call that is about to complete or write back made its provider call earlier in the run. |
| `CreditHistories.RaceStoresDuplicate` | src/asante_secure_multi_agent/tools/approved_credit.py:143-167 | Without crash or failure, from every reachable state with the record approved and no credit yet, two racing approve calls can store the flag set: the run that shows it. |
| `CreditTheorems.OneRequestOneRecord` | src/asante_secure_multi_agent/approvals/store.py:124-158 | In every run there is at most one record per task, reservation and amount. |
| `CreditTheorems.DeduplicatedNamesOlderRecord` | src/asante_secure_multi_agent/tools/guest_operations.py:202-224 | A request that will answer `deduplicated` creates nothing and names a record that was there before. |
| `CreditTheorems.FlagIsExact` | src/asante_secure_multi_agent/tools/guest_operations.py:202-224 | Over runs, whatever happens between look-up and insert: the flag tells whether the named record was already stored if and only if nobody recorded this request in between. |
| `CreditTheorems.FlagIsExactAlone` | src/asante_secure_multi_agent/tools/guest_operations.py:202-224 | When no other call moves between look-up and insert the flag is exact: set if and only if the request was already recorded, if and only if the named record is an old one, if and only if nothing was inserted. |
| `CreditTheorems.RequestGateAlone` | src/asante_secure_multi_agent/tools/guest_operations.py:259-328 | A request reaches the store exactly when all three checks say yes to the request action by the service-recovery principal on its reservation with its amount. |
| `CreditTheorems.NewRequestAlone` | src/asante_secure_multi_agent/tools/guest_operations.py:201-224 | An authorized new request stores one undecided row under the fresh id with its own six fields and the step's clock, and answers with it, unflagged, if the lifecycle completes and with a failure if not; a taken id is refused. |
| `CreditTheorems.RepeatedRequestAlone` | src/asante_secure_multi_agent/tools/guest_operations.py:201-224 | An authorized request made before changes nothing and answers, flagged, with the stored row for its task, reservation and amount if the lifecycle completes. |
| `CreditTheorems.FlagMissesARace` | src/asante_secure_multi_agent/tools/guest_operations.py:202-224 | Two overlapping requests can both answer "not deduplicated" while naming one record: the interleaving that shows it, from any state without the request. |
| `CreditTheorems.CallAloneIsARun` | src/asante_secure_multi_agent/main.py:581-623 | Taking one call to its end undisturbed is a continuation of the run, so statements about a call alone are statements about runs. |
| `CreditTheorems.FinishKeepsInvariant` | src/asante_secure_multi_agent/tools/approved_credit.py:41-169 | From any program point a call run to its end keeps the invariant and only lets the shared state grow. |
| `CreditSafety.CallStepInv` | src/asante_secure_multi_agent/tools/approved_credit.py:49-169 | One step of any call, with any choice of the environment, keeps the shared invariant, establishes what the call relies on next, and only lets rows evolve and books grow. |
| `CreditSafety.ReachedInv` | src/asante_secure_multi_agent/approvals/store.py:245-291 | The invariant over store, ledger and all in-flight calls holds in every reachable state. |
| `CreditSafety.ApprovedIssueInv` | src/asante_secure_multi_agent/tools/approved_credit.py:143-149 | The provider call of an approved snapshot, first or repeated, is answered with the credit the record asks for and keeps every ledger key justified. |
| `CreditSafety.MarkedInv` | src/asante_secure_multi_agent/approvals/store.py:273-290 | Marking an approved snapshot whose credit is on the books always succeeds or finds the row executed, and keeps the invariant. |
| `CreditSafety.DirectIssueInv` | src/asante_secure_multi_agent/tools/guest_credit.py:198-218 | A direct provider call inside its band keeps the invariant and is answered with an amount in (0, 25]. |
| `CreditProtocol.KeyFamilies` | src/asante_secure_multi_agent/tools/approved_credit.py:148 | The two key families on the shared ledger never collide and each is injective. |
| `CreditProtocol.FinishIsARun` | src/asante_secure_multi_agent/tools/approved_credit.py:41-169 | The undisturbed completion of a call is reached by real events in any world, and every other call is left as it was. |
| `CreditOperations.CreditService.Execute` | src/asante_secure_multi_agent/tools/approved_credit.py:41-169 | The executor object does what the step system does alone, an executed record being replayed without any change; a settlement is recorded exactly when both checks passed: `complete` when the provider answered, `mark_unknown` otherwise. |
| `CreditOperations.CreditService.IssueApproved` | src/asante_secure_multi_agent/tools/approved_credit.py:143-169 | Provider write, settlement and write-back in place, equal to the step system; exactly one settlement, and the provider acts once exactly when its behaviour says so. |
| `CreditOperations.CreditService.WriteBack` | src/asante_secure_multi_agent/tools/approved_credit.py:161-169 | `mark_executed` and the re-read after it, equal to the step system. |
| `CreditOperations.CreditService.ApproveCreditRequest` | src/asante_secure_multi_agent/main.py:581-623 | The approve handler over the two stores, equal to the step system, with the settlement its answer implies in every case, at most one provider action, and one valid executor grant registered exactly when the approval was pending or approved. |
| `CreditOperations.CreditService.DenyCreditRequest` | src/asante_secure_multi_agent/main.py:633-651 | The deny handler over the store, equal to the step system; the ledger is not touched. |
| `CreditOperations.CreditService.RequestGuestCredit` | src/asante_secure_multi_agent/tools/guest_operations.py:191-234 | Request, authorize twice, look up, insert, report: equal to the step system, exactly one settlement per passed permit, and at most one new row, the undecided request itself. |
| `CreditOperations.CreditService.CreateRequest` | src/asante_secure_multi_agent/tools/guest_operations.py:202-224 | Look-up followed by create, equal to the step system; the only new row is the undecided request itself, and a refused insert is settled as unknown. |
| `CreditOperations.CreditService.IssueCredit` | src/asante_secure_multi_agent/tools/guest_credit.py:85-248 | The fenced direct path under the key derived from its content, equal to the step system: a passed permit makes the provider act at most once, repeats of a known key counted, and gets exactly one of `complete` and `mark_unknown`; retries are reported in order and the sleeps are the specified ones; without a permit nothing moves. On books kept by content an answer is within one cent of the arguments, and is the requested credit when not flagged. |
| `CreditOperations.CreditService.AttemptUntilSettled` | src/asante_secure_multi_agent/tools/guest_credit.py:204-236 | The one bounded retry loop around the provider write, then its single settlement and the lifecycle check, equal to the step system from the first attempt on. |
| `Approvals.CreateKeepsTable` | src/asante_secure_multi_agent/approvals/store.py:124-137 | Creating keeps one row per request and returns a stored row for that request; what it inserts is undecided and carries the request's fields, the given id and the given time, and it leaves the table alone when it finds one. |
| `Approvals.CreateDecidedByContent` | src/asante_secure_multi_agent/approvals/store.py:124-204 | Which of found, refused and inserted happens is decided by task, reservation and amount of the stored rows and by the id, with the whole new table for each. |
| `Approvals.DecideKeepsTable` | src/asante_secure_multi_agent/approvals/store.py:245-264 | Deciding is a guarded one-way transition of one row that records the given time, decider and note; all other rows stay. |
| `Approvals.MarkKeepsTable` | src/asante_secure_multi_agent/approvals/store.py:273-291 | Marking writes result and time once, never over an executed row; all other rows stay. |
| `Approvals.ListingIsNewestFirst` | src/asante_secure_multi_agent/approvals/store.py:222-234 | A listing in descending text order of `created_at` is newest first by the clock. |
| `Approvals.ApprovalStore.FindCreditRequest` | src/asante_secure_multi_agent/approvals/store.py:139-158 | Finds the row for this task, reservation and amount, or none exactly when there is none. |
| `Approvals.ApprovalStore.CreateCreditRequest` | src/asante_secure_multi_agent/approvals/store.py:124-137 | The store object performs the create transaction in place; what it inserts is the undecided request. |
| `Approvals.ApprovalStore.Decide` | src/asante_secure_multi_agent/approvals/store.py:236-264 | The store object performs the decide transaction in place. |
| `Approvals.ApprovalStore.MarkExecuted` | src/asante_secure_multi_agent/approvals/store.py:266-291 | The store object performs the mark transaction in place. |
| `Timestamps.TextOrderIsTimeOrder` | src/asante_secure_multi_agent/approvals/store.py:170 | Comparing two stored ISO texts character by character is comparing the instants, for all UTC moments, although a zero fraction is left out; this extends section 5.1 of RFC 3339, which assumes equal fraction lengths. |
| `Timestamps.ReadIsoBack` | src/asante_secure_multi_agent/approvals/store.py:170 | The stored text has the ISO layout, with a six-digit fraction exactly when it is not zero, and the moment is read back from it. |
| `Timestamps.KnownDays` | src/asante_secure_multi_agent/approvals/store.py:170 | Three known day numbers of the proleptic Gregorian calendar, which fix the count of days. |
| `KeyedLog.ListIsFirstPerKey` | src/asante_secure_multi_agent/tools/guest_credit.py:54-68 | After any sequence of calls the ledger list is exactly the first call per key in order, and list and index agree. |
| `KeyedLog.IndexHoldsUsedKeys` | src/asante_secure_multi_agent/tools/guest_credit.py:54-67 | The index holds exactly the keys used so far. |
| `KeyedLog.AnswersFirstItem` | src/asante_secure_multi_agent/tools/guest_operations.py:59-73 | Every later call under a key is answered, flagged as duplicate, with the item of the key's first call. |
| `KeyedLog.SubmitKeepsAgreement` | src/asante_secure_multi_agent/tools/guest_operations.py:90-102 | One call keeps list and index in agreement, loses nothing, and adds at most one item. |
| `KeyedLog.KeyedProvider.Issue` | src/asante_secure_multi_agent/tools/guest_credit.py:45-68 | The provider object, its list and its index updated in place, performs one abstract call. |
| `DirectCredits.RepeatWithinOneCent` | src/asante_secure_multi_agent/tools/guest_credit.py:198-202 | After any ledger calls a repeated direct credit is answered with a credit for the same reservation at most 0.01 away; an answer that is not a duplicate is the requested credit. |
| `DirectCredits.DirectCallSpelled` | src/asante_secure_multi_agent/tools/guest_credit.py:198-218 | The key and the credit of a direct call, spelled out from its arguments. |
| `DirectCredits.DirectCallsShareAKey` | src/asante_secure_multi_agent/tools/guest_credit.py:198-202 | Two direct calls share a key exactly when task, reservation and cents agree. |
| `DirectCredits.CallByContentAlone` | src/asante_secure_multi_agent/tools/guest_credit.py:198-248 | A whole direct call on books kept by content keeps them so, and its answer is within one cent of its arguments and is the requested credit when not flagged. |
| `DirectCredits.DirectCreditsMatchContent` | src/asante_secure_multi_agent/tools/guest_credit.py:198-218 | In every run whose direct calls use keys made from their content, every entry under a `credit:` key carries its own content, and every direct call with a provider answer was answered with the same reservation within 0.01. |
| `DirectCredits.AtMost2501InEveryRun` | src/asante_secure_multi_agent/tools/guest_credit.py:198-218 | In every such run one task gets at most 2501 direct credits for one reservation, counted by the keys the task derives. |
| `DirectCredits.AtMost2501DirectCredits` | src/asante_secure_multi_agent/tools/guest_credit.py:198-202 | The same for any ledger whose list and index agree, by pigeonhole on cents. |
| `Policy.AllowedBands` | src/asante_secure_multi_agent/security/runtime.py:57-94 | What the rule table allows per credit action: direct in (0, 25], request in (25, 100], approved execution in (0, 100] with a non-empty verified approval id; each an if-and-only-if. |
| `Policy.AllowedExactly` | src/asante_secure_multi_agent/security/runtime.py:142-208 | For every request whatever: it is allowed exactly if it is about a reservation, its principal is the specialist of its action and, for credits, its amount lies in the band and approved credits carry verified evidence. |
| `Policy.FirstMatchIsAllowRule` | src/asante_secure_multi_agent/security/runtime.py:142-208 | For this table, first-match order and "some ALLOW rule matches" give the same permissions for every request. |
| `Policy.FirstMatchWithoutShadowing` | src/asante_secure_multi_agent/security/runtime.py:142-208 | The general reason: in any rule table where no other rule overlaps an ALLOW rule behind it, the two readings agree. |
| `Policy.DirectCreditEffect` | src/asante_secure_multi_agent/security/runtime.py:179-197 | A direct credit is automatic up to 25, needs approval up to 100 and is denied outside (0, 100]. |
| `Delegation.Attenuation` | src/asante_secure_multi_agent/security/delegation.py:97-130 | Along a valid chain of any length every later scope lies within every earlier one, permissions only shrink, and no grant outlives the task. |
| `Delegation.AmountScopePermits` | src/asante_secure_multi_agent/security/delegation.py:46-94 | A bounded scope permits its one action on reservations up to its limit, and nothing else. |
| `Delegation.ActionScopePermits` | src/asante_secure_multi_agent/security/delegation.py:56-74 | A bare scope permits its one action on reservations, and nothing else. |
| `Delegation.GrantStore.IssueChain` | src/asante_secure_multi_agent/security/delegation.py:97-130 | Registers exactly two grants forming a valid task-bound chain from the human to the specialist, expiring with the task or after 30 minutes. |
| `Delegation.GrantStore.IssueSpecialist` | src/asante_secure_multi_agent/security/delegation.py:133-155 | The three single-action issuers: a valid chain whose two grants carry the same bare scope. |
| `Delegation.GrantStore.IssueServiceRecovery` | src/asante_secure_multi_agent/security/delegation.py:200-227 | A valid chain with both limits in their scopes; refused exactly when the specialist limit exceeds the supervisor limit or is not positive, and then nothing is registered. |
| `Delegation.GrantStore.IssueCreditRequest` | src/asante_secure_multi_agent/security/delegation.py:230-253 | A valid chain for requests; refused exactly when the limit is not positive. |
| `Delegation.GrantStore.IssueApprovalExecutor` | src/asante_secure_multi_agent/security/delegation.py:256-276 | One task-bound grant from the deciding human to the executor, expiring with the task or after 10 minutes. |
| `Delegation.DirectCreditBand` | src/asante_secure_multi_agent/security/delegation.py:46-53 | With any delegated limit, direct issue is possible exactly for amounts in (0, 25] within the limit; wider delegation only reaches the approval rule. |
| `Delegation.CreditRequestBand` | src/asante_secure_multi_agent/security/delegation.py:77-84 | A request is possible exactly for amounts in (25, 100] within the limit. |
| `Delegation.ApprovedCreditBand` | src/asante_secure_multi_agent/security/delegation.py:87-94 | The executor may issue exactly amounts in (0, 100] within its limit. |
| `Delegation.DefaultBands` | src/asante_secure_multi_agent/security/delegation.py:35-37 | With the default limits direct issue and request split (0, 100] at 25 between them, and the executor covers exactly their union. |
| `BoundedRetry.ExecuteWithBoundedRetry` | src/asante_secure_multi_agent/reliability/credit.py:71-93 | For every sequence of provider outcomes the loop returns and books what a recursive specification says, in at most `max_attempts` calls, retrying only transient failures, reporting 1, 2, ... in order, sleeping exactly the specified waits, and making the provider act at most once, known keys counted; the final assertion is unreachable. |
| `BoundedRetry.BackoffMonotone` | src/asante_secure_multi_agent/reliability/credit.py:86-89 | Waits never shrink, never exceed the maximum and never exceed the doubling value. |
| `BoundedRetry.BackoffDoubles` | src/asante_secure_multi_agent/reliability/credit.py:86-89 | The waits by recurrence: the first is the initial one, each next is the double of the one before, all capped at the maximum. |
| `BoundedRetry.SleepsGrow` | src/asante_secure_multi_agent/reliability/credit.py:86-91 | The sleeps of n retries are positive, sorted and capped, and at most n of them. |
| `BoundedRetry.SleepTotal` | src/asante_secure_multi_agent/reliability/credit.py:86-91 | n sleeps total at most n times the maximum and at most initial * (2^n - 1). |
| `BoundedRetry.ConfiguredPolicy` | src/asante_secure_multi_agent/reliability/config.py:19-56 | Each environment setting counts when given, is refused outside its range, and has its own default. |
| `BoundedRetry.ConfiguredSleepAtMostEleven` | src/asante_secure_multi_agent/reliability/config.py:35-56 | Every policy the environment can configure sleeps at most 11 seconds in total. |
| `BoundedRetry.ElevenIsReached` | src/asante_secure_multi_agent/reliability/config.py:35-56 | The bound of 11 seconds is attained. |
| `BoundedRetry.AcceptedExactlyWhenUsable` | src/asante_secure_multi_agent/reliability/credit.py:47-53 | The policy constructor refuses exactly the settings under which the loop would make no call or ask for a negative wait on some attempt. |
| `AmountText.ReadCentsBack` | src/asante_secure_multi_agent/reliability/credit.py:67 | A reader recovers the cents of every amount from its two-decimal text. |
| `AmountText.AmountLayout` | src/asante_secure_multi_agent/reliability/credit.py:67 | The text of an amount: a sign if negative, whole units without leading zeros, a point, two digits. |
| `AmountText.RoundHalfEven` | src/asante_secure_multi_agent/reliability/credit.py:67 | The rounded number is a nearest integer, and the even one when two are equally near. |
| `AmountText.SameTextSameCents` | src/asante_secure_multi_agent/reliability/credit.py:67 | Two amounts print alike exactly when they have the same cents and the same sign. |
| `IdempotencyKeys.DecodeCreditBack` | src/asante_secure_multi_agent/reliability/credit.py:67 | Task, reservation and cents are read back from the key text for every reservation string, newlines included, when the task id has no newline. |
| `IdempotencyKeys.SameCreditKey` | src/asante_secure_multi_agent/reliability/credit.py:56-68 | Two positive direct credits share a key exactly when task, reservation and cents are the same. |
| `IdempotencyKeys.TaskIdsCollide` | src/asante_secure_multi_agent/reliability/credit.py:67 | Two different task ids can share a key text if and only if one continues the other past a newline. |
| `IdempotencyKeys.OperationKeyDetermines` | src/asante_secure_multi_agent/tools/guest_operations.py:38-40 | With newline-free task and reservation ids an operation key determines action, task, reservation and payload. |
| `IdempotencyKeys.OperationTextSpelled` | src/asante_secure_multi_agent/tools/guest_operations.py:38-40 | The operation key text of each action, spelled out. |
| `IdempotencyKeys.StripIsExact` | src/asante_secure_multi_agent/tools/guest_operations.py:138 | Stripping removes exactly the surrounding space. |
| `IdempotencyKeys.MaintenanceDetermines` | src/asante_secure_multi_agent/tools/guest_operations.py:138 | With newline-free categories a maintenance payload determines its fields up to surrounding space, and only up to that. |
| `IdempotencyKeys.CategoryNewlineCollides` | src/asante_secure_multi_agent/tools/guest_operations.py:138 | A concrete pair of work orders with a newline in a category that share a payload. |
| `IdempotencyKeys.CategoriesCollideExactly` | src/asante_secure_multi_agent/tools/guest_operations.py:131-138 | Two different categories can share a payload if and only if one continues the other with an urgency line, followed by nothing or by an unindented line. |
| `IdempotencyKeys.MessageKeysCollideExactly` | src/asante_secure_multi_agent/tools/guest_operations.py:169-176 | Messages to two reservations of one task can share a key text if and only if one reservation id continues the other with an unindented line. |
| `IdempotencyKeys.MaintenanceKeysCollideExactly` | src/asante_secure_multi_agent/tools/guest_operations.py:131-139 | Accepted work orders for two reservations of one task can share a key text if and only if one reservation id continues the other with a line that is empty, or unindented, or blank before an urgency line. |
| `CachedReads.SameCacheKey` | src/asante_secure_multi_agent/cache/keys.py:10-21 | A cache key belongs to one schema version and one reservation id. |
| `CachedReads.CacheKeySpelled` | src/asante_secure_multi_agent/cache/keys.py:20-21 | The cache key spelled out. |
| `CacheTheorems.CachedReadsRefineDirectReads` | src/asante_secure_multi_agent/tools/reservation.py:206-262 | With an unchanging provider, over every history of overlapping reads, expiries, evictions, crashes and clock readings, an allowed read answers exactly what the provider would if its lifecycle completes, and fails if not. |
| `CacheTheorems.HitIsExplained` | src/asante_secure_multi_agent/cache/store.py:57-74 | At the lookup: a hit is explained by a fill made before it, whose value the provider held when it was read and whose time to live has not run out; with a clock that never runs backwards the fill is not later than the hit. |
| `CacheTheorems.HitsAreRecent` | src/asante_secure_multi_agent/cache/store.py:57-85 | With a changing provider, for every hit of every run there is its lookup step and a fill already made by then, put less than one time to live before that clock reading and, if the clock never ran backwards, not after it, of a value the provider held when it was read. |
| `CacheTheorems.LookupsAreAllowedReads` | src/asante_secure_multi_agent/tools/reservation.py:197-236 | Over whole runs, cache lookups are the reads allowed at both checks, and lookups are hits plus provider calls, up to reads still in flight or crashed between. |
| `CacheTheorems.BlockedReadTouchesNothing` | src/asante_secure_multi_agent/tools/reservation.py:155-204 | A read is blocked exactly when one of its checks says no, and then cache, provider and counters are untouched, whatever is cached; any other read makes exactly one lookup. |
| `CacheTheorems.RunOrigin` | src/asante_secure_multi_agent/tools/reservation.py:206-250 | In every run each cached line comes from a recorded fill, and each answer from a fill or a provider read. |
| `ReservationCache.SecuredReservationTool.GetReservation` | src/asante_secure_multi_agent/tools/reservation.py:96-262 | The tool on the heap does what the read steps do alone; its answer shares no object with cache or provider; a blocked read changes nothing. |
| `CachedReads.ServedOnlyWithPositiveTtl` | src/asante_secure_multi_agent/tools/reservation.py:88-94 | A stored entry is served exactly while its time to live runs, so it can be served at all if and only if that is positive, which is what tool and store insist on. |
| `CachedReads.LookupExact` | src/asante_secure_multi_agent/cache/store.py:57-74 | A lookup in every case: live lines are served and kept, expired ones dropped and reported, others untouched, ages never negative. |
| `CachedReads.ReadAlone` | src/asante_secure_multi_agent/tools/reservation.py:206-262 | A read that both checks allow, in every case: a live line first, else what the provider holds, disclosed only if the lifecycle completes; one lookup, one provider call exactly on a miss, and the cache afterwards. |
| `CachedReads.SecondReadHits` | src/asante_secure_multi_agent/tools/reservation.py:250-262 | A miss that found the reservation fills the cache: a second completed read within one time to live is a hit with the same fields and makes no provider call. |
| `ReservationCache.InMemoryCacheStore.Get` | src/asante_secure_multi_agent/cache/store.py:57-74 | A hit hands out a fresh copy, an expired entry is evicted, a miss changes only the counter. |
| `ReservationCache.InMemoryCacheStore.Put` | src/asante_secure_multi_agent/cache/store.py:76-85 | Stores a copy under the key with its expiry; refuses a time to live that is not positive. |
| `ReservationCache.InMemoryReservationProvider.GetReservation` | src/asante_secure_multi_agent/tools/reservation.py:71-75 | Counts the read and hands out a fresh copy of the stored reservation. |
| `ReservationCache.ReadThenScribble` | src/asante_secure_multi_agent/tools/reservation.py:229-262 | Writing into the dictionary a hit or a miss returned leaves cache, provider and counters exactly as the read left them. |
| `ReservationCache.PutThenScribble` | src/asante_secure_multi_agent/cache/store.py:76-85 | Writing into a dictionary after it was put does not change what was stored. |
| `SpanBridge.SpansAreConserved` | src/asante_secure_multi_agent/telemetry/bridge.py:30-117 | For every event sequence every started span is ended at most once and is exactly one of ended, tabled once, or displaced by a reused id. |
| `SpanBridge.AllEndedExactlyWithoutReuse` | src/asante_secure_multi_agent/telemetry/bridge.py:106-117 | After shutdown every started span has been ended exactly once if and only if no live id was ever reused. |
| `SpanBridge.LostExactlyByReuse` | src/asante_secure_multi_agent/telemetry/bridge.py:42-44 | Spans are displaced from the tables exactly when a live id is reused. |
| `SpanBridge.AncestorsReachOwnRoot` | src/asante_secure_multi_agent/telemetry/bridge.py:75-91 | For well-nested input the ancestor chain of every mirrored span stops at the root of the trace it was started for. |
| `SpanBridge.ParentIsInnermostOpen` | src/asante_secure_multi_agent/telemetry/bridge.py:75-91 | For every event sequence a mirrored span is the child of the span its named parent started if that is still open, otherwise of the open root of its trace, otherwise of none, and stays so. |
| `SpanBridge.TraceRootsHaveNoParent` | src/asante_secure_multi_agent/telemetry/bridge.py:30-44 | The mirrored span of a trace has no parent. |
| `SpanBridge.EndedExactlyByItsEvent` | src/asante_secure_multi_agent/telemetry/bridge.py:46-117 | A started span has been ended, and once, exactly if its own end event or a shutdown came while it was open. |
| `SpanBridge.SpanTableIsHistory` | src/asante_secure_multi_agent/telemetry/bridge.py:90-96 | The span table holds exactly the spans that the events leave open, each under the number its start got. |
| `SpanBridge.RootTableIsHistory` | src/asante_secure_multi_agent/telemetry/bridge.py:42-49 | The table of roots holds exactly the traces that the events leave open, each under the number its start got. |
| `SpanBridge.TabledIsOpen` | src/asante_secure_multi_agent/telemetry/bridge.py:42-117 | A span has a table entry exactly while it is open. |
| `SpanBridge.SpanProcessor.OnTraceStart` | src/asante_secure_multi_agent/telemetry/bridge.py:30-44 | The processor object performs the trace-start event on its tables and keeps every started span accounted for. |
| `SpanBridge.SpanProcessor.OnTraceEnd` | src/asante_secure_multi_agent/telemetry/bridge.py:46-52 | The processor object performs the trace-end event; an unknown trace is ignored; every started span stays accounted for. |
| `SpanBridge.SpanProcessor.OnSpanStart` | src/asante_secure_multi_agent/telemetry/bridge.py:54-91 | The processor object performs the span-start event: parent span, else trace root, else none; every started span stays accounted for. |
| `SpanBridge.SpanProcessor.OnSpanEnd` | src/asante_secure_multi_agent/telemetry/bridge.py:93-104 | The processor object performs the span-end event; an unknown span is ignored; every started span stays accounted for. |
| `SpanBridge.SpanProcessor.OnShutdown` | src/asante_secure_multi_agent/telemetry/bridge.py:106-117 | Shutdown ends every tabled span and root once and empties both tables; every started span stays accounted for. |

## Left out

- HTTP routing, request models, the approval scope check and trace ids of the handlers; JWT, MCP, agents, metrics and the eval runner: no state of their own in this core.
- Fencing, invocation records and provenance inside Ruhusa: not part of this model; only the contract under "Assumptions" is used.
- SQL, JSON encoding and file durability: the approval table is a map from id to record; the constant action column is dropped, and `ORDER BY created_at ASC LIMIT 1` in the look-up is any matching row, of which there is only one.
- The sorting done by SQLite in `list_requests`: a listing is specified, not computed.
- `ledger.issue` below one atomic step, and a crash between its append and its index write.
- The ledger's list and index sharing one dictionary per credit, and callers holding the live list: items are values.
- Binary floating point: rounding, NaN, infinities and negative zero.
- CreditProtocol.KeyFamilies: takes the digest of a direct credit as any string; runs whose digests come from task, reservation and cents are the subject of `DirectCredits`.
- Retry reports go to a metric; the loop returns the list of reported attempts and of sleeps instead.
- ReservationCache.SecuredReservationTool.GetReservation: a provider that raises is not modelled; the in-memory one never does.
- ReservationCache.InMemoryCacheStore.Get: dictionaries are flat; deep copies of nested values are not modelled.
- IdempotencyKeys.CategoriesCollideExactly: takes the urgency already trimmed and lower-cased; the check that refuses other urgencies appears as the condition that it is one of the four.
- The authorization steps of maintenance and message operations: they run the same `_execute` as credit requests, over a `KeyedLog` provider.
- `_trace_parent_contexts` of the span bridge, which is written and never read; span names, attributes and error status; the processor's lock (events are applied one at a time).
- `RequestBegin` to `RequestComplete` report the record and the flag; the other response fields of a request are copies of those.
