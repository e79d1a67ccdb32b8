/**
 * The bounded retry loop over a credit provider, and the bounds on how often it calls,
 * how often the provider acts, and how long the loop sleeps.
 */
module BoundedRetry {
  import opened Wrappers
  import opened Approvals
  import opened KeyedLog
  import CreditProtocol

  datatype RetryPolicy = RetryPolicy(maxAttempts: int, initialBackoff: real, maxBackoff: real)

  datatype PolicyError = AttemptsOutOfRange | InitialBackoffOutOfRange | MaxBackoffOutOfRange

  type AcceptedPolicy = p: RetryPolicy | Accepted(p) witness RetryPolicy(2, 0.05, 0.2)

  predicate Accepted(p: RetryPolicy) {
    p.maxAttempts >= 1 && p.initialBackoff >= 0.0 && p.maxBackoff >= 0.0
  }

  /** The constructor's own checks, in order. */
  function MakePolicy(maxAttempts: int, initialBackoff: real, maxBackoff: real)
    : (r: Result<RetryPolicy, PolicyError>)
    ensures r.Success? <==> Accepted(RetryPolicy(maxAttempts, initialBackoff, maxBackoff))
    ensures r.Success? ==> r.value == RetryPolicy(maxAttempts, initialBackoff, maxBackoff)
  {
    if maxAttempts < 1 then Failure(AttemptsOutOfRange)
    else if initialBackoff < 0.0 then Failure(InitialBackoffOutOfRange)
    else if maxBackoff < 0.0 then Failure(MaxBackoffOutOfRange)
    else Success(RetryPolicy(maxAttempts, initialBackoff, maxBackoff))
  }

  /** Deployment settings; an absent one takes its default, one out of range is refused. */
  function PolicyFromEnv(attempts: Option<int>, initial: Option<real>, maximum: Option<real>)
    : (r: Result<RetryPolicy, PolicyError>)
    ensures r.Success? ==> Accepted(r.value) && r.value.maxAttempts <= 4
  {
    var n := if attempts.Some? then attempts.value else 2;
    var first := if initial.Some? then initial.value else 0.05;
    var most := if maximum.Some? then maximum.value else 0.2;
    if !(1 <= n <= 4) then Failure(AttemptsOutOfRange)
    else if !(0.0 <= first <= 2.0) then Failure(InitialBackoffOutOfRange)
    else if !(0.0 <= most <= 5.0) then Failure(MaxBackoffOutOfRange)
    else MakePolicy(n, first, most)
  }

  /** Each setting counts when given and is refused out of range; unset ones are 2, 0.05 and 0.2. */
  lemma ConfiguredPolicy(attempts: Option<int>, initial: Option<real>, maximum: Option<real>)
    ensures var r := PolicyFromEnv(attempts, initial, maximum);
      && (r.Success? <==>
            && (attempts.Some? ==> 1 <= attempts.value <= 4)
            && (initial.Some? ==> 0.0 <= initial.value <= 2.0)
            && (maximum.Some? ==> 0.0 <= maximum.value <= 5.0))
      && (r.Success? ==>
            && r.value.maxAttempts == (if attempts.Some? then attempts.value else 2)
            && r.value.initialBackoff == (if initial.Some? then initial.value else 0.05)
            && r.value.maxBackoff == (if maximum.Some? then maximum.value else 0.2))
  {
  }

  // ---------- Backoff ----------

  function Pow2(n: nat): nat {
    if n == 0 then 1 else 2 * Pow2(n - 1)
  }

  function Grown(p: RetryPolicy, attempt: nat): real
    requires attempt >= 1
  {
    p.initialBackoff * Pow2(attempt - 1) as real
  }

  /** The wait after the failed attempt number `attempt`, counted from 1. */
  function Backoff(p: RetryPolicy, attempt: nat): real
    requires attempt >= 1
  {
    if Grown(p, attempt) < p.maxBackoff then Grown(p, attempt) else p.maxBackoff
  }

  function Sum(xs: seq<real>): real {
    if xs == [] then 0.0 else Sum(xs[..|xs| - 1]) + xs[|xs| - 1]
  }

  /** The sleeps of `n` retries: a wait of zero does not sleep. */
  function Sleeps(p: RetryPolicy, n: nat): seq<real> {
    if n == 0 then []
    else Sleeps(p, n - 1) + (if Backoff(p, n) > 0.0 then [Backoff(p, n)] else [])
  }

  lemma GrownDoubles(p: RetryPolicy, attempt: nat)
    requires attempt >= 1
    ensures Grown(p, 1) == p.initialBackoff
    ensures Grown(p, attempt + 1) == 2.0 * Grown(p, attempt)
  {
  }

  /** The constructor refuses exactly the policies that make no call or ask for a negative wait. */
  lemma AcceptedExactlyWhenUsable(maxAttempts: int, initialBackoff: real, maxBackoff: real)
    ensures var p := RetryPolicy(maxAttempts, initialBackoff, maxBackoff);
      MakePolicy(maxAttempts, initialBackoff, maxBackoff) == Success(p) <==>
        maxAttempts >= 1 && forall attempt: nat :: attempt >= 1 ==> Backoff(p, attempt) >= 0.0
  {
    var p := RetryPolicy(maxAttempts, initialBackoff, maxBackoff);
    assert Backoff(p, 1) == if initialBackoff < maxBackoff then initialBackoff else maxBackoff by {
      GrownDoubles(p, 1);
    }
    if Accepted(p) {
      forall attempt: nat | attempt >= 1 ensures Backoff(p, attempt) >= 0.0 {
        BackoffMonotone(p, attempt, attempt);
      }
    }
  }

  lemma {:induction false} BackoffMonotone(p: RetryPolicy, a: nat, b: nat)
    requires Accepted(p) && 1 <= a <= b
    ensures 0.0 <= Grown(p, a) <= Grown(p, b)
    ensures 0.0 <= Backoff(p, a) <= Backoff(p, b) <= p.maxBackoff && Backoff(p, b) <= Grown(p, b)
    decreases b
  {
    hide Grown;
    GrownDoubles(p, 1);
    if a < b {
      BackoffMonotone(p, a, b - 1);
      GrownDoubles(p, b - 1);
    } else if a > 1 {
      BackoffMonotone(p, a - 1, b - 1);
      GrownDoubles(p, a - 1);
    }
  }

  /** The waits by recurrence: the first is the initial one, each next doubles, all capped. */
  lemma BackoffDoubles(p: RetryPolicy, attempt: nat)
    requires Accepted(p) && attempt >= 1
    ensures Backoff(p, 1) == if p.initialBackoff < p.maxBackoff then p.initialBackoff else p.maxBackoff
    ensures Backoff(p, attempt + 1) ==
            if 2.0 * Backoff(p, attempt) < p.maxBackoff then 2.0 * Backoff(p, attempt) else p.maxBackoff
  {
    hide Grown;
    GrownDoubles(p, attempt);
  }

  /** The sleeps are positive, never shrink and stay below the maximum. */
  lemma {:induction false} SleepsGrow(p: RetryPolicy, n: nat)
    requires Accepted(p) && n >= 1
    ensures |Sleeps(p, n)| <= n
    ensures forall i :: 0 <= i < |Sleeps(p, n)| ==> 0.0 < Sleeps(p, n)[i] <= Backoff(p, n) <= p.maxBackoff
    ensures forall i, j :: 0 <= i < j < |Sleeps(p, n)| ==> Sleeps(p, n)[i] <= Sleeps(p, n)[j]
  {
    BackoffMonotone(p, n, n);
    if n > 1 {
      SleepsGrow(p, n - 1);
      BackoffMonotone(p, n - 1, n);
    } else {
      assert Sleeps(p, 0) == [];
    }
  }

  lemma SumStep(p: RetryPolicy, n: nat)
    requires Accepted(p) && n >= 1
    ensures Sum(Sleeps(p, n)) == Sum(Sleeps(p, n - 1)) + Backoff(p, n)
  {
    hide Backoff;
    BackoffMonotone(p, n, n);
    var before, now := Sleeps(p, n - 1), Sleeps(p, n);
    if Backoff(p, n) > 0.0 {
      assert now == before + [Backoff(p, n)];
      assert now[..|now| - 1] == before;
    } else {
      assert now == before;
    }
  }

  /** The total of n sleeps is at most the doubling series. */
  lemma {:induction false} SleepSeries(p: RetryPolicy, n: nat)
    requires Accepted(p)
    ensures Sum(Sleeps(p, n)) <= Grown(p, n + 1) - p.initialBackoff
  {
    hide Grown, Backoff, Sleeps, Sum;
    GrownDoubles(p, 1);
    NothingSlept(p);
    if n > 0 {
      SleepSeries(p, n - 1);
      SumStep(p, n);
      BackoffMonotone(p, n, n);
      GrownDoubles(p, n);
    }
  }

  lemma {:induction false} SleepCapped(p: RetryPolicy, n: nat)
    requires Accepted(p)
    ensures Sum(Sleeps(p, n)) <= n as real * p.maxBackoff
  {
    hide Grown, Backoff, Sleeps, Sum;
    NothingSlept(p);
    if n > 0 {
      SleepCapped(p, n - 1);
      SumStep(p, n);
      BackoffMonotone(p, n, n);
      assert n as real * p.maxBackoff == (n - 1) as real * p.maxBackoff + p.maxBackoff;
    }
  }

  /** Two bounds on the total of n sleeps: n times the maximum, and initial * (2^n - 1). */
  lemma SleepTotal(p: RetryPolicy, n: nat)
    requires Accepted(p)
    ensures Sum(Sleeps(p, n)) <= n as real * p.maxBackoff
    ensures Sum(Sleeps(p, n)) <= p.initialBackoff * (Pow2(n) - 1) as real
  {
    hide Sleeps, Sum;
    SleepCapped(p, n);
    SleepSeries(p, n);
    var x, h := p.initialBackoff, Pow2(n) as real;
    assert (Pow2(n) - 1) as real == h - 1.0;
    assert x * (h - 1.0) == x * h - x;
  }

  lemma NothingSlept(p: RetryPolicy)
    ensures Sum(Sleeps(p, 0)) == 0.0 && Pow2(0) == 1
  {
  }

  /** No policy the environment can configure ever waits more than 11 seconds in total. */
  lemma ConfiguredSleepAtMostEleven(attempts: Option<int>, initial: Option<real>, maximum: Option<real>, retries: nat)
    requires PolicyFromEnv(attempts, initial, maximum).Success?
    requires retries < PolicyFromEnv(attempts, initial, maximum).value.maxAttempts
    ensures Sum(Sleeps(PolicyFromEnv(attempts, initial, maximum).value, retries)) <= 11.0
  {
    hide Sleeps, Sum;
    ShortSleep(PolicyFromEnv(attempts, initial, maximum).value, retries);
  }

  /** Two doublings from at most 2 seconds, then one wait of at most 5. */
  lemma ShortSleep(p: RetryPolicy, retries: nat)
    requires Accepted(p) && p.initialBackoff <= 2.0 && p.maxBackoff <= 5.0 && retries <= 3
    ensures Sum(Sleeps(p, retries)) <= 11.0
  {
    hide Grown, Backoff, Sleeps, Sum;
    GrownDoubles(p, 1);
    GrownDoubles(p, 2);
    if retries == 3 {
      SleepSeries(p, 2);
      SumStep(p, 3);
      BackoffMonotone(p, 3, 3);
    } else if retries > 0 {
      SleepSeries(p, retries);
    } else {
      NothingSlept(p);
    }
  }

  /** The bound is reached: four attempts, two seconds doubling, capped at five. */
  lemma ElevenIsReached()
    ensures PolicyFromEnv(Some(4), Some(2.0), Some(5.0)).Success?
    ensures Sum(Sleeps(PolicyFromEnv(Some(4), Some(2.0), Some(5.0)).value, 3)) == 11.0
  {
    var p := RetryPolicy(4, 2.0, 5.0);
    assert Pow2(1) == 2 && Pow2(2) == 4;
    assert Backoff(p, 1) == 2.0 && Backoff(p, 2) == 4.0 && Backoff(p, 3) == 5.0;
    assert Sleeps(p, 1) == [2.0];
    assert Sleeps(p, 2) == [2.0, 4.0];
    assert Sleeps(p, 3) == [2.0, 4.0, 5.0];
    assert [2.0, 4.0, 5.0][..2] == [2.0, 4.0] && [2.0, 4.0][..1] == [2.0] && [2.0][..0] == [];
    assert Sum([2.0]) == 2.0;
    assert Sum([2.0, 4.0]) == 6.0;
  }

  // ---------- The provider ----------

  /** How a provider call ends for its caller; only a transient error promises that nothing happened. */
  datatype Reply = Answered(result: ProviderResult) | Raises(transient: bool)

  /** The books after one call. */
  function Booked(log: Log<Credit>, key: string, credit: Credit, b: CreditProtocol.ProviderBehaviour): Log<Credit> {
    if CreditProtocol.Acts(b) then Submit(log, Some(key), credit).log else log
  }

  function ReplyTo(log: Log<Credit>, key: string, credit: Credit, b: CreditProtocol.ProviderBehaviour): Reply {
    match b
    case Answers =>
      var done := Submit(log, Some(key), credit);
      Answered(ProviderResult(done.item, done.deduplicated))
    case FailsBefore(transient) => Raises(transient)
    case FailsAfter => Raises(false)
  }

  /**
   * The external provider.  `effects` counts every call it acted on, whether or not its
   * books already held the key: it is what a provider without idempotency would have done.
   */
  class CreditProvider {
    const ledger: KeyedProvider<Credit>
    var calls: nat
    var effects: nat

    constructor (ledger: KeyedProvider<Credit>)
      ensures this.ledger == ledger && calls == 0 && effects == 0
    {
      this.ledger := ledger;
      calls, effects := 0, 0;
    }

    method Issue(credit: Credit, key: string, behaviour: CreditProtocol.ProviderBehaviour) returns (r: Reply)
      requires ledger.Valid()
      modifies this, ledger
      ensures ledger.Valid()
      ensures r == ReplyTo(old(ledger.AsLog()), key, credit, behaviour)
      ensures ledger.AsLog() == Booked(old(ledger.AsLog()), key, credit, behaviour)
      ensures calls == old(calls) + 1
      ensures effects == old(effects) + (if CreditProtocol.Acts(behaviour) then 1 else 0)
    {
      calls := calls + 1;
      if behaviour.FailsBefore? {
        return Raises(behaviour.transient);
      }
      effects := effects + 1;
      var result, deduplicated := ledger.Issue(credit, Some(key));
      r := if behaviour.FailsAfter? then Raises(false) else Answered(ProviderResult(result, deduplicated));
    }
  }

  // ---------- The loop ----------

  predicate IsTransient(b: CreditProtocol.ProviderBehaviour) {
    b.FailsBefore? && b.transient
  }

  /** The specification: the first outcome that is not transient, or where the last allowed one is. */
  function Retried(script: nat -> CreditProtocol.ProviderBehaviour, from: nat, attempts: nat)
    : CreditProtocol.ProviderBehaviour
    requires attempts >= 1
    decreases attempts
  {
    if IsTransient(script(from)) && attempts > 1 then Retried(script, from + 1, attempts - 1) else script(from)
  }

  predicate CountsUp(reported: seq<nat>) {
    forall i :: 0 <= i < |reported| ==> reported[i] == i + 1
  }

  /**
   * Retry only after transient failures and at most `maxAttempts` calls; report retries
   * 1, 2, ... in order; make the provider act at most once, and once exactly when the
   * final outcome acted.  `made` is the number of calls.
   */
  method ExecuteWithBoundedRetry(provider: CreditProvider, credit: Credit, key: string,
                                 script: nat -> CreditProtocol.ProviderBehaviour, policy: AcceptedPolicy)
    returns (r: Reply, reported: seq<nat>, slept: seq<real>, made: nat)
    requires provider.ledger.Valid()
    modifies provider, provider.ledger
    ensures provider.ledger.Valid()
    ensures var final := Retried(script, 0, policy.maxAttempts);
      && r == ReplyTo(old(provider.ledger.AsLog()), key, credit, final)
      && provider.ledger.AsLog() == Booked(old(provider.ledger.AsLog()), key, credit, final)
      && provider.effects == old(provider.effects) + (if CreditProtocol.Acts(final) then 1 else 0)
      && (IsTransient(final) ==> made == policy.maxAttempts)
    ensures 1 <= made <= policy.maxAttempts && provider.calls == old(provider.calls) + made
    ensures forall k :: 0 <= k < made - 1 ==> IsTransient(script(k))
    ensures |reported| == made - 1 && CountsUp(reported)
    ensures slept == Sleeps(policy, made - 1)
  {
    reported, slept, made := [], [], 0;
    ghost var books := provider.ledger.AsLog();
    for attempt := 1 to policy.maxAttempts + 1
      invariant made == attempt - 1 <= policy.maxAttempts - 1
      invariant provider.ledger.Valid() && provider.ledger.AsLog() == books
      invariant provider.calls == old(provider.calls) + made && provider.effects == old(provider.effects)
      invariant forall k :: 0 <= k < made ==> IsTransient(script(k))
      invariant |reported| == made && CountsUp(reported)
      invariant slept == Sleeps(policy, made)
      invariant Retried(script, 0, policy.maxAttempts) == Retried(script, made, policy.maxAttempts - made)
    {
      r := provider.Issue(credit, key, script(made));
      made := attempt;
      if r.Answered? || !r.transient || attempt >= policy.maxAttempts {
        return;
      }
      reported := reported + [attempt];
      if Backoff(policy, attempt) > 0.0 {
        slept := slept + [Backoff(policy, attempt)];
      }
    }
    assert false;
  }
}
