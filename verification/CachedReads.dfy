/**
 * Reads of the authorization-aware cache as a step system: any number of reads in
 * flight, a provider whose data may change under them, and an environment that decides
 * both authorization checks and every clock reading.
 */
module CachedReads {
  import opened Wrappers
  import opened IdempotencyKeys

  type Fields = map<string, string>

  datatype Line = Line(fields: Fields, createdAt: real, expiresAt: real)

  type View = map<string, Line>

  /** The hash of the cache key and the time to live of an entry. */
  datatype Settings = Settings(hash: string -> string, ttl: real)

  // ---------- Keys ----------

  const SCHEMA_VERSION := "reservation-read-v1"

  function CacheText(schema: string, id: string): string {
    Lines(schema, Lines("reservation.read", "reservation:" + id))
  }

  function VersionedCacheKey(hash: string -> string, schema: string, id: string): string {
    "reservation:" + hash(CacheText(schema, id))
  }

  function CacheKey(hash: string -> string, id: string): string {
    VersionedCacheKey(hash, SCHEMA_VERSION, id)
  }

  /** A cache key belongs to one schema version and one reservation. */
  lemma SameCacheKey(hash: string -> string, s1: string, a: string, s2: string, b: string)
    requires Injective(hash) && '\n' !in s1 && '\n' !in s2
    ensures VersionedCacheKey(hash, s1, a) == VersionedCacheKey(hash, s2, b) <==> s1 == s2 && a == b
  {
    if VersionedCacheKey(hash, s1, a) == VersionedCacheKey(hash, s2, b) {
      var d1, d2 := hash(CacheText(s1, a)), hash(CacheText(s2, b));
      assert ("reservation:" + d1)[12..] == d1 && ("reservation:" + d2)[12..] == d2;
      var ta, tb := "reservation:" + a, "reservation:" + b;
      SplitFirstBack(s1, Lines("reservation.read", ta));
      SplitFirstBack(s2, Lines("reservation.read", tb));
      SplitFirstBack("reservation.read", ta);
      SplitFirstBack("reservation.read", tb);
      assert ta[12..] == a && tb[12..] == b;
    }
  }

  /** The cache key spelled out. */
  lemma CacheKeySpelled(hash: string -> string, id: string)
    ensures CacheKey(hash, id) ==
            "reservation:" + hash("reservation-read-v1\nreservation.read\nreservation:" + id)
  {
    var head := SCHEMA_VERSION + "\n" + "reservation.read" + "\n";
    assert "reservation-read-v1\nreservation.read\nreservation:" == head + "reservation:";
    JoinThree(SCHEMA_VERSION, "reservation.read", "reservation:", id);
  }

  lemma JoinThree(a: string, b: string, c: string, d: string)
    ensures Lines(a, Lines(b, c + d)) == a + "\n" + b + "\n" + c + d
  {
  }

  // ---------- Cache transactions ----------

  /** A hit carries the value; otherwise the entry was absent or has just expired. */
  datatype Lookup = Lookup(fields: Option<Fields>, age: real, expired: bool)

  function GetTx(v: View, key: string, now: real): (View, Lookup) {
    if key !in v then (v, Lookup(None, 0.0, false))
    else
      var age := if now - v[key].createdAt > 0.0 then now - v[key].createdAt else 0.0;
      if now >= v[key].expiresAt then (v - {key}, Lookup(None, age, true))
      else (v, Lookup(Some(v[key].fields), age, false))
  }

  function PutTx(v: View, key: string, fields: Fields, ttl: real, now: real): View {
    v[key := Line(fields, now, now + ttl)]
  }

  /**
   * A lookup in every case: a live line is served and kept, an expired one is dropped and
   * reported, a missing one is neither, other lines stay, and the age is never negative.
   */
  lemma LookupExact(v: View, key: string, now: real)
    ensures var (v', found) := GetTx(v, key, now);
      && (key in v && now < v[key].expiresAt ==> v' == v && found.fields == Some(v[key].fields) && !found.expired)
      && (key in v && now >= v[key].expiresAt ==> key !in v' && found.fields.None? && found.expired)
      && (key !in v ==> v' == v && found.fields.None? && !found.expired && found.age == 0.0)
      && (forall k :: k != key ==> (k in v' <==> k in v) && (k in v ==> v'[k] == v[k]))
      && (key in v && now >= v[key].createdAt ==> found.age == now - v[key].createdAt)
      && found.age >= 0.0
  {
  }

  /**
   * A stored entry is served exactly while its time to live runs, so one that is not
   * positive would never be served: the tool and the store refuse exactly those.
   */
  lemma ServedOnlyWithPositiveTtl(v: View, key: string, fields: Fields, ttl: real, put: real)
    ensures forall now :: GetTx(PutTx(v, key, fields, ttl, put), key, now).1.fields ==
                          if now < put + ttl then Some(fields) else None
    ensures (exists now :: put <= now && GetTx(PutTx(v, key, fields, ttl, put), key, now).1.fields == Some(fields))
       <==> ttl > 0.0
  {
    assert GetTx(PutTx(v, key, fields, ttl, put), key, put).1.fields == if ttl > 0.0 then Some(fields) else None;
  }

  // ---------- One step of one read ----------

  /** Cache, provider data with a count of its changes, and the two public counters. */
  datatype Reads = Reads(cache: View, data: map<string, Fields>, version: nat, lookups: nat, providerCalls: nat)

  /** A hit carries the clock reading of its lookup. */
  datatype ReadOutcome =
    | OutBlocked
    | OutNotFound
    | OutFound(fields: Fields, hitAt: Option<real>)
    | OutFailed

  datatype ReadCall =
    | ReadBegin(id: string)
    | ReadRevalidate(id: string)
    | ReadLookup(id: string)
    | ReadProvider(id: string)
    | ReadPut(id: string, fields: Fields, version: nat)
    | ReadComplete(id: string, outcome: ReadOutcome)
    | ReadDone(id: string, outcome: ReadOutcome)

  datatype ReadEnv = ReadEnv(allowed: bool, completes: bool, now: real)

  datatype AfterRead = AfterRead(state: Reads, call: ReadCall)

  function ReadRank(call: ReadCall): nat {
    match call
    case ReadBegin(_) => 6
    case ReadRevalidate(_) => 5
    case ReadLookup(_) => 4
    case ReadProvider(_) => 3
    case ReadPut(_, _, _) => 2
    case ReadComplete(_, _) => 1
    case ReadDone(_, _) => 0
  }

  function ReadStep(cfg: Settings, r: Reads, call: ReadCall, env: ReadEnv): (after: AfterRead)
    ensures call.ReadDone? || ReadRank(after.call) < ReadRank(call)
    ensures after.call.id == call.id
  {
    match call
    case ReadBegin(id) => AfterRead(r, if env.allowed then ReadRevalidate(id) else ReadDone(id, OutBlocked))
    case ReadRevalidate(id) => AfterRead(r, if env.allowed then ReadLookup(id) else ReadDone(id, OutBlocked))
    case ReadLookup(id) =>
      var (cache, lookup) := GetTx(r.cache, CacheKey(cfg.hash, id), env.now);
      AfterRead(r.(cache := cache, lookups := r.lookups + 1),
        if lookup.fields.Some? then ReadComplete(id, OutFound(lookup.fields.value, Some(env.now)))
        else ReadProvider(id))
    case ReadProvider(id) =>
      AfterRead(r.(providerCalls := r.providerCalls + 1),
        if id in r.data then ReadPut(id, r.data[id], r.version) else ReadComplete(id, OutNotFound))
    case ReadPut(id, fields, _) =>
      AfterRead(r.(cache := PutTx(r.cache, CacheKey(cfg.hash, id), fields, cfg.ttl, env.now)),
        ReadComplete(id, OutFound(fields, None)))
    case ReadComplete(id, outcome) => AfterRead(r, ReadDone(id, if env.completes then outcome else OutFailed))
    case ReadDone(_, _) => AfterRead(r, call)
  }

  /** One read taken to its end with nothing else moving. */
  function FinishRead(cfg: Settings, r: Reads, call: ReadCall, env: nat -> ReadEnv): AfterRead
    decreases ReadRank(call)
  {
    if call.ReadDone? then AfterRead(r, call)
    else
      var after := ReadStep(cfg, r, call, env(ReadRank(call)));
      FinishRead(cfg, after.state, after.call, env)
  }

  lemma OneReadStep(cfg: Settings, r: Reads, call: ReadCall, env: nat -> ReadEnv)
    ensures var after := ReadStep(cfg, r, call, env(ReadRank(call)));
      FinishRead(cfg, r, call, env) ==
        if call.ReadDone? then AfterRead(r, call) else FinishRead(cfg, after.state, after.call, env)
  {
  }

  // ---------- A whole read ----------

  predicate Live(cache: View, key: string, now: real) {
    key in cache && now < cache[key].expiresAt
  }

  /** What a read that both checks allow finds: a live line first, else what the provider holds. */
  function Found(r: Reads, key: string, id: string, now: real): ReadOutcome {
    if Live(r.cache, key, now) then OutFound(r.cache[key].fields, Some(now))
    else if id in r.data then OutFound(r.data[id], None)
    else OutNotFound
  }

  /**
   * A read that both checks allow, in every case.  It answers what it found if its
   * lifecycle completes, and fails, disclosing nothing, if not.  It makes one lookup, and
   * one provider call exactly when no line was live; then it drops an expired line and
   * stores what the provider returned.
   */
  lemma ReadAlone(cfg: Settings, r: Reads, id: string, env: nat -> ReadEnv)
    requires env(6).allowed && env(5).allowed
    ensures var key := CacheKey(cfg.hash, id);
      var end := FinishRead(cfg, r, ReadBegin(id), env);
      var live := Live(r.cache, key, env(4).now);
      && end.call == ReadDone(id, if env(1).completes then Found(r, key, id, env(4).now) else OutFailed)
      && end.state.data == r.data && end.state.version == r.version
      && end.state.lookups == r.lookups + 1
      && end.state.providerCalls == r.providerCalls + (if live then 0 else 1)
      && end.state.cache ==
           (if live then r.cache
            else if id in r.data then r.cache[key := Line(r.data[id], env(2).now, env(2).now + cfg.ttl)]
            else r.cache - {key})
  {
    hide FinishRead, CacheKey;
    OneReadStep(cfg, r, ReadBegin(id), env);
    OneReadStep(cfg, r, ReadRevalidate(id), env);
    OneReadStep(cfg, r, ReadLookup(id), env);
    var key := CacheKey(cfg.hash, id);
    if Live(r.cache, key, env(4).now) {
      CompleteAlone(cfg, r.(lookups := r.lookups + 1), id, OutFound(r.cache[key].fields, Some(env(4).now)), env);
    } else {
      MissAlone(cfg, r.(cache := r.cache - {key}, lookups := r.lookups + 1), id, env);
      assert key !in r.cache ==> r.cache - {key} == r.cache;
      assert id in r.data ==> (r.cache - {key})[key := Line(r.data[id], env(2).now, env(2).now + cfg.ttl)] ==
                              r.cache[key := Line(r.data[id], env(2).now, env(2).now + cfg.ttl)];
    }
  }

  /** From the provider on. */
  lemma MissAlone(cfg: Settings, r: Reads, id: string, env: nat -> ReadEnv)
    ensures var key := CacheKey(cfg.hash, id);
      var outcome := if id in r.data then OutFound(r.data[id], None) else OutNotFound;
      FinishRead(cfg, r, ReadProvider(id), env) ==
        AfterRead(
          r.(providerCalls := r.providerCalls + 1,
             cache := if id in r.data then r.cache[key := Line(r.data[id], env(2).now, env(2).now + cfg.ttl)]
                      else r.cache),
          ReadDone(id, if env(1).completes then outcome else OutFailed))
  {
    hide FinishRead, CacheKey;
    OneReadStep(cfg, r, ReadProvider(id), env);
    var called := r.(providerCalls := r.providerCalls + 1);
    if id in r.data {
      OneReadStep(cfg, called, ReadPut(id, r.data[id], r.version), env);
      var filled := called.(cache := PutTx(r.cache, CacheKey(cfg.hash, id), r.data[id], cfg.ttl, env(2).now));
      CompleteAlone(cfg, filled, id, OutFound(r.data[id], None), env);
    } else {
      CompleteAlone(cfg, called, id, OutNotFound, env);
    }
  }

  lemma CompleteAlone(cfg: Settings, r: Reads, id: string, outcome: ReadOutcome, env: nat -> ReadEnv)
    ensures FinishRead(cfg, r, ReadComplete(id, outcome), env) ==
            AfterRead(r, ReadDone(id, if env(1).completes then outcome else OutFailed))
  {
    hide FinishRead;
    OneReadStep(cfg, r, ReadComplete(id, outcome), env);
    OneReadStep(cfg, r, ReadDone(id, if env(1).completes then outcome else OutFailed), env);
  }

  /**
   * A miss fills the cache: after a read that went to the provider and found the
   * reservation, a second completed read within one time to live is a hit with the same
   * fields and makes no provider call, whatever the provider's data is by then.
   */
  lemma SecondReadHits(cfg: Settings, r: Reads, id: string, env: nat -> ReadEnv, data: map<string, Fields>,
                       later: nat -> ReadEnv)
    requires env(6).allowed && env(5).allowed && later(6).allowed && later(5).allowed && later(1).completes
    requires !Live(r.cache, CacheKey(cfg.hash, id), env(4).now) && id in r.data
    requires later(4).now < env(2).now + cfg.ttl
    ensures var first := FinishRead(cfg, r, ReadBegin(id), env).state.(data := data);
      FinishRead(cfg, first, ReadBegin(id), later) ==
        AfterRead(first.(lookups := first.lookups + 1), ReadDone(id, OutFound(r.data[id], Some(later(4).now))))
  {
    hide FinishRead, CacheKey;
    ReadAlone(cfg, r, id, env);
    var first := FinishRead(cfg, r, ReadBegin(id), env).state.(data := data);
    ReadAlone(cfg, first, id, later);
  }
}
