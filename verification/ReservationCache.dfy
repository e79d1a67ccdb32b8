/**
 * The authorization-aware reservation cache: the objects as they sit on the heap.  A
 * reservation is a mutable dictionary, so every value that crosses the cache or the
 * provider is copied; the methods are proved against the read steps of `CachedReads`.
 */
module ReservationCache {
  import opened Wrappers
  import opened CachedReads

  /** A Python dictionary of text fields. */
  class Document {
    var fields: Fields

    constructor (fields: Fields)
      ensures this.fields == fields
    {
      this.fields := fields;
    }
  }

  /** deepcopy of a flat dictionary. */
  method DeepCopy(d: Document) returns (copy: Document)
    ensures fresh(copy) && copy.fields == d.fields
  {
    copy := new Document(d.fields);
  }

  datatype CacheEntry = CacheEntry(value: Document, createdAt: real, expiresAt: real)

  class InMemoryCacheStore {
    var entries: map<string, CacheEntry>
    var getCalls: nat

    ghost function Documents(): set<Document>
      reads this
    {
      set k | k in entries :: entries[k].value
    }

    /** The stored contents by value. */
    ghost function View(): View
      reads this, Documents()
    {
      map k | k in entries :: Line(entries[k].value.fields, entries[k].createdAt, entries[k].expiresAt)
    }

    constructor ()
      ensures View() == map[] && getCalls == 0 && Documents() == {}
    {
      entries := map[];
      getCalls := 0;
    }

    /** A hit hands out a fresh copy; an expired entry is evicted. */
    method Get(key: string, now: real) returns (value: Document?, age: real, expired: bool)
      modifies this
      ensures (View(), Lookup(if value == null then None else Some(value.fields), age, expired)) ==
              GetTx(old(View()), key, now)
      ensures getCalls == old(getCalls) + 1
      ensures Documents() <= old(Documents())
      ensures value != null ==> fresh(value) && value !in Documents()
    {
      getCalls := getCalls + 1;
      assert View() == old(View());
      if key !in entries {
        return null, 0.0, false;
      }
      var entry := entries[key];
      age := if now - entry.createdAt > 0.0 then now - entry.createdAt else 0.0;
      if now >= entry.expiresAt {
        entries := entries - {key};
        assert View() == old(View()) - {key};
        return null, age, true;
      }
      value := DeepCopy(entry.value);
      assert View() == old(View());
      expired := false;
    }

    /** Stores a copy; a time to live that is not positive is refused. */
    method Put(key: string, value: Document, ttl: real, now: real) returns (stored: bool)
      modifies this
      ensures stored <==> ttl > 0.0
      ensures View() == if stored then PutTx(old(View()), key, old(value.fields), ttl, now) else old(View())
      ensures getCalls == old(getCalls)
      ensures fresh(Documents() - old(Documents()))
    {
      if ttl <= 0.0 {
        return false;
      }
      var copy := DeepCopy(value);
      entries := entries[key := CacheEntry(copy, now, now + ttl)];
      stored := true;
    }

    method Delete(key: string)
      modifies this
      ensures View() == old(View()) - {key} && Documents() <= old(Documents()) && getCalls == old(getCalls)
    {
      entries := entries - {key};
    }

    method Clear()
      modifies this
      ensures View() == map[] && Documents() == {} && getCalls == old(getCalls)
    {
      entries := map[];
    }
  }

  class InMemoryReservationProvider {
    var reservations: map<string, Document>
    var calls: nat
    ghost var version: nat  // how often the outside world has changed the data

    ghost function Documents(): set<Document>
      reads this
    {
      set k | k in reservations :: reservations[k]
    }

    ghost function Data(): map<string, Fields>
      reads this, Documents()
    {
      map k | k in reservations :: reservations[k].fields
    }

    method GetReservation(id: string) returns (value: Document?)
      modifies this`calls
      ensures calls == old(calls) + 1
      ensures value == null <==> id !in Data()
      ensures value != null ==> fresh(value) && value.fields == Data()[id] && value !in Documents()
    {
      calls := calls + 1;
      if id in reservations {
        value := DeepCopy(reservations[id]);
      } else {
        value := null;
      }
    }
  }

  /** The answer of a read; the reservation handed out is an object of the caller's own. */
  datatype ReadAnswer =
    | ReadBlocked
    | ReadNotFound
    | ReadFound(value: Document, hit: bool)
    | ReadFailed

  type PositiveReal = x: real | x > 0.0 witness 1.0

  class SecuredReservationTool {
    const cache: InMemoryCacheStore
    const provider: InMemoryReservationProvider
    const ttl: PositiveReal
    const hash: string -> string

    /** A time to live that is not positive makes no tool. */
    static method Make(cache: InMemoryCacheStore, provider: InMemoryReservationProvider, ttl: real,
                       hash: string -> string)
      returns (tool: SecuredReservationTool?)
      ensures tool == null <==> ttl <= 0.0
      ensures tool != null ==>
        tool.cache == cache && tool.provider == provider && tool.ttl == ttl && tool.hash == hash
    {
      if ttl <= 0.0 {
        return null;
      }
      tool := new SecuredReservationTool(cache, provider, ttl, hash);
    }

    constructor (cache: InMemoryCacheStore, provider: InMemoryReservationProvider, ttl: PositiveReal,
                 hash: string -> string)
      ensures this.cache == cache && this.provider == provider && this.ttl == ttl && this.hash == hash
    {
      this.cache := cache;
      this.provider := provider;
      this.ttl := ttl;
      this.hash := hash;
    }

    ghost function Settings(): Settings {
      CachedReads.Settings(hash, ttl)
    }

    ghost function State(): Reads
      reads this, cache, provider, cache.Documents(), provider.Documents()
    {
      Reads(cache.View(), provider.Data(), provider.version, cache.getCalls, provider.calls)
    }

    /** The answer by value, as the step system reports it. */
    ghost function Answered(a: ReadAnswer, env: nat -> ReadEnv): ReadOutcome
      reads if a.ReadFound? then {a.value} else {}
    {
      match a
      case ReadBlocked => OutBlocked
      case ReadNotFound => OutNotFound
      case ReadFound(value, hit) => OutFound(value.fields, if hit then Some(env(4).now) else None)
      case ReadFailed => OutFailed
    }

    /**
     * Authorize twice, then look in the cache, then ask the provider.  State and answer
     * are those of the step system, and the answer shares no object with cache or provider.
     */
    method GetReservation(id: string, env: nat -> ReadEnv) returns (answer: ReadAnswer)
      modifies cache, provider`calls
      ensures FinishRead(Settings(), old(State()), ReadBegin(id), env) ==
              AfterRead(State(), ReadDone(id, Answered(answer, env)))
      ensures answer.ReadFound? ==>
        fresh(answer.value) && answer.value !in cache.Documents() && answer.value !in provider.Documents()
      ensures fresh(cache.Documents() - old(cache.Documents())) && provider.Documents() == old(provider.Documents())
      ensures answer.ReadBlocked? ==> cache.entries == old(cache.entries) && State() == old(State())
    {
      hide FinishRead, CacheKey;
      OneReadStep(Settings(), State(), ReadBegin(id), env);
      OneReadStep(Settings(), State(), ReadRevalidate(id), env);
      if !env(6).allowed || !env(5).allowed {
        answer := ReadBlocked;
      } else {
        answer := LookUp(id, env);
      }
      OneReadStep(Settings(), State(), ReadDone(id, Answered(answer, env)), env);
    }

    /** An authorized read: the cache first, the provider on a miss. */
    method LookUp(id: string, env: nat -> ReadEnv) returns (answer: ReadAnswer)
      modifies cache, provider`calls
      ensures FinishRead(Settings(), old(State()), ReadLookup(id), env) ==
              FinishRead(Settings(), State(), ReadDone(id, Answered(answer, env)), env)
      ensures !answer.ReadBlocked?
      ensures answer.ReadFound? ==>
        fresh(answer.value) && answer.value !in cache.Documents() && answer.value !in provider.Documents()
      ensures fresh(cache.Documents() - old(cache.Documents())) && provider.Documents() == old(provider.Documents())
    {
      hide FinishRead, CacheKey;
      OneReadStep(Settings(), State(), ReadLookup(id), env);
      var value, _, _ := cache.Get(CacheKey(hash, id), env(4).now);
      assert provider.Data() == old(provider.Data());
      if value != null {
        OneReadStep(Settings(), State(), ReadComplete(id, OutFound(value.fields, Some(env(4).now))), env);
        return if env(1).completes then ReadFound(value, true) else ReadFailed;
      }
      answer := ReadThrough(id, env);
    }

    /** A miss: read the provider and fill the cache. */
    method ReadThrough(id: string, env: nat -> ReadEnv) returns (answer: ReadAnswer)
      modifies cache, provider`calls
      ensures FinishRead(Settings(), old(State()), ReadProvider(id), env) ==
              FinishRead(Settings(), State(), ReadDone(id, Answered(answer, env)), env)
      ensures !answer.ReadBlocked?
      ensures answer.ReadFound? ==>
        !answer.hit && fresh(answer.value)
        && answer.value !in cache.Documents() && answer.value !in provider.Documents()
      ensures fresh(cache.Documents() - old(cache.Documents())) && provider.Documents() == old(provider.Documents())
    {
      hide FinishRead, CacheKey, PutTx, GetTx;
      OneReadStep(Settings(), State(), ReadProvider(id), env);
      var value := provider.GetReservation(id);
      assert provider.Data() == old(provider.Data()) && cache.View() == old(cache.View());
      if value == null {
        OneReadStep(Settings(), State(), ReadComplete(id, OutNotFound), env);
        return if env(1).completes then ReadNotFound else ReadFailed;
      }
      OneReadStep(Settings(), State(), ReadPut(id, value.fields, provider.version), env);
      var _ := cache.Put(CacheKey(hash, id), value, ttl, env(2).now);
      assert provider.Data() == old(provider.Data());
      OneReadStep(Settings(), State(), ReadComplete(id, OutFound(value.fields, None)), env);
      answer := if env(1).completes then ReadFound(value, false) else ReadFailed;
    }
  }

  /**
   * Whatever a caller does to the dictionary it was given, by a hit or by a miss, the
   * tool is left exactly as the read left it.
   */
  method ReadThenScribble(tool: SecuredReservationTool, id: string, env: nat -> ReadEnv, scribble: Fields)
    modifies tool.cache, tool.provider`calls
    ensures tool.State() == FinishRead(tool.Settings(), old(tool.State()), ReadBegin(id), env).state
  {
    var answer := tool.GetReservation(id, env);
    if answer.ReadFound? {
      answer.value.fields := scribble;
    }
  }

  /** Changing a dictionary after it was put does not change what was stored. */
  method PutThenScribble(cache: InMemoryCacheStore, key: string, value: Document, ttl: real, now: real,
                         scribble: Fields)
    requires value !in cache.Documents()
    modifies cache, value
    ensures cache.View() ==
            if ttl > 0.0 then PutTx(old(cache.View()), key, old(value.fields), ttl, now) else old(cache.View())
  {
    var _ := cache.Put(key, value, ttl, now);
    value.fields := scribble;
  }
}
