/** What holds in every run of overlapping cached reads. */
module CacheTheorems {
  import opened Wrappers
  import opened IdempotencyKeys
  import opened CachedReads

  /** A read of the provider that was stored: what it returned, which data it saw, when it was put. */
  datatype Fill = Fill(id: string, fields: Fields, version: nat, putAt: real)

  /**
   * The reads in flight with, for the statements below, the provider's past data, the
   * fills of the cache, and counts of allowed reads, hits and reads that crashed.
   */
  datatype ReadWorld = ReadWorld(
    state: Reads, calls: map<nat, ReadCall>, past: seq<map<string, Fields>>, fills: seq<Fill>,
    allowed: nat, hits: nat, lostAtLookup: nat, lostAtProvider: nat)

  datatype ReadEvent =
    | StartRead(c: nat, id: string)
    | AdvanceRead(c: nat, env: ReadEnv)
    | CrashRead(c: nat)
    | ChangeData(data: map<string, Fields>)
    | Evict(keys: set<string>)

  function Advanced(cfg: Settings, w: ReadWorld, c: nat, env: ReadEnv): ReadWorld
    requires c in w.calls
  {
    var call := w.calls[c];
    var after := ReadStep(cfg, w.state, call, env);
    ReadWorld(after.state, w.calls[c := after.call], w.past,
      w.fills + (if call.ReadPut? then [Fill(call.id, call.fields, call.version, env.now)] else []),
      w.allowed + (if call.ReadRevalidate? && after.call.ReadLookup? then 1 else 0),
      w.hits + (if call.ReadLookup? && after.call.ReadComplete? then 1 else 0),
      w.lostAtLookup, w.lostAtProvider)
  }

  function Crashed(w: ReadWorld, c: nat): ReadWorld
    requires c in w.calls
  {
    w.(calls := w.calls - {c},
       lostAtLookup := w.lostAtLookup + (if w.calls[c].ReadLookup? then 1 else 0),
       lostAtProvider := w.lostAtProvider + (if w.calls[c].ReadProvider? then 1 else 0))
  }

  function Step(cfg: Settings, w: ReadWorld, e: ReadEvent): ReadWorld {
    match e
    case StartRead(c, id) => if c in w.calls then w else w.(calls := w.calls[c := ReadBegin(id)])
    case AdvanceRead(c, env) => if c in w.calls then Advanced(cfg, w, c, env) else w
    case CrashRead(c) => if c in w.calls then Crashed(w, c) else w
    case ChangeData(data) =>
      w.(state := w.state.(data := data, version := w.state.version + 1), past := w.past + [data])
    case Evict(keys) => w.(state := w.state.(cache := w.state.cache - keys))
  }

  function Run(cfg: Settings, w: ReadWorld, es: seq<ReadEvent>): ReadWorld {
    if es == [] then w else Step(cfg, Run(cfg, w, es[..|es| - 1]), es[|es| - 1])
  }

  function Fresh(data: map<string, Fields>): ReadWorld {
    ReadWorld(Reads(map[], data, 0, 0, 0), map[], [data], [], 0, 0, 0, 0)
  }

  // ---------- Where served values come from ----------

  predicate Held(past: seq<map<string, Fields>>, version: nat, id: string, fields: Fields) {
    version < |past| && id in past[version] && past[version][id] == fields
  }

  ghost predicate EverHeld(past: seq<map<string, Fields>>, id: string, fields: Fields) {
    exists version: nat :: Held(past, version, id, fields)
  }

  ghost predicate EverMissing(past: seq<map<string, Fields>>, id: string) {
    exists data :: data in past && id !in data
  }

  /**
   * A fill made so far explains a hit at the clock reading `now`: the provider held its
   * value at the read before the put, and its time to live has not run out.
   */
  predicate Serves(cfg: Settings, w: ReadWorld, f: Fill, id: string, fields: Fields, now: real) {
    f in w.fills && f.id == id && f.fields == fields && Held(w.past, f.version, id, fields) && now < f.putAt + cfg.ttl
  }

  ghost predicate RecentlyPut(cfg: Settings, w: ReadWorld, id: string, fields: Fields, now: real) {
    exists f :: Serves(cfg, w, f, id, fields, now)
  }

  ghost predicate LineOk(cfg: Settings, fills: seq<Fill>, key: string, line: Line) {
    exists f :: f in fills && key == CacheKey(cfg.hash, f.id) && line == Line(f.fields, f.putAt, f.putAt + cfg.ttl)
  }

  ghost predicate OutcomeOk(cfg: Settings, w: ReadWorld, id: string, outcome: ReadOutcome) {
    match outcome
    case OutBlocked => true
    case OutFailed => true
    case OutNotFound => EverMissing(w.past, id)
    case OutFound(fields, hitAt) =>
      if hitAt.Some? then RecentlyPut(cfg, w, id, fields, hitAt.value) else EverHeld(w.past, id, fields)
  }

  ghost predicate CallOk(cfg: Settings, w: ReadWorld, call: ReadCall) {
    match call
    case ReadPut(id, fields, version) => Held(w.past, version, id, fields)
    case ReadComplete(id, outcome) => OutcomeOk(cfg, w, id, outcome) && (outcome.OutFound? || outcome.OutNotFound?)
    case ReadDone(id, outcome) => OutcomeOk(cfg, w, id, outcome)
    case _ => true
  }

  ghost predicate OriginInv(cfg: Settings, w: ReadWorld) {
    && w.state.version + 1 == |w.past| && w.past[w.state.version] == w.state.data
    && (forall key :: key in w.state.cache ==> LineOk(cfg, w.fills, key, w.state.cache[key]))
    && (forall f :: f in w.fills ==> Held(w.past, f.version, f.id, f.fields))
    && (forall c :: c in w.calls ==> CallOk(cfg, w, w.calls[c]))
  }

  lemma SameKeySameId(cfg: Settings, a: string, b: string)
    requires Injective(cfg.hash) && CacheKey(cfg.hash, a) == CacheKey(cfg.hash, b)
    ensures a == b
  {
    NoNewlineInSchema();
    SameCacheKey(cfg.hash, SCHEMA_VERSION, a, SCHEMA_VERSION, b);
  }

  lemma NoNewlineInSchema()
    ensures '\n' !in SCHEMA_VERSION
  {
  }

  /** Longer histories keep every fact about an outcome. */
  lemma OutcomeStable(cfg: Settings, w: ReadWorld, later: ReadWorld, id: string, outcome: ReadOutcome)
    requires OutcomeOk(cfg, w, id, outcome) && w.past <= later.past && w.fills <= later.fills
    ensures OutcomeOk(cfg, later, id, outcome)
  {
    if outcome.OutFound? && outcome.hitAt.None? {
      var version: nat :| Held(w.past, version, id, outcome.fields);
      assert Held(later.past, version, id, outcome.fields);
    }
    if outcome.OutFound? && outcome.hitAt.Some? {
      var f :| Serves(cfg, w, f, id, outcome.fields, outcome.hitAt.value);
      assert Serves(cfg, later, f, id, outcome.fields, outcome.hitAt.value);
    }
  }

  lemma CallStable(cfg: Settings, w: ReadWorld, later: ReadWorld, call: ReadCall)
    requires CallOk(cfg, w, call) && w.past <= later.past && w.fills <= later.fills
    ensures CallOk(cfg, later, call)
  {
    if call.ReadComplete? || call.ReadDone? {
      OutcomeStable(cfg, w, later, call.id, call.outcome);
    }
  }

  lemma LookupOrigin(cfg: Settings, w: ReadWorld, id: string, now: real)
    requires Injective(cfg.hash) && OriginInv(cfg, w)
    ensures var (cache, lookup) := GetTx(w.state.cache, CacheKey(cfg.hash, id), now);
      lookup.fields.Some? ==> RecentlyPut(cfg, w, id, lookup.fields.value, now)
  {
    hide CacheKey;
    var key := CacheKey(cfg.hash, id);
    if key in w.state.cache {
      assert LineOk(cfg, w.fills, key, w.state.cache[key]);
      var f :| f in w.fills && key == CacheKey(cfg.hash, f.id)
               && w.state.cache[key] == Line(f.fields, f.putAt, f.putAt + cfg.ttl);
      SameKeySameId(cfg, id, f.id);
      assert w.state.cache[key].expiresAt > now ==> Serves(cfg, w, f, id, f.fields, now);
    }
  }

  lemma AdvancedCallOk(cfg: Settings, w: ReadWorld, c: nat, env: ReadEnv)
    requires Injective(cfg.hash) && OriginInv(cfg, w) && c in w.calls
    ensures CallOk(cfg, Advanced(cfg, w, c, env), ReadStep(cfg, w.state, w.calls[c], env).call)
  {
    hide CacheKey;
    var call := w.calls[c];
    var w' := Advanced(cfg, w, c, env);
    assert CallOk(cfg, w, call);
    CallStable(cfg, w, w', call);
    match call
    case ReadLookup(id) =>
      LookupOrigin(cfg, w, id, env.now);
      if w'.calls[c].ReadComplete? {
        OutcomeStable(cfg, w, w', id, w'.calls[c].outcome);
      }
    case ReadProvider(id) =>
      if id in w.state.data {
        assert Held(w'.past, w.state.version, id, w.state.data[id]);
      } else {
        assert w.state.data in w'.past;
      }
    case ReadPut(id, fields, version) =>
      assert Held(w'.past, version, id, fields);
    case _ =>
  }

  lemma AdvancedOrigin(cfg: Settings, w: ReadWorld, c: nat, env: ReadEnv)
    requires Injective(cfg.hash) && OriginInv(cfg, w) && c in w.calls
    ensures OriginInv(cfg, Advanced(cfg, w, c, env))
  {
    hide CacheKey;
    var call := w.calls[c];
    var w' := Advanced(cfg, w, c, env);
    assert CallOk(cfg, w, call);
    AdvancedCallOk(cfg, w, c, env);
    forall d | d in w'.calls ensures CallOk(cfg, w', w'.calls[d]) {
      if d != c {
        CallStable(cfg, w, w', w.calls[d]);
      }
    }
    forall key | key in w'.state.cache ensures LineOk(cfg, w'.fills, key, w'.state.cache[key]) {
      if call.ReadPut? && key == CacheKey(cfg.hash, call.id) {
        assert Fill(call.id, call.fields, call.version, env.now) in w'.fills;
      } else {
        assert LineOk(cfg, w.fills, key, w.state.cache[key]);
      }
    }
  }

  lemma StepOrigin(cfg: Settings, w: ReadWorld, e: ReadEvent)
    requires Injective(cfg.hash) && OriginInv(cfg, w)
    ensures OriginInv(cfg, Step(cfg, w, e))
  {
    var w' := Step(cfg, w, e);
    if e.AdvanceRead? && e.c in w.calls {
      AdvancedOrigin(cfg, w, e.c, e.env);
    } else {
      forall d | d in w'.calls ensures CallOk(cfg, w', w'.calls[d]) {
        if d in w.calls {
          CallStable(cfg, w, w', w.calls[d]);
        }
      }
    }
  }

  lemma {:induction false} RunOrigin(cfg: Settings, data: map<string, Fields>, es: seq<ReadEvent>)
    requires Injective(cfg.hash)
    ensures OriginInv(cfg, Run(cfg, Fresh(data), es))
  {
    if es != [] {
      RunOrigin(cfg, data, es[..|es| - 1]);
      StepOrigin(cfg, Run(cfg, Fresh(data), es[..|es| - 1]), es[|es| - 1]);
    }
  }

  // ---------- How old a served value can be ----------

  /** The clock never runs backwards from one step to a later one. */
  predicate ClockOrdered(es: seq<ReadEvent>) {
    forall i, j :: 0 <= i < j < |es| && es[i].AdvanceRead? && es[j].AdvanceRead? ==> es[i].env.now <= es[j].env.now
  }

  lemma {:induction false} PutAtIsAReading(cfg: Settings, data: map<string, Fields>, es: seq<ReadEvent>, f: Fill)
    requires f in Run(cfg, Fresh(data), es).fills
    ensures exists i :: 0 <= i < |es| && es[i].AdvanceRead? && es[i].env.now == f.putAt
  {
    var n := |es| - 1;
    if f in Run(cfg, Fresh(data), es[..n]).fills {
      PutAtIsAReading(cfg, data, es[..n], f);
      var i :| 0 <= i < n && es[..n][i].AdvanceRead? && es[..n][i].env.now == f.putAt;
      assert es[i] == es[..n][i];
    } else {
      assert es[n].AdvanceRead? && es[n].env.now == f.putAt;
    }
  }

  /** The age of the fill at the lookup: below one time to live, and with an ordered clock not negative. */
  ghost predicate HitExplained(cfg: Settings, w: ReadWorld, id: string, fields: Fields, now: real, ordered: bool) {
    exists f :: Serves(cfg, w, f, id, fields, now) && (ordered ==> f.putAt <= now)
  }

  /** At the lookup itself: a hit is explained by a fill made before it. */
  lemma HitIsExplained(cfg: Settings, data: map<string, Fields>, es: seq<ReadEvent>, c: nat, env: ReadEnv)
    requires Injective(cfg.hash)
    requires c in Run(cfg, Fresh(data), es).calls && Run(cfg, Fresh(data), es).calls[c].ReadLookup?
    ensures var w := Run(cfg, Fresh(data), es);
      var call := Step(cfg, w, AdvanceRead(c, env)).calls[c];
      call.ReadComplete? ==>
        call.outcome.OutFound? && call.outcome.hitAt == Some(env.now)
        && HitExplained(cfg, w, call.id, call.outcome.fields, env.now, ClockOrdered(es + [AdvanceRead(c, env)]))
  {
    hide CacheKey, Run;
    RunOrigin(cfg, data, es);
    var w := Run(cfg, Fresh(data), es);
    var call := Step(cfg, w, AdvanceRead(c, env)).calls[c];
    LookupOrigin(cfg, w, w.calls[c].id, env.now);
    if call.ReadComplete? {
      var f :| Serves(cfg, w, f, call.id, call.outcome.fields, env.now);
      var more := es + [AdvanceRead(c, env)];
      if ClockOrdered(more) {
        PutAtIsAReading(cfg, data, es, f);
        var i :| 0 <= i < |es| && es[i].AdvanceRead? && es[i].env.now == f.putAt;
        assert more[i] == es[i] && more[|es|] == AdvanceRead(c, env);
      }
    }
  }

  function HitOf(call: ReadCall): Option<(Fields, real)> {
    if (call.ReadComplete? || call.ReadDone?) && call.outcome.OutFound? && call.outcome.hitAt.Some?
    then Some((call.outcome.fields, call.outcome.hitAt.value))
    else None
  }

  /**
   * Bounded staleness, with a provider that changes and reads that overlap in any way:
   * for every hit there is the step that looked it up, and a fill already made by then
   * whose value the provider held when it was read, put less than one time to live
   * before that step's clock reading and, if the clock never ran backwards, not after it.
   */
  lemma {:induction false} HitsAreRecent(cfg: Settings, data: map<string, Fields>, es: seq<ReadEvent>, c: nat)
    requires Injective(cfg.hash)
    requires c in Run(cfg, Fresh(data), es).calls && HitOf(Run(cfg, Fresh(data), es).calls[c]).Some?
    ensures var call := Run(cfg, Fresh(data), es).calls[c];
      var (fields, now) := HitOf(call).value;
      exists n: nat :: n < |es| && es[n].AdvanceRead? && es[n].c == c && es[n].env.now == now
        && HitExplained(cfg, Run(cfg, Fresh(data), es[..n]), call.id, fields, now, ClockOrdered(es))
  {
    hide CacheKey, HitExplained;
    var last := |es| - 1;
    var before, e := es[..last], es[last];
    var w := Run(cfg, Fresh(data), before);
    var call := Run(cfg, Fresh(data), es).calls[c];
    var (fields, now) := HitOf(call).value;
    if e.AdvanceRead? && e.c == c && w.calls[c].ReadLookup? {
      HitIsExplained(cfg, data, before, c, e.env);
      assert es[..last] + [e] == es;
    } else {
      assert HitOf(w.calls[c]) == HitOf(call) && w.calls[c].id == call.id;
      HitsAreRecent(cfg, data, before, c);
      var n: nat :| n < |before| && before[n].AdvanceRead? && before[n].c == c && before[n].env.now == now
        && HitExplained(cfg, Run(cfg, Fresh(data), before[..n]), call.id, fields, now, ClockOrdered(before));
      assert before[..n] == es[..n] && before[n] == es[n];
      OrderedBefore(cfg, Run(cfg, Fresh(data), es[..n]), call.id, fields, now, before, es);
    }
  }

  lemma OrderedBefore(cfg: Settings, w: ReadWorld, id: string, fields: Fields, now: real,
                      before: seq<ReadEvent>, es: seq<ReadEvent>)
    requires before <= es && HitExplained(cfg, w, id, fields, now, ClockOrdered(before))
    ensures HitExplained(cfg, w, id, fields, now, ClockOrdered(es))
  {
    assert ClockOrdered(es) ==> ClockOrdered(before) by {
      assert forall i :: 0 <= i < |before| ==> before[i] == es[i];
    }
    var f :| Serves(cfg, w, f, id, fields, now) && (ClockOrdered(before) ==> f.putAt <= now);
    assert Serves(cfg, w, f, id, fields, now);
  }

  lemma {:induction false} UnchangedPast(cfg: Settings, data: map<string, Fields>, es: seq<ReadEvent>)
    requires forall i :: 0 <= i < |es| ==> !es[i].ChangeData?
    ensures Run(cfg, Fresh(data), es).past == [data]
  {
    if es != [] {
      UnchangedPast(cfg, data, es[..|es| - 1]);
    }
  }

  /**
   * With a provider that does not change, cached reads refine direct reads: over every
   * history of reads, expiries, evictions and clock readings, an allowed read answers
   * exactly what the provider would if its lifecycle completes, and fails if not.
   */
  lemma CachedReadsRefineDirectReads(cfg: Settings, data: map<string, Fields>, es: seq<ReadEvent>, c: nat)
    requires Injective(cfg.hash) && (forall i :: 0 <= i < |es| ==> !es[i].ChangeData?)
    requires c in Run(cfg, Fresh(data), es).calls
    ensures var call := Run(cfg, Fresh(data), es).calls[c];
      && (call.ReadDone? && call.outcome.OutFound? ==> call.id in data && call.outcome.fields == data[call.id])
      && (call.ReadDone? && call.outcome.OutNotFound? ==> call.id !in data)
    ensures var w := Run(cfg, Fresh(data), es);
      var id := w.calls[c].id;
      forall env :: w.calls[c].ReadComplete? ==>
        var done := Step(cfg, w, AdvanceRead(c, env)).calls[c];
        && done.ReadDone?
        && (!env.completes ==> done.outcome.OutFailed?)
        && (env.completes && id in data ==> done.outcome.OutFound? && done.outcome.fields == data[id])
        && (env.completes && id !in data ==> done.outcome.OutNotFound?)
  {
    RunOrigin(cfg, data, es);
    UnchangedPast(cfg, data, es);
    var w := Run(cfg, Fresh(data), es);
    assert CallOk(cfg, w, w.calls[c]);
  }

  // ---------- Counting ----------

  function AtLookup(calls: map<nat, ReadCall>): set<nat> {
    set c | c in calls && calls[c].ReadLookup?
  }

  function AtProvider(calls: map<nat, ReadCall>): set<nat> {
    set c | c in calls && calls[c].ReadProvider?
  }

  predicate Conserved(w: ReadWorld) {
    && w.allowed == w.state.lookups + |AtLookup(w.calls)| + w.lostAtLookup
    && w.state.lookups == w.hits + w.state.providerCalls + |AtProvider(w.calls)| + w.lostAtProvider
  }

  lemma CountAfterRemoval(calls: map<nat, ReadCall>, c: nat)
    ensures |AtLookup(calls - {c})| == |AtLookup(calls)| - (if c in AtLookup(calls) then 1 else 0)
    ensures |AtProvider(calls - {c})| == |AtProvider(calls)| - (if c in AtProvider(calls) then 1 else 0)
  {
    assert AtLookup(calls - {c}) == AtLookup(calls) - {c};
    assert AtProvider(calls - {c}) == AtProvider(calls) - {c};
  }

  lemma MembersAfterInsertion(calls: map<nat, ReadCall>, c: nat, call: ReadCall)
    requires c !in calls
    ensures AtLookup(calls[c := call]) == AtLookup(calls) + (if call.ReadLookup? then {c} else {})
    ensures AtProvider(calls[c := call]) == AtProvider(calls) + (if call.ReadProvider? then {c} else {})
  {
  }

  lemma CountAfterInsertion(calls: map<nat, ReadCall>, c: nat, call: ReadCall)
    requires c !in calls
    ensures |AtLookup(calls[c := call])| == |AtLookup(calls)| + (if call.ReadLookup? then 1 else 0)
    ensures |AtProvider(calls[c := call])| == |AtProvider(calls)| + (if call.ReadProvider? then 1 else 0)
  {
    hide AtLookup, AtProvider;
    MembersAfterInsertion(calls, c, call);
    NotCounted(calls, c);
  }

  lemma CountAfterUpdate(calls: map<nat, ReadCall>, c: nat, call: ReadCall)
    ensures |AtLookup(calls[c := call])| ==
            |AtLookup(calls)| - (if c in AtLookup(calls) then 1 else 0) + (if call.ReadLookup? then 1 else 0)
    ensures |AtProvider(calls[c := call])| ==
            |AtProvider(calls)| - (if c in AtProvider(calls) then 1 else 0) + (if call.ReadProvider? then 1 else 0)
  {
    hide AtLookup, AtProvider;
    CountAfterRemoval(calls, c);
    CountAfterInsertion(calls - {c}, c, call);
    assert (calls - {c})[c := call] == calls[c := call];
  }

  lemma StepConserves(cfg: Settings, w: ReadWorld, e: ReadEvent)
    requires Conserved(w)
    ensures Conserved(Step(cfg, w, e))
  {
    hide CacheKey, AtLookup, AtProvider;
    match e
    case StartRead(c, id) =>
      if c !in w.calls {
        NotCounted(w.calls, c);
        CountAfterUpdate(w.calls, c, ReadBegin(id));
      }
    case AdvanceRead(c, env) =>
      if c in w.calls {
        CountedAt(w.calls, c);
        CountAfterUpdate(w.calls, c, ReadStep(cfg, w.state, w.calls[c], env).call);
      }
    case CrashRead(c) =>
      if c in w.calls {
        CountedAt(w.calls, c);
        CountAfterRemoval(w.calls, c);
      }
    case _ =>
  }

  lemma NotCounted(calls: map<nat, ReadCall>, c: nat)
    requires c !in calls
    ensures c !in AtLookup(calls) && c !in AtProvider(calls)
  {
  }

  lemma CountedAt(calls: map<nat, ReadCall>, c: nat)
    requires c in calls
    ensures c in AtLookup(calls) <==> calls[c].ReadLookup?
    ensures c in AtProvider(calls) <==> calls[c].ReadProvider?
  {
  }

  /**
   * Authorization before lookup, counted over whole runs: every allowed read is one
   * cache lookup, unless it is still about to make it or crashed there; every lookup is
   * a hit or one provider call, with the same proviso.
   */
  lemma {:induction false} LookupsAreAllowedReads(cfg: Settings, data: map<string, Fields>, es: seq<ReadEvent>)
    ensures Conserved(Run(cfg, Fresh(data), es))
  {
    if es != [] {
      LookupsAreAllowedReads(cfg, data, es[..|es| - 1]);
      StepConserves(cfg, Run(cfg, Fresh(data), es[..|es| - 1]), es[|es| - 1]);
    }
  }

  /**
   * A read blocked at either check leaves cache, provider and counters as they were,
   * whatever is cached; a read is blocked exactly when one of its checks says no.
   */
  lemma BlockedReadTouchesNothing(cfg: Settings, r: Reads, id: string, env: nat -> ReadEnv)
    ensures var end := FinishRead(cfg, r, ReadBegin(id), env);
      && (end.call == ReadDone(id, OutBlocked) <==> !env(6).allowed || !env(5).allowed)
      && (end.call == ReadDone(id, OutBlocked) ==> end.state == r)
      && (end.call != ReadDone(id, OutBlocked) ==> end.state.lookups == r.lookups + 1)
  {
    hide FinishRead, CacheKey;
    OneReadStep(cfg, r, ReadBegin(id), env);
    OneReadStep(cfg, r, ReadRevalidate(id), env);
    OneReadStep(cfg, r, ReadDone(id, OutBlocked), env);
    LookupEnds(cfg, r, id, env);
  }

  lemma LookupEnds(cfg: Settings, r: Reads, id: string, env: nat -> ReadEnv)
    ensures var end := FinishRead(cfg, r, ReadLookup(id), env);
      end.call.ReadDone? && end.call.outcome != OutBlocked && end.state.lookups == r.lookups + 1
  {
    hide FinishRead, CacheKey;
    OneReadStep(cfg, r, ReadLookup(id), env);
    var a := ReadStep(cfg, r, ReadLookup(id), env(4));
    OneReadStep(cfg, a.state, a.call, env);
    var b := ReadStep(cfg, a.state, a.call, env(ReadRank(a.call)));
    OneReadStep(cfg, b.state, b.call, env);
    var d := ReadStep(cfg, b.state, b.call, env(ReadRank(b.call)));
    OneReadStep(cfg, d.state, d.call, env);
    var e := ReadStep(cfg, d.state, d.call, env(ReadRank(d.call)));
    OneReadStep(cfg, e.state, e.call, env);
  }
}
