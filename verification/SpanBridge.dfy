/**
 * The bridge that mirrors agent traces and spans into OpenTelemetry.  Started spans are
 * numbered in order; the tables hold the numbers of the spans still open.
 */
module SpanBridge {
  import opened Wrappers

  datatype Event =
    | TraceStart(traceId: string)
    | TraceEnd(traceId: string)
    | SpanStart(spanId: string, traceId: string, parentId: Option<string>)
    | SpanEnd(spanId: string)
    | Shutdown

  /**
   * The two tables; for every started span its parent and how often it was ended.  Kept
   * for the statements only: `home`, the root span of the trace each span was started
   * for, and `lost`, the open spans whose table entry was overwritten.
   */
  datatype Bridge = Bridge(
    spans: map<string, nat>, roots: map<string, nat>, parents: seq<Option<nat>>, ends: seq<nat>,
    home: seq<nat>, lost: set<nat>)

  const EMPTY := Bridge(map[], map[], [], [], [], {})

  /** The mirrored parent: the parent span's entry, else the trace's root, else none. */
  function ParentOf(b: Bridge, traceId: string, parentId: Option<string>): Option<nat> {
    if parentId.Some? && parentId.value in b.spans then Some(b.spans[parentId.value])
    else if traceId in b.roots then Some(b.roots[traceId])
    else None
  }

  function Ended(b: Bridge, h: nat): seq<nat> {
    if h < |b.ends| then b.ends[h := b.ends[h] + 1] else b.ends
  }

  function Apply(b: Bridge, e: Event): Bridge {
    var h := |b.parents|;
    match e
    case TraceStart(t) =>
      b.(roots := b.roots[t := h], parents := b.parents + [None], ends := b.ends + [0], home := b.home + [h],
         lost := b.lost + (if t in b.roots then {b.roots[t]} else {}))
    case TraceEnd(t) =>
      if t in b.roots then b.(roots := b.roots - {t}, ends := Ended(b, b.roots[t])) else b
    case SpanStart(s, t, p) =>
      b.(spans := b.spans[s := h], parents := b.parents + [ParentOf(b, t, p)], ends := b.ends + [0],
         home := b.home + [if t in b.roots then b.roots[t] else h],
         lost := b.lost + (if s in b.spans then {b.spans[s]} else {}))
    case SpanEnd(s) =>
      if s in b.spans then b.(spans := b.spans - {s}, ends := Ended(b, b.spans[s])) else b
    case Shutdown =>
      b.(spans := map[], roots := map[],
         ends := seq(|b.ends|, i requires 0 <= i < |b.ends| => b.ends[i] + (if Tabled(b, i) then 1 else 0)))
  }

  /** The span has an entry in one of the tables. */
  predicate Tabled(b: Bridge, h: nat) {
    h in b.spans.Values || h in b.roots.Values
  }

  function Run(es: seq<Event>, n: nat): Bridge
    requires n <= |es|
  {
    if n == 0 then EMPTY else Apply(Run(es, n - 1), es[n - 1])
  }

  // ---------- Every started span is accounted for ----------

  ghost predicate TableOk(table: map<string, nat>, started: nat) {
    && (forall k :: k in table ==> table[k] < started)
    && (forall a, b :: a in table && b in table && table[a] == table[b] ==> a == b)
  }

  /** Exactly one of three: ended once, in one table, or lost. */
  ghost predicate Accounted(b: Bridge, h: nat)
    requires h < |b.ends|
  {
    && b.ends[h] <= 1
    && (b.ends[h] == 1 <==> !Tabled(b, h) && h !in b.lost)
    && !(h in b.lost && Tabled(b, h))
    && !(h in b.spans.Values && h in b.roots.Values)
  }

  ghost predicate Conserved(b: Bridge) {
    && |b.parents| == |b.ends| == |b.home|
    && TableOk(b.spans, |b.ends|) && TableOk(b.roots, |b.ends|)
    && (forall h :: h in b.lost ==> h < |b.ends|)
    && (forall h :: 0 <= h < |b.ends| ==> Accounted(b, h))
  }

  lemma ValuesAfterRemoval(table: map<string, nat>, k: string, h: nat, started: nat)
    requires TableOk(table, started) && k in table
    ensures h in (table - {k}).Values <==> h in table.Values && h != table[k]
    ensures TableOk(table - {k}, started)
  {
    if h in table.Values && h != table[k] {
      var a :| a in table && table[a] == h;
      assert a in table - {k};
    }
  }

  lemma ValuesAfterStart(table: map<string, nat>, k: string, h: nat, started: nat)
    requires TableOk(table, started)
    ensures h in table[k := started].Values <==>
            h == started || (h in table.Values && !(k in table && h == table[k]))
    ensures TableOk(table[k := started], started + 1)
  {
    var more := table[k := started];
    assert more[k] == started;
    if h in table.Values && !(k in table && h == table[k]) {
      var a :| a in table && table[a] == h;
      assert more[a] == h;
    }
  }

  lemma StartConserves(b: Bridge, e: Event)
    requires Conserved(b) && (e.TraceStart? || e.SpanStart?)
    ensures Conserved(Apply(b, e))
  {
    var b' := Apply(b, e);
    var n := |b.ends|;
    var k := if e.TraceStart? then e.traceId else e.spanId;
    var table := if e.TraceStart? then b.roots else b.spans;
    forall h | 0 <= h < |b'.ends| ensures Accounted(b', h) {
      ValuesAfterStart(table, k, h, n);
      if h < n {
        assert Accounted(b, h);
      }
    }
    ValuesAfterStart(table, k, 0, n);
    forall h | h in b'.lost ensures h < |b'.ends| {
      if h !in b.lost {
        assert h == table[k];
      }
    }
  }

  lemma EndConserves(b: Bridge, e: Event)
    requires Conserved(b) && (e.TraceEnd? || e.SpanEnd?)
    ensures Conserved(Apply(b, e))
  {
    var b' := Apply(b, e);
    var k := if e.TraceEnd? then e.traceId else e.spanId;
    var table := if e.TraceEnd? then b.roots else b.spans;
    if k in table {
      assert table[k] in table.Values;
      assert Accounted(b, table[k]);
      ValuesAfterRemoval(table, k, 0, |b.ends|);
      forall h | 0 <= h < |b'.ends| ensures Accounted(b', h) {
        assert Accounted(b, h);
        ValuesAfterRemoval(table, k, h, |b.ends|);
      }
    }
  }

  lemma ShutdownConserves(b: Bridge)
    requires Conserved(b)
    ensures Conserved(Apply(b, Shutdown))
    ensures forall h :: 0 <= h < |b.ends| ==> (Apply(b, Shutdown).ends[h] == 1 <==> h !in b.lost)
  {
    var b' := Apply(b, Shutdown);
    forall h | 0 <= h < |b'.ends| ensures Accounted(b', h) && (b'.ends[h] == 1 <==> h !in b.lost) {
      assert Accounted(b, h);
    }
  }

  lemma StepConserves(b: Bridge, e: Event)
    requires Conserved(b)
    ensures Conserved(Apply(b, e))
  {
    match e
    case TraceStart(_) => StartConserves(b, e);
    case SpanStart(_, _, _) => StartConserves(b, e);
    case TraceEnd(_) => EndConserves(b, e);
    case SpanEnd(_) => EndConserves(b, e);
    case Shutdown => ShutdownConserves(b);
  }

  /** Whatever the events: no span is ended twice, and none is both open and ended. */
  lemma {:induction false} SpansAreConserved(es: seq<Event>, n: nat)
    requires n <= |es|
    ensures Conserved(Run(es, n))
  {
    if n > 0 {
      SpansAreConserved(es, n - 1);
      StepConserves(Run(es, n - 1), es[n - 1]);
    }
  }

  /** The event starts a trace or span under an id that is still open. */
  predicate Reuses(b: Bridge, e: Event) {
    (e.TraceStart? && e.traceId in b.roots) || (e.SpanStart? && e.spanId in b.spans)
  }

  predicate NoReuse(es: seq<Event>, n: nat)
    requires n <= |es|
  {
    forall i :: 0 <= i < n ==> !Reuses(Run(es, i), es[i])
  }

  lemma StepLoses(b: Bridge, e: Event)
    ensures Apply(b, e).lost == {} <==> b.lost == {} && !Reuses(b, e)
  {
  }

  lemma {:induction false} LostExactlyByReuse(es: seq<Event>, n: nat)
    requires n <= |es|
    ensures Run(es, n).lost == {} <==> NoReuse(es, n)
  {
    hide Apply, Reuses;
    if n > 0 {
      LostExactlyByReuse(es, n - 1);
      StepLoses(Run(es, n - 1), es[n - 1]);
    }
  }

  /**
   * After shutdown every started span has been ended exactly once if and only if no live
   * id was ever reused; a reused id leaves the span it displaced open for good.
   */
  lemma AllEndedExactlyWithoutReuse(es: seq<Event>, n: nat)
    requires n <= |es|
    ensures var b := Apply(Run(es, n), Shutdown);
      && |b.ends| == |Run(es, n).parents| && b.spans == map[] && b.roots == map[]
      && ((forall h :: 0 <= h < |b.ends| ==> b.ends[h] == 1) <==> NoReuse(es, n))
  {
    SpansAreConserved(es, n);
    LostExactlyByReuse(es, n);
    var before := Run(es, n);
    ShutdownConserves(before);
    if before.lost != {} {
      var h :| h in before.lost;
      assert Apply(before, Shutdown).ends[h] != 1;
    }
  }

  // ---------- The tree ----------

  ghost predicate ParentsEarlier(parents: seq<Option<nat>>) {
    forall h :: 0 <= h < |parents| && parents[h].Some? ==> parents[h].value < h
  }

  /** The end of a span's ancestor chain. */
  ghost function RootOf(parents: seq<Option<nat>>, h: nat): nat
    requires ParentsEarlier(parents) && h < |parents|
    decreases h
  {
    if parents[h].None? then h else RootOf(parents, parents[h].value)
  }

  lemma {:induction false} RootOfLonger(parents: seq<Option<nat>>, p: Option<nat>, h: nat)
    requires ParentsEarlier(parents) && h < |parents| && (p.Some? ==> p.value < |parents|)
    ensures ParentsEarlier(parents + [p]) && RootOf(parents + [p], h) == RootOf(parents, h)
    decreases h
  {
    if parents[h].Some? {
      RootOfLonger(parents, p, parents[h].value);
    }
  }

  /**
   * The event respects the nesting of traces: a span starts inside its own open trace,
   * and an open parent belongs to that trace too.
   */
  predicate Nested(b: Bridge, e: Event) {
    e.SpanStart? ==>
      && e.traceId in b.roots
      && (e.parentId.Some? && e.parentId.value in b.spans && b.spans[e.parentId.value] < |b.home| ==>
            b.home[b.spans[e.parentId.value]] == b.roots[e.traceId])
  }

  ghost predicate Rooted(b: Bridge) {
    && Conserved(b) && ParentsEarlier(b.parents)
    && (forall h :: 0 <= h < |b.parents| ==> RootOf(b.parents, h) == b.home[h])
    && (forall t :: t in b.roots ==> b.parents[b.roots[t]].None?)
  }

  lemma StartKeepsRooted(b: Bridge, e: Event)
    requires Rooted(b) && Nested(b, e) && (e.TraceStart? || e.SpanStart?)
    ensures Rooted(Apply(b, e))
  {
    StartConserves(b, e);
    var b' := Apply(b, e);
    var n := |b.parents|;
    var p := if e.TraceStart? then None else ParentOf(b, e.traceId, e.parentId);
    if p.Some? {
      assert RootOf(b.parents, p.value) == b.home[p.value];
      RootOfLonger(b.parents, p, p.value);
    }
    forall h | 0 <= h < |b'.parents| && b'.parents[h].Some? ensures b'.parents[h].value < h {
      if h < n {
        assert b'.parents[h] == b.parents[h];
      }
    }
    forall h | 0 <= h < |b'.parents| ensures RootOf(b'.parents, h) == b'.home[h] {
      if h < n {
        RootOfLonger(b.parents, p, h);
      }
    }
  }

  lemma EmptyRooted()
    ensures Rooted(EMPTY)
  {
  }

  lemma StepKeepsRooted(b: Bridge, e: Event)
    requires Rooted(b) && Nested(b, e)
    ensures Rooted(Apply(b, e))
  {
    if e.TraceStart? || e.SpanStart? {
      StartKeepsRooted(b, e);
    } else {
      StepConserves(b, e);
    }
  }

  /**
   * For well-nested input the ancestor chain of every mirrored span, ended or not, stops
   * at the root span of the trace it was started for.
   */
  lemma {:induction false} AncestorsReachOwnRoot(es: seq<Event>, n: nat)
    requires n <= |es|
    requires forall i :: 0 <= i < n ==> Nested(Run(es, i), es[i])
    ensures Rooted(Run(es, n))
  {
    hide Apply, Nested, Rooted;
    if n > 0 {
      AncestorsReachOwnRoot(es, n - 1);
      StepKeepsRooted(Run(es, n - 1), es[n - 1]);
    } else {
      EmptyRooted();
    }
  }

  // ---------- The tables in terms of the events alone ----------

  predicate Starts(e: Event) {
    e.TraceStart? || e.SpanStart?
  }

  /** How many spans the first n events start; event n, if it starts one, gets this number. */
  function Started(es: seq<Event>, n: nat): nat
    requires n <= |es|
  {
    if n == 0 then 0 else Started(es, n - 1) + (if Starts(es[n - 1]) then 1 else 0)
  }

  predicate SameKey(a: Event, b: Event) {
    (a.SpanStart? && b.SpanStart? && a.spanId == b.spanId) || (a.TraceStart? && b.TraceStart? && a.traceId == b.traceId)
  }

  /** The event ends what `start` started, if that is still open. */
  predicate Closes(start: Event, e: Event) {
    || e.Shutdown?
    || (start.SpanStart? && e.SpanEnd? && e.spanId == start.spanId)
    || (start.TraceStart? && e.TraceEnd? && e.traceId == start.traceId)
  }

  /** Event i started something that before event n was neither ended, nor started again, nor shut down. */
  predicate Open(es: seq<Event>, i: nat, n: nat) {
    i < n <= |es| && Starts(es[i]) && forall k :: i < k < n ==> !SameKey(es[i], es[k]) && !Closes(es[i], es[k])
  }

  predicate OpenSpan(es: seq<Event>, i: nat, n: nat, s: string) {
    Open(es, i, n) && es[i].SpanStart? && es[i].spanId == s
  }

  predicate OpenTrace(es: seq<Event>, i: nat, n: nat, t: string) {
    Open(es, i, n) && es[i].TraceStart? && es[i].traceId == t
  }

  lemma {:induction false} NumbersAreCounts(es: seq<Event>, n: nat)
    requires n <= |es|
    ensures |Run(es, n).parents| == |Run(es, n).ends| == Started(es, n)
  {
    if n > 0 {
      NumbersAreCounts(es, n - 1);
    }
  }

  lemma {:induction false} StartedGrows(es: seq<Event>, i: nat, n: nat)
    requires i < n <= |es|
    ensures Started(es, i) <= Started(es, n)
    ensures Starts(es[i]) ==> Started(es, i) < Started(es, n)
    decreases n
  {
    if i < n - 1 {
      StartedGrows(es, i, n - 1);
    }
  }

  lemma OpenOneMore(es: seq<Event>, i: nat, n: nat)
    requires 0 < n <= |es| && i < n
    ensures Open(es, i, n) <==>
            Starts(es[i]) && (i == n - 1 ||
              (Open(es, i, n - 1) && !SameKey(es[i], es[n - 1]) && !Closes(es[i], es[n - 1])))
  {
  }

  lemma EndsAfter(b: Bridge, e: Event, h: nat)
    requires h < |b.ends|
    ensures h < |Apply(b, e).ends|
    ensures Apply(b, e).ends[h] == b.ends[h] +
      (if (e.TraceEnd? && e.traceId in b.roots && b.roots[e.traceId] == h)
          || (e.SpanEnd? && e.spanId in b.spans && b.spans[e.spanId] == h) || (e.Shutdown? && Tabled(b, h))
       then 1 else 0)
  {
  }

  /** A table entry, or its absence, is what the first n events say of this id. */
  ghost predicate SpanHistory(es: seq<Event>, n: nat, s: string, entry: Option<nat>) {
    && (entry.Some? <==> exists i: nat :: OpenSpan(es, i, n, s))
    && (forall i: nat :: OpenSpan(es, i, n, s) ==> entry == Some(Started(es, i)))
  }

  lemma OpenSpanOneMore(es: seq<Event>, i: nat, n: nat, s: string)
    requires 0 < n <= |es|
    ensures OpenSpan(es, i, n, s) <==>
            (i == n - 1 && es[i].SpanStart? && es[i].spanId == s) ||
            (OpenSpan(es, i, n - 1, s) && !(es[n - 1].SpanStart? && es[n - 1].spanId == s)
             && es[n - 1] != SpanEnd(s) && es[n - 1] != Shutdown)
  {
    if i < n {
      OpenOneMore(es, i, n);
    }
  }

  lemma SpanHistoryStep(es: seq<Event>, n: nat, s: string, entry: Option<nat>)
    requires 0 < n <= |es| && SpanHistory(es, n - 1, s, entry)
    ensures SpanHistory(es, n, s,
      if es[n - 1].SpanStart? && es[n - 1].spanId == s then Some(Started(es, n - 1))
      else if es[n - 1] == SpanEnd(s) || es[n - 1] == Shutdown then None
      else entry)
  {
    hide OpenSpan, Started;
    forall i: nat
      ensures OpenSpan(es, i, n, s) <==>
              (i == n - 1 && es[i].SpanStart? && es[i].spanId == s) ||
              (OpenSpan(es, i, n - 1, s) && !(es[n - 1].SpanStart? && es[n - 1].spanId == s)
               && es[n - 1] != SpanEnd(s) && es[n - 1] != Shutdown)
    {
      OpenSpanOneMore(es, i, n, s);
    }
    if es[n - 1].SpanStart? && es[n - 1].spanId == s {
      assert OpenSpan(es, n - 1, n, s);
    } else if es[n - 1] != SpanEnd(s) && es[n - 1] != Shutdown && entry.Some? {
      var i: nat :| OpenSpan(es, i, n - 1, s);
      assert OpenSpan(es, i, n, s);
    }
  }

  function SpanEntry(b: Bridge, s: string): Option<nat> {
    if s in b.spans then Some(b.spans[s]) else None
  }

  lemma SpanEntryAfter(b: Bridge, e: Event, s: string)
    ensures SpanEntry(Apply(b, e), s) ==
            if e.SpanStart? && e.spanId == s then Some(|b.parents|)
            else if e == SpanEnd(s) || e == Shutdown then None
            else SpanEntry(b, s)
  {
  }

  /** The span table holds exactly the open spans, each under the number its start got. */
  lemma {:induction false} SpanTableIsHistory(es: seq<Event>, n: nat, s: string)
    requires n <= |es|
    ensures SpanHistory(es, n, s, SpanEntry(Run(es, n), s))
  {
    if n > 0 {
      hide Apply, SpanEntry, SpanHistory;
      SpanTableIsHistory(es, n - 1, s);
      NumbersAreCounts(es, n - 1);
      SpanEntryAfter(Run(es, n - 1), es[n - 1], s);
      SpanHistoryStep(es, n, s, SpanEntry(Run(es, n - 1), s));
    }
  }

  /** A table entry, or its absence, is what the first n events say of this id. */
  ghost predicate TraceHistory(es: seq<Event>, n: nat, t: string, entry: Option<nat>) {
    && (entry.Some? <==> exists i: nat :: OpenTrace(es, i, n, t))
    && (forall i: nat :: OpenTrace(es, i, n, t) ==> entry == Some(Started(es, i)))
  }

  lemma OpenTraceOneMore(es: seq<Event>, i: nat, n: nat, t: string)
    requires 0 < n <= |es|
    ensures OpenTrace(es, i, n, t) <==>
            (i == n - 1 && es[i].TraceStart? && es[i].traceId == t) ||
            (OpenTrace(es, i, n - 1, t) && !(es[n - 1].TraceStart? && es[n - 1].traceId == t)
             && es[n - 1] != TraceEnd(t) && es[n - 1] != Shutdown)
  {
    if i < n {
      OpenOneMore(es, i, n);
    }
  }

  lemma TraceHistoryStep(es: seq<Event>, n: nat, t: string, entry: Option<nat>)
    requires 0 < n <= |es| && TraceHistory(es, n - 1, t, entry)
    ensures TraceHistory(es, n, t,
      if es[n - 1].TraceStart? && es[n - 1].traceId == t then Some(Started(es, n - 1))
      else if es[n - 1] == TraceEnd(t) || es[n - 1] == Shutdown then None
      else entry)
  {
    hide OpenTrace, Started;
    forall i: nat
      ensures OpenTrace(es, i, n, t) <==>
              (i == n - 1 && es[i].TraceStart? && es[i].traceId == t) ||
              (OpenTrace(es, i, n - 1, t) && !(es[n - 1].TraceStart? && es[n - 1].traceId == t)
               && es[n - 1] != TraceEnd(t) && es[n - 1] != Shutdown)
    {
      OpenTraceOneMore(es, i, n, t);
    }
    if es[n - 1].TraceStart? && es[n - 1].traceId == t {
      assert OpenTrace(es, n - 1, n, t);
    } else if es[n - 1] != TraceEnd(t) && es[n - 1] != Shutdown && entry.Some? {
      var i: nat :| OpenTrace(es, i, n - 1, t);
      assert OpenTrace(es, i, n, t);
    }
  }

  function RootEntry(b: Bridge, t: string): Option<nat> {
    if t in b.roots then Some(b.roots[t]) else None
  }

  lemma RootEntryAfter(b: Bridge, e: Event, t: string)
    ensures RootEntry(Apply(b, e), t) ==
            if e.TraceStart? && e.traceId == t then Some(|b.parents|)
            else if e == TraceEnd(t) || e == Shutdown then None
            else RootEntry(b, t)
  {
  }

  /** The table of roots holds exactly the open traces, each under the number its start got. */
  lemma {:induction false} RootTableIsHistory(es: seq<Event>, n: nat, t: string)
    requires n <= |es|
    ensures TraceHistory(es, n, t, RootEntry(Run(es, n), t))
  {
    if n > 0 {
      hide Apply, RootEntry, TraceHistory;
      RootTableIsHistory(es, n - 1, t);
      NumbersAreCounts(es, n - 1);
      RootEntryAfter(Run(es, n - 1), es[n - 1], t);
      TraceHistoryStep(es, n, t, RootEntry(Run(es, n - 1), t));
    }
  }

  lemma {:induction false} ParentsStay(es: seq<Event>, m: nat, n: nat)
    requires m <= n <= |es|
    ensures Run(es, m).parents <= Run(es, n).parents
    decreases n
  {
    if m < n {
      ParentsStay(es, m, n - 1);
    }
  }

  /** What the parent of a span started by event m has to be. */
  ghost predicate ParentFromHistory(es: seq<Event>, m: nat, parent: Option<nat>)
    requires m < |es| && es[m].SpanStart?
  {
    var named := es[m].parentId.Some? && exists i: nat :: OpenSpan(es, i, m, es[m].parentId.value);
    && (forall i: nat :: es[m].parentId.Some? && OpenSpan(es, i, m, es[m].parentId.value) ==>
          parent == Some(Started(es, i)))
    && (!named ==> forall i: nat :: OpenTrace(es, i, m, es[m].traceId) ==> parent == Some(Started(es, i)))
    && (!named && (forall i: nat :: !OpenTrace(es, i, m, es[m].traceId)) ==> parent == None)
  }

  /**
   * Whose child a mirrored span is, for every event sequence: of the span its named parent
   * started, if that is still open; otherwise of the open root of its trace; otherwise of
   * none.  It stays so whatever follows.
   */
  lemma ParentIsInnermostOpen(es: seq<Event>, m: nat, n: nat)
    requires m < n <= |es| && es[m].SpanStart?
    ensures Started(es, m) < |Run(es, n).parents|
    ensures ParentFromHistory(es, m, Run(es, n).parents[Started(es, m)])
  {
    NumbersAreCounts(es, m);
    ParentsStay(es, m + 1, n);
    hide Open;
    var e := es[m];
    assert Run(es, n).parents[Started(es, m)] == ParentOf(Run(es, m), e.traceId, e.parentId);
    if e.parentId.Some? {
      SpanTableIsHistory(es, m, e.parentId.value);
    }
    RootTableIsHistory(es, m, e.traceId);
  }

  /** The mirrored span of a trace has no parent. */
  lemma TraceRootsHaveNoParent(es: seq<Event>, m: nat, n: nat)
    requires m < n <= |es| && es[m].TraceStart?
    ensures Started(es, m) < |Run(es, n).parents| && Run(es, n).parents[Started(es, m)] == None
  {
    NumbersAreCounts(es, m);
    ParentsStay(es, m + 1, n);
  }

  /** Event k is the one that ends what event i started. */
  predicate EndedBy(es: seq<Event>, i: nat, k: nat) {
    Open(es, i, k) && k < |es| && Closes(es[i], es[k])
  }

  /**
   * A started span has been ended, and then once, exactly if the event that closes it came
   * while it was open: its own end, or the shutdown.
   */
  lemma {:induction false} EndedExactlyByItsEvent(es: seq<Event>, i: nat, n: nat)
    requires i < n <= |es| && Starts(es[i])
    ensures Started(es, i) < |Run(es, n).ends|
    ensures Run(es, n).ends[Started(es, i)] == if exists k: nat :: k < n && EndedBy(es, i, k) then 1 else 0
    decreases n
  {
    hide Run, Open, Closes;
    if i == n - 1 {
      JustStarted(es, i);
    } else {
      StartedGrows(es, i, n - 1);
      EndedExactlyByItsEvent(es, i, n - 1);
      EndsNow(es, i, n);
      if EndedBy(es, i, n - 1) {
        OnlyOnce(es, i, n);
      }
    }
  }

  lemma JustStarted(es: seq<Event>, i: nat)
    requires i < |es| && Starts(es[i])
    ensures Started(es, i) < |Run(es, i + 1).ends| && Run(es, i + 1).ends[Started(es, i)] == 0
    ensures forall k: nat :: k < i + 1 ==> !EndedBy(es, i, k)
  {
    NumbersAreCounts(es, i);
  }

  /** At most one event ends it. */
  lemma OnlyOnce(es: seq<Event>, i: nat, n: nat)
    requires 0 < n <= |es| && EndedBy(es, i, n - 1)
    ensures forall k: nat :: k < n - 1 ==> !EndedBy(es, i, k)
  {
  }

  /** One event raises the count of exactly the span it ends. */
  lemma EndsNow(es: seq<Event>, i: nat, n: nat)
    requires i < n - 1 && n <= |es| && Starts(es[i])
    requires Started(es, i) < |Run(es, n - 1).ends|
    ensures Started(es, i) < |Run(es, n).ends|
    ensures Run(es, n).ends[Started(es, i)] ==
            Run(es, n - 1).ends[Started(es, i)] + (if EndedBy(es, i, n - 1) then 1 else 0)
  {
    hide Open, Apply, Tabled;
    var h, b, e := Started(es, i), Run(es, n - 1), es[n - 1];
    TabledIsOpen(es, i, n - 1);
    EndsAfter(b, e, h);
    if Open(es, i, n - 1) {
      OpenIsTabled(es, i, n - 1);
    }
    match e
    case TraceEnd(t) =>
      RootTableIsHistory(es, n - 1, t);
      if t in b.roots && b.roots[t] == h {
        var j: nat :| OpenTrace(es, j, n - 1, t);
        SameNumberSameEvent(es, i, j, n - 1);
      }
    case SpanEnd(s) =>
      SpanTableIsHistory(es, n - 1, s);
      if s in b.spans && b.spans[s] == h {
        var j: nat :| OpenSpan(es, j, n - 1, s);
        SameNumberSameEvent(es, i, j, n - 1);
      }
    case _ =>
  }

  lemma OpenIsTabled(es: seq<Event>, i: nat, n: nat)
    requires Open(es, i, n)
    ensures es[i].SpanStart? ==>
              es[i].spanId in Run(es, n).spans && Run(es, n).spans[es[i].spanId] == Started(es, i)
    ensures es[i].TraceStart? ==>
              es[i].traceId in Run(es, n).roots && Run(es, n).roots[es[i].traceId] == Started(es, i)
  {
    hide Run;
    if es[i].SpanStart? {
      SpanTableIsHistory(es, n, es[i].spanId);
      assert OpenSpan(es, i, n, es[i].spanId);
    } else {
      RootTableIsHistory(es, n, es[i].traceId);
      assert OpenTrace(es, i, n, es[i].traceId);
    }
  }

  lemma SameNumberSameEvent(es: seq<Event>, i: nat, j: nat, n: nat)
    requires i < n <= |es| && Open(es, j, n) && Starts(es[i]) && Started(es, i) == Started(es, j)
    ensures i == j
  {
    if i < j {
      StartedGrows(es, i, j);
    } else if j < i {
      StartedGrows(es, j, i);
    }
  }

  /** A span has a table entry exactly while it is open. */
  lemma TabledIsOpen(es: seq<Event>, i: nat, n: nat)
    requires i < n <= |es| && Starts(es[i])
    ensures Tabled(Run(es, n), Started(es, i)) <==> Open(es, i, n)
  {
    hide Open, Run;
    var h, b := Started(es, i), Run(es, n);
    if Open(es, i, n) {
      OpenIsTabled(es, i, n);
    }
    if h in b.spans.Values {
      var s :| s in b.spans && b.spans[s] == h;
      SpanTableIsHistory(es, n, s);
      var j: nat :| OpenSpan(es, j, n, s);
      SameNumberSameEvent(es, i, j, n);
    }
    if h in b.roots.Values {
      var t :| t in b.roots && b.roots[t] == h;
      RootTableIsHistory(es, n, t);
      var j: nat :| OpenTrace(es, j, n, t);
      SameNumberSameEvent(es, i, j, n);
    }
  }

  // ---------- The processor object ----------

  /** The OpenTelemetry tracer: numbered spans, their parents, how often each was ended. */
  class Tracer {
    var parents: seq<Option<nat>>
    var ends: seq<nat>

    constructor ()
      ensures parents == [] && ends == []
    {
      parents, ends := [], [];
    }

    method StartSpan(parent: Option<nat>) returns (h: nat)
      modifies this
      ensures h == |old(parents)| && parents == old(parents) + [parent] && ends == old(ends) + [0]
    {
      h := |parents|;
      parents := parents + [parent];
      ends := ends + [0];
    }

    method End(h: nat)
      requires h < |ends|
      modifies this`ends
      ensures ends == old(ends)[h := old(ends)[h] + 1]
    {
      ends := ends[h := ends[h] + 1];
    }
  }

  class SpanProcessor {
    const tracer: Tracer
    var spans: map<string, nat>
    var roots: map<string, nat>
    ghost var home: seq<nat>
    ghost var lost: set<nat>

    ghost function State(): Bridge
      reads this, tracer
    {
      Bridge(spans, roots, tracer.parents, tracer.ends, home, lost)
    }

    constructor (tracer: Tracer)
      requires tracer.parents == [] && tracer.ends == []
      ensures this.tracer == tracer && State() == EMPTY && Conserved(State())
    {
      this.tracer := tracer;
      spans, roots := map[], map[];
      home, lost := [], {};
    }

    method OnTraceStart(traceId: string)
      requires Conserved(State())
      modifies this, tracer
      ensures State() == Apply(old(State()), TraceStart(traceId)) && Conserved(State())
    {
      StepConserves(State(), TraceStart(traceId));
      var root := tracer.StartSpan(None);
      home := home + [root];
      lost := lost + (if traceId in roots then {roots[traceId]} else {});
      roots := roots[traceId := root];
    }

    method OnTraceEnd(traceId: string)
      requires Conserved(State())
      modifies this, tracer
      ensures State() == Apply(old(State()), TraceEnd(traceId)) && Conserved(State())
    {
      StepConserves(State(), TraceEnd(traceId));
      if traceId in roots {
        var root := roots[traceId];
        roots := roots - {traceId};
        tracer.End(root);
      }
    }

    method OnSpanStart(spanId: string, traceId: string, parentId: Option<string>)
      requires Conserved(State())
      modifies this, tracer
      ensures State() == Apply(old(State()), SpanStart(spanId, traceId, parentId)) && Conserved(State())
    {
      StepConserves(State(), SpanStart(spanId, traceId, parentId));
      var parent := None;
      if parentId.Some? && parentId.value in spans {
        parent := Some(spans[parentId.value]);
      }
      if parent.None? && traceId in roots {
        parent := Some(roots[traceId]);
      }
      var mirrored := tracer.StartSpan(parent);
      home := home + [if traceId in roots then roots[traceId] else mirrored];
      lost := lost + (if spanId in spans then {spans[spanId]} else {});
      spans := spans[spanId := mirrored];
    }

    method OnSpanEnd(spanId: string)
      requires Conserved(State())
      modifies this, tracer
      ensures State() == Apply(old(State()), SpanEnd(spanId)) && Conserved(State())
    {
      StepConserves(State(), SpanEnd(spanId));
      if spanId in spans {
        var mirrored := spans[spanId];
        spans := spans - {spanId};
        tracer.End(mirrored);
      }
    }

    /** End every open span, then every open root. */
    method OnShutdown()
      requires Conserved(State())
      modifies this, tracer
      ensures State() == Apply(old(State()), Shutdown) && Conserved(State())
    {
      StepConserves(State(), Shutdown);
      ghost var before := State();
      var openSpans, openRoots := spans, roots;
      spans, roots := map[], map[];
      EndAll(openSpans);
      EndAll(openRoots);
      forall h | 0 <= h < |before.ends|
        ensures tracer.ends[h] == before.ends[h] + (if Tabled(before, h) then 1 else 0)
      {
        assert Accounted(before, h);
      }
      assert tracer.ends == Apply(before, Shutdown).ends;
    }

    method EndAll(table: map<string, nat>)
      requires TableOk(table, |tracer.ends|)
      modifies tracer`ends
      ensures |tracer.ends| == |old(tracer.ends)|
      ensures forall h :: 0 <= h < |tracer.ends| ==>
                tracer.ends[h] == old(tracer.ends)[h] + (if h in table.Values then 1 else 0)
    {
      var left := table;
      while left != map[]
        invariant TableOk(left, |tracer.ends|) && |tracer.ends| == |old(tracer.ends)|
        invariant forall k :: k in left ==> k in table && left[k] == table[k]
        invariant forall h :: 0 <= h < |tracer.ends| ==>
                    tracer.ends[h] == old(tracer.ends)[h] +
                      (if h in table.Values && h !in left.Values then 1 else 0)
        decreases |left|
      {
        var k :| k in left;
        ghost var ends, rest := tracer.ends, left - {k};
        assert left[k] in left.Values && table[k] in table.Values;
        forall h | 0 <= h < |ends| ensures h in rest.Values <==> h in left.Values && h != left[k] {
          ValuesAfterRemoval(left, k, h, |ends|);
        }
        ValuesAfterRemoval(left, k, 0, |ends|);
        tracer.End(left[k]);
        left := left - {k};
      }
    }
  }
}
