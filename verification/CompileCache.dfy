/** The per-workspace cache of compiled context blocks under concurrent compilations: every hit
    repeats a response that the full pipeline produced for that workspace and query shortly
    before. */
module CompileCache {

  import opened Collections

  type Workspace = string
  type Query = string
  type Time = nat

  // time.Duration counts nanoseconds.
  const TTL: nat := 30 * 1_000_000_000

  /** A compiled block with its token count. */
  datatype Block = Block(text: string, tokens: nat, enriched: bool)

  datatype Entry = Entry(query: Query, block: Block, expiresAt: Time)

  type Cache = map<Workspace, Entry>

  /** The read of the map in lookup. */
  function Load(cache: Cache, ws: Workspace): Option<Entry> { if ws in cache then Some(cache[ws]) else None }

  /** The test in lookup of what was read. */
  function Served(e: Option<Entry>, query: Query, now: Time): Option<Block>
  {
    if e.Some? && e.value.query == query && now <= e.value.expiresAt then Some(e.value.block) else None
  }

  function Lookup(cache: Cache, ws: Workspace, query: Query, now: Time): Option<Block>
  {
    Served(Load(cache, ws), query, now)
  }

  function Store(cache: Cache, ws: Workspace, query: Query, block: Block, now: Time): Cache
  {
    cache[ws := Entry(query, block, now + TTL)]
  }

  datatype Response = Response(block: Option<Block>, cacheHit: bool, failed: bool)

  /** The compiler object; a compilation's steps outside the cache are its parameters. */
  class Compiler {
    var cache: Cache

    constructor ()
      ensures cache == map[]
    {
      cache := map[];
    }

    /** CompileContext run without interruption: whether enrichment is on, whether the policy
        allows it, what the pipeline produces (None: no retriever, or it failed), and the times
        at which the cache is read and written. */
    method CompileContext(enabled: bool, allowed: bool, ws: Workspace, query: Query,
                          pipeline: Option<Block>, now: Time, later: Time) returns (r: Response)
      modifies this
      ensures !enabled ==> r == Response(None, false, false) && cache == old(cache)
      ensures enabled && !allowed ==> r == Response(None, false, true) && cache == old(cache)
      ensures enabled && allowed ==>
        var hit := Lookup(old(cache), ws, query, now);
        if hit.Some? then r == Response(hit, true, false) && cache == old(cache)
        else if pipeline.None? then r == Response(None, false, true) && cache == old(cache)
        else r == Response(pipeline, false, false) && cache == Store(old(cache), ws, query, pipeline.value, later)
    {
      if !enabled { return Response(None, false, false); }
      if !allowed { return Response(None, false, true); }
      if ws in cache {
        var e := cache[ws];
        if !(e.query != query || now > e.expiresAt) { return Response(Some(e.block), true, false); }
      }
      if pipeline.None? { return Response(None, false, true); }
      cache := cache[ws := Entry(query, pipeline.value, later + TTL)];
      return Response(pipeline, false, false);
    }
  }

  // ---------------------------------------------------------------- concurrent compilations

  type Call = nat

  /** A compilation reads the cache, then reads the clock and tests what it read. On a miss it fails,
      or its pipeline produces a block; it then reads the clock again and at last writes the cache.
      Other compilations run between any two of these. */
  datatype Step =
    | Begin(c: Call, ws: Workspace, query: Query)
    | Check(c: Call, now: Time)
    | Fail(c: Call)
    | Produce(c: Call, block: Block, now: Time)
    | Write(c: Call)

  /** What happened. Stored names the position of the production it stores. */
  datatype Event =
    | Read(c: Call, ws: Workspace)
    | Hit(c: Call, ws: Workspace, query: Query, block: Block, at: Time)
    | Produced(c: Call, ws: Workspace, query: Query, block: Block, at: Time)
    | Stored(ws: Workspace, from: nat)

  /** Where a compilation stands; Checking and Storing remember the position of their last event. */
  datatype Phase =
    | Checking(ws: Workspace, query: Query, found: Option<Entry>, read: nat)
    | Missed(ws: Workspace, query: Query)
    | Storing(ws: Workspace, made: Entry, from: nat)
    | Failed
    | Finished

  datatype State = State(cache: Cache, calls: map<Call, Phase>, clock: Time, log: seq<Event>)

  const INIT: State := State(map[], map[], 0, [])

  predicate Enabled(s: State, st: Step)
  {
    match st
    case Begin(c, _, _) => c !in s.calls
    case Check(c, now) => c in s.calls && s.calls[c].Checking? && now >= s.clock
    case Fail(c) => c in s.calls && s.calls[c].Missed?
    case Produce(c, _, now) => c in s.calls && s.calls[c].Missed? && now >= s.clock
    case Write(c) => c in s.calls && s.calls[c].Storing?
  }

  function Next(s: State, st: Step): State
    requires Enabled(s, st)
  {
    match st
    case Begin(c, ws, query) =>
      s.(calls := s.calls[c := Checking(ws, query, Load(s.cache, ws), |s.log|)], log := s.log + [Read(c, ws)])
    case Check(c, now) =>
      var k := s.calls[c];
      (match Served(k.found, k.query, now)
       case Some(b) =>
         s.(clock := now, calls := s.calls[c := Finished], log := s.log + [Hit(c, k.ws, k.query, b, now)])
       case None => s.(clock := now, calls := s.calls[c := Missed(k.ws, k.query)]))
    case Fail(c) => s.(calls := s.calls[c := Failed])
    case Produce(c, block, now) =>
      var k := s.calls[c];
      s.(clock := now, calls := s.calls[c := Storing(k.ws, Entry(k.query, block, now + TTL), |s.log|)],
         log := s.log + [Produced(c, k.ws, k.query, block, now)])
    case Write(c) =>
      var k := s.calls[c];
      s.(cache := s.cache[k.ws := k.made], calls := s.calls[c := Finished], log := s.log + [Stored(k.ws, k.from)])
  }

  function After(run: seq<Step>): Option<State>
  {
    if run == [] then Some(INIT)
    else
      var n := |run| - 1;
      match After(run[..n])
      case None => None
      case Some(s) => if Enabled(s, run[n]) then Some(Next(s, run[n])) else None
  }

  // ---------------------------------------------------------------- what a hit repeats

  /** Among the first n events, position p is the last store for ws. */
  ghost predicate LastStore(log: seq<Event>, n: nat, ws: Workspace, p: nat)
  {
    && p < n <= |log| && log[p].Stored? && log[p].ws == ws
    && forall k :: p < k < n && log[k].Stored? ==> log[k].ws != ws
  }

  /** Entry e was made from the production at position j. */
  ghost predicate MadeAt(log: seq<Event>, j: nat, ws: Workspace, e: Entry)
  {
    && j < |log| && log[j].Produced? && log[j].ws == ws
    && e == Entry(log[j].query, log[j].block, log[j].at + TTL)
  }

  /** After n events, e is what the last store for ws left, if there was one. */
  ghost predicate InCache(log: seq<Event>, n: nat, ws: Workspace, e: Option<Entry>)
    requires n <= |log|
  {
    match e
    case None => forall k :: 0 <= k < n && log[k].Stored? ==> log[k].ws != ws
    case Some(x) => exists p: nat :: LastStore(log, n, ws, p) && MadeAt(log, log[p].from, ws, x)
  }

  /** The hit at i belongs to a call that read the cache at r, when the last store for its workspace
      was at p, and it repeats the production which that store wrote: same workspace, same query,
      same block, at most the lifetime earlier. */
  ghost predicate Repeats(log: seq<Event>, i: nat, r: nat, p: nat)
  {
    && r < i < |log| && log[i].Hit? && log[r] == Read(log[i].c, log[i].ws)
    && LastStore(log, r, log[i].ws, p)
    && var j := log[p].from;
       && j < |log| && log[j].Produced? && log[j].ws == log[i].ws
       && log[j].query == log[i].query && log[j].block == log[i].block
       && log[j].at <= log[i].at <= log[j].at + TTL
  }

  ghost predicate CallOk(s: State, c: Call)
    requires c in s.calls
  {
    match s.calls[c]
    case Checking(ws, _, e, r) => r < |s.log| && s.log[r] == Read(c, ws) && InCache(s.log, r, ws, e)
    case Storing(ws, e, j) => MadeAt(s.log, j, ws, e)
    case _ => true
  }

  ghost predicate CacheOk(s: State)
  {
    forall ws :: InCache(s.log, |s.log|, ws, Load(s.cache, ws))
  }

  ghost predicate CallsOk(s: State) { forall c :: c in s.calls ==> CallOk(s, c) }

  ghost predicate TimesOk(s: State)
  {
    forall j :: 0 <= j < |s.log| && s.log[j].Produced? ==> s.log[j].at <= s.clock
  }

  ghost predicate HitsOk(s: State)
  {
    forall i :: 0 <= i < |s.log| && s.log[i].Hit? ==> exists r, p :: Repeats(s.log, i, r, p)
  }

  ghost predicate Inv(s: State) { CacheOk(s) && CallsOk(s) && TimesOk(s) && HitsOk(s) }

  lemma InCacheLater(log: seq<Event>, x: Event, n: nat, ws: Workspace, e: Option<Entry>)
    requires n <= |log| && InCache(log, n, ws, e)
    ensures InCache(log + [x], n, ws, e)
  {
    if e.Some? {
      var p: nat :| LastStore(log, n, ws, p) && MadeAt(log, log[p].from, ws, e.value);
      assert LastStore(log + [x], n, ws, p) && MadeAt(log + [x], (log + [x])[p].from, ws, e.value);
    }
  }

  /** A store for another workspace, or any other event, leaves the entry of ws in place. */
  lemma InCacheGrows(log: seq<Event>, x: Event, ws: Workspace, e: Option<Entry>)
    requires InCache(log, |log|, ws, e) && !(x.Stored? && x.ws == ws)
    ensures InCache(log + [x], |log| + 1, ws, e)
  {
    if e.Some? {
      var p: nat :| LastStore(log, |log|, ws, p) && MadeAt(log, log[p].from, ws, e.value);
      assert LastStore(log + [x], |log| + 1, ws, p) && MadeAt(log + [x], (log + [x])[p].from, ws, e.value);
    }
  }

  lemma RepeatsLater(log: seq<Event>, x: Event, i: nat, r: nat, p: nat)
    requires Repeats(log, i, r, p)
    ensures Repeats(log + [x], i, r, p)
  {
  }

  lemma StepCache(s: State, st: Step)
    requires CacheOk(s) && CallsOk(s) && Enabled(s, st)
    ensures CacheOk(Next(s, st))
  {
    var t := Next(s, st);
    if t.log != s.log {
      var x := t.log[|s.log|];
      assert t.log == s.log + [x];
      forall ws ensures InCache(t.log, |t.log|, ws, Load(t.cache, ws)) {
        if x.Stored? && x.ws == ws {
          assert CallOk(s, st.c);
          assert LastStore(t.log, |t.log|, ws, |s.log|) && MadeAt(t.log, x.from, ws, t.cache[ws]);
        } else {
          InCacheGrows(s.log, x, ws, Load(s.cache, ws));
        }
      }
    }
  }

  lemma StepCalls(s: State, st: Step)
    requires CacheOk(s) && CallsOk(s) && Enabled(s, st)
    ensures CallsOk(Next(s, st))
  {
    var t := Next(s, st);
    forall c | c in t.calls ensures CallOk(t, c) {
      if c in s.calls { assert CallOk(s, c); }
      if t.log != s.log {
        var x := t.log[|s.log|];
        assert t.log == s.log + [x];
        if st.Begin? && c == st.c {
          InCacheLater(s.log, x, |s.log|, st.ws, Load(s.cache, st.ws));
        } else if c in s.calls && s.calls[c].Checking? {
          var k := s.calls[c];
          InCacheLater(s.log, x, k.read, k.ws, k.found);
        }
      }
    }
  }

  lemma StepTimes(s: State, st: Step)
    requires TimesOk(s) && Enabled(s, st)
    ensures TimesOk(Next(s, st)) && Next(s, st).clock >= s.clock
  {
  }

  lemma NewHit(s: State, c: Call, now: Time) returns (p: nat)
    requires CallsOk(s) && TimesOk(s) && Enabled(s, Check(c, now))
    requires Served(s.calls[c].found, s.calls[c].query, now).Some?
    ensures Repeats(Next(s, Check(c, now)).log, |s.log|, s.calls[c].read, p)
  {
    var k := s.calls[c];
    assert CallOk(s, c);
    p :| LastStore(s.log, k.read, k.ws, p) && MadeAt(s.log, s.log[p].from, k.ws, k.found.value);
    assert s.log[s.log[p].from].at <= s.clock;
  }

  lemma StepHits(s: State, st: Step)
    requires CallsOk(s) && TimesOk(s) && HitsOk(s) && Enabled(s, st)
    ensures HitsOk(Next(s, st))
  {
    var t := Next(s, st);
    forall i | 0 <= i < |t.log| && t.log[i].Hit? ensures exists r, p :: Repeats(t.log, i, r, p) {
      if i < |s.log| {
        var r, p :| Repeats(s.log, i, r, p);
        if t.log != s.log {
          assert t.log == s.log + [t.log[|s.log|]];
          RepeatsLater(s.log, t.log[|s.log|], i, r, p);
        }
      } else {
        var p := NewHit(s, st.c, st.now);
      }
    }
  }

  lemma {:induction false} RunInv(run: seq<Step>)
    requires After(run).Some?
    ensures Inv(After(run).value)
  {
    if run != [] {
      var s, st := After(run[..|run| - 1]).value, run[|run| - 1];
      RunInv(run[..|run| - 1]);
      hide CacheOk, CallsOk, TimesOk, HitsOk, Next, Enabled;
      StepCache(s, st);
      StepCalls(s, st);
      StepTimes(s, st);
      StepHits(s, st);
    }
  }

  /** In every run, every hit repeats what the full pipeline produced for the same workspace and
      query at most the lifetime earlier, and which was the last one stored when the cache was
      read. */
  lemma HitsRepeatThePipeline(run: seq<Step>, i: nat) returns (r: nat, p: nat)
    requires After(run).Some? && i < |After(run).value.log| && After(run).value.log[i].Hit?
    ensures Repeats(After(run).value.log, i, r, p)
  {
    RunInv(run);
    r, p :| Repeats(After(run).value.log, i, r, p);
  }

  // ---------------------------------------------------------------- when a compilation hits

  lemma Extend(run: seq<Step>, st: Step)
    requires After(run).Some? && Enabled(After(run).value, st)
    ensures After(run + [st]) == Some(Next(After(run).value, st))
  {
    assert (run + [st])[..|run|] == run;
  }

  /** The last block stored for the workspace, at p, was produced for this query and is at most 30
      seconds old. */
  ghost predicate Usable(log: seq<Event>, ws: Workspace, query: Query, now: Time, p: nat)
  {
    && LastStore(log, |log|, ws, p)
    && var j := log[p].from;
       j < |log| && log[j].Produced? && log[j].query == query && now <= log[j].at + 30_000_000_000
  }

  /** A compilation that nobody disturbs hits if and only if the last block stored for its workspace
      is usable, and then serves that block; otherwise it goes on to the pipeline. */
  lemma HitIff(run: seq<Step>, c: Call, ws: Workspace, query: Query, now: Time)
    requires After(run).Some? && c !in After(run).value.calls && now >= After(run).value.clock
    ensures var s := After(run).value;
      var more := run + [Begin(c, ws, query)] + [Check(c, now)];
      && After(more).Some?
      && var t := After(more).value;
         && t.cache == s.cache && c in t.calls
         && (t.calls[c].Finished? <==> exists p: nat :: Usable(s.log, ws, query, now, p))
         && (!t.calls[c].Finished? ==> t.calls[c] == Missed(ws, query) && t.log == s.log + [Read(c, ws)])
         && forall p: nat :: Usable(s.log, ws, query, now, p) ==>
              t.log == s.log + [Read(c, ws), Hit(c, ws, query, s.log[s.log[p].from].block, now)]
  {
    RunInv(run);
    var s := After(run).value;
    assert InCache(s.log, |s.log|, ws, Load(s.cache, ws));
    hide After, CallsOk, TimesOk, HitsOk, CacheOk;
    Extend(run, Begin(c, ws, query));
    Extend(run + [Begin(c, ws, query)], Check(c, now));
    ServedIff(s, ws, query, now);
    hide Served, Load, Usable;
  }

  lemma ServedIff(s: State, ws: Workspace, query: Query, now: Time)
    requires InCache(s.log, |s.log|, ws, Load(s.cache, ws))
    ensures var b := Served(Load(s.cache, ws), query, now);
      && (b.Some? <==> exists p: nat :: Usable(s.log, ws, query, now, p))
      && forall p: nat :: Usable(s.log, ws, query, now, p) ==> b == Some(s.log[s.log[p].from].block)
  {
    var e := Load(s.cache, ws);
    if e.Some? {
      var p: nat :| LastStore(s.log, |s.log|, ws, p) && MadeAt(s.log, s.log[p].from, ws, e.value);
      forall q: nat | LastStore(s.log, |s.log|, ws, q) ensures q == p { }
      assert Served(e, query, now).Some? ==> Usable(s.log, ws, query, now, p);
    }
  }

  /** A compilation that missed and whose pipeline produces a block leaves it in the cache for its
      workspace, and nowhere else; one that fails leaves no trace. */
  lemma MissStores(run: seq<Step>, c: Call, block: Block, now: Time)
    requires After(run).Some? && now >= After(run).value.clock
    requires c in After(run).value.calls && After(run).value.calls[c].Missed?
    ensures var s := After(run).value;
      var k := s.calls[c];
      && After(run + [Fail(c)]) == Some(s.(calls := s.calls[c := Failed]))
      && var more := run + [Produce(c, block, now)] + [Write(c)];
         && After(more).Some?
         && var t := After(more).value;
            && t.cache == s.cache[k.ws := Entry(k.query, block, now + 30_000_000_000)]
            && t.log == s.log + [Produced(c, k.ws, k.query, block, now), Stored(k.ws, |s.log|)]
            && t.clock == now && c in t.calls && t.calls[c].Finished? && t.calls.Keys == s.calls.Keys
  {
    hide After;
    Extend(run, Fail(c));
    Extend(run, Produce(c, block, now));
    Extend(run + [Produce(c, block, now)], Write(c));
  }

  /** A repeated query is a hit: right after the block was stored, any other compilation of the same
      workspace and query that checks within 30 seconds of its production serves it. */
  lemma RepeatedQueryHits(run: seq<Step>, c: Call, block: Block, now: Time, d: Call, later: Time)
    requires After(run).Some? && now >= After(run).value.clock
    requires c in After(run).value.calls && After(run).value.calls[c].Missed?
    requires d !in After(run).value.calls && now <= later <= now + 30_000_000_000
    ensures var k := After(run).value.calls[c];
      var more := run + [Produce(c, block, now)] + [Write(c)] + [Begin(d, k.ws, k.query)] + [Check(d, later)];
      After(more).Some? && After(more).value.log != [] &&
      After(more).value.log[|After(more).value.log| - 1] == Hit(d, k.ws, k.query, block, later)
  {
    var s := After(run).value;
    var k := s.calls[c];
    MissStores(run, c, block, now);
    var stored := run + [Produce(c, block, now)] + [Write(c)];
    var log := After(stored).value.log;
    assert log[|s.log|].Produced? && log[|s.log| + 1] == Stored(k.ws, |s.log|);
    assert Usable(log, k.ws, k.query, later, |s.log| + 1);
    hide After, Usable;
    HitIff(stored, d, k.ws, k.query, later);
  }

  // ---------------------------------------------------------------- failed compilations

  /** A call that failed produced nothing, and one that produced did not fail. */
  ghost predicate Clean(run: seq<Step>, s: State)
  {
    && (forall c :: Fail(c) in run ==> c in s.calls && s.calls[c].Failed?)
    && (forall j :: 0 <= j < |s.log| && s.log[j].Produced? ==>
          s.log[j].c in s.calls && (s.calls[s.log[j].c].Storing? || s.calls[s.log[j].c].Finished?))
  }

  lemma {:induction false} RunClean(run: seq<Step>)
    requires After(run).Some?
    ensures Clean(run, After(run).value)
  {
    if run != [] {
      var n := |run| - 1;
      RunClean(run[..n]);
      assert run == run[..n] + [run[n]];
      hide Clean, Enabled, Next;
      StepClean(run[..n], After(run[..n]).value, run[n]);
    }
  }

  lemma StepClean(run: seq<Step>, s: State, st: Step)
    requires Clean(run, s) && Enabled(s, st)
    ensures Clean(run + [st], Next(s, st))
  {
  }

  /** No hit serves the block of a compilation that failed, now or later in the run. */
  lemma FailuresAreNeverServed(run: seq<Step>, i: nat) returns (j: nat)
    requires After(run).Some? && i < |After(run).value.log| && After(run).value.log[i].Hit?
    ensures var log := After(run).value.log;
      && j < i && log[j].Produced? && log[j].block == log[i].block && log[j].query == log[i].query
      && log[j].ws == log[i].ws && Fail(log[j].c) !in run
  {
    var r, p := HitsRepeatThePipeline(run, i);
    var log := After(run).value.log;
    j := log[p].from;
    RunClean(run);
    RunOrdered(run);
  }

  /** A production is stored after it happened. */
  lemma {:induction false} RunOrdered(run: seq<Step>)
    requires After(run).Some?
    ensures var s := After(run).value;
      && (forall p :: 0 <= p < |s.log| && s.log[p].Stored? ==> s.log[p].from < p)
      && (forall c :: c in s.calls && s.calls[c].Storing? ==> s.calls[c].from < |s.log|)
  {
    if run != [] { RunOrdered(run[..|run| - 1]); }
  }
}
