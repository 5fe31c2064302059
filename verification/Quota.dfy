/** The daily request quota: one row per workspace, updated by a single atomic upsert and then
    compared with the tier's limit. Proved over whole runs, with tiers mixed and callers whose
    clocks disagree. */
module Quota {

  import opened Collections

  type Workspace = string

  // Midnight UTC of a day, as the number of that day.
  type Day = int

  datatype Tier = Free | Pro | Enterprise | Unknown(name: string)

  /** Tier.DailyLimit; negative means unlimited. */
  function DailyLimit(t: Tier): int
  {
    match t
    case Pro => 10_000
    case Enterprise => -1
    case _ => 100
  }

  datatype Row = Row(tier: Tier, count: nat, window: Day)

  type Table = map<Workspace, Row>

  /** The upsert: a first call inserts 1, a call of a later day starts a new window at 1, and any
      other call adds 1. */
  function Upsert(t: Table, ws: Workspace, tier: Tier, today: Day): Table
  {
    var row :=
      if ws !in t then Row(tier, 1, today)
      else Row(tier, if t[ws].window < today then 1 else t[ws].count + 1,
               if t[ws].window < today then today else t[ws].window);
    t[ws := row]
  }

  class Enforcer {
    var table: Table

    constructor ()
      ensures table == map[]
    {
      table := map[];
    }

    /** CheckAndIncrement when the database answers. */
    method CheckAndIncrement(ws: Workspace, tier: Tier, today: Day) returns (admitted: bool)
      modifies this
      ensures DailyLimit(tier) < 0 ==> admitted && table == old(table)
      ensures DailyLimit(tier) >= 0 ==>
        && table == Upsert(old(table), ws, tier, today)
        && (admitted <==> table[ws].count <= DailyLimit(tier))
    {
      var limit := DailyLimit(tier);
      if limit < 0 { return true; }
      if ws !in table {
        table := table[ws := Row(tier, 1, today)];
      } else {
        var row := table[ws];
        var count := if row.window < today then 1 else row.count + 1;
        var window := if row.window < today then today else row.window;
        table := table[ws := Row(tier, count, window)];
      }
      var newCount := table[ws].count;
      return newCount <= limit;
    }
  }

  // ---------------------------------------------------------------- whole runs

  datatype Request = Request(ws: Workspace, tier: Tier, today: Day)

  function After(rs: seq<Request>): Table
  {
    if rs == [] then map[]
    else
      var r := rs[|rs| - 1];
      var t := After(rs[..|rs| - 1]);
      if DailyLimit(r.tier) < 0 then t else Upsert(t, r.ws, r.tier, r.today)
  }

  /** Request k is counted: its tier has a limit. */
  predicate Counted(rs: seq<Request>, k: nat) { k < |rs| && DailyLimit(rs[k].tier) >= 0 }

  predicate CountedFor(rs: seq<Request>, k: nat, ws: Workspace) { Counted(rs, k) && rs[k].ws == ws }

  function RowAfter(rs: seq<Request>, k: nat): Row
    requires Counted(rs, k)
  {
    After(rs[..k + 1])[rs[k].ws]
  }

  predicate Admitted(rs: seq<Request>, k: nat)
    requires k < |rs|
  {
    Counted(rs, k) ==> RowAfter(rs, k).count <= DailyLimit(rs[k].tier)
  }

  // ---------------------------------------------------------------- windows are days

  /** The latest day any counted request of the workspace came with. */
  function LatestDay(rs: seq<Request>, ws: Workspace): Option<Day>
  {
    if rs == [] then None
    else
      var n := |rs| - 1;
      var d := LatestDay(rs[..n], ws);
      if !CountedFor(rs, n, ws) then d
      else if d.Some? && d.value >= rs[n].today then d else Some(rs[n].today)
  }

  /** It is one of those days, and none is later. */
  lemma {:induction false} LatestDayIs(rs: seq<Request>, ws: Workspace)
    ensures LatestDay(rs, ws).None? ==> forall k :: 0 <= k < |rs| ==> !CountedFor(rs, k, ws)
    ensures LatestDay(rs, ws).Some? ==>
      && (exists k: nat :: CountedFor(rs, k, ws) && rs[k].today == LatestDay(rs, ws).value)
      && (forall k :: 0 <= k < |rs| && CountedFor(rs, k, ws) ==> rs[k].today <= LatestDay(rs, ws).value)
  {
    if rs != [] {
      var n := |rs| - 1;
      LatestDayIs(rs[..n], ws);
      assert forall k :: 0 <= k < n ==> (CountedFor(rs, k, ws) <==> CountedFor(rs[..n], k, ws)) && rs[..n][k] == rs[k];
      if LatestDay(rs[..n], ws).Some? {
        var k: nat :| CountedFor(rs[..n], k, ws) && rs[..n][k].today == LatestDay(rs[..n], ws).value;
        assert CountedFor(rs, k, ws);
      }
    }
  }

  /** The stored window is the latest day, whatever the callers' clocks say: it moves on with the
      first request of a later day, and no request of an earlier day moves it back. */
  lemma {:induction false} WindowIsLatestDay(rs: seq<Request>, ws: Workspace)
    ensures ws in After(rs) <==> LatestDay(rs, ws).Some?
    ensures ws in After(rs) ==> After(rs)[ws].window == LatestDay(rs, ws).value
  {
    if rs != [] { WindowIsLatestDay(rs[..|rs| - 1], ws); }
  }

  /** The stored tier is that of the last counted request. */
  lemma TierIsLatest(rs: seq<Request>, ws: Workspace, k: nat)
    requires CountedFor(rs, k, ws) && forall i :: k < i < |rs| ==> !CountedFor(rs, i, ws)
    ensures ws in After(rs) && After(rs)[ws].tier == rs[k].tier
  {
    var n := |rs| - 1;
    if k < n {
      assert !CountedFor(rs, n, ws);
      assert forall i :: 0 <= i < n ==> (CountedFor(rs[..n], i, ws) <==> CountedFor(rs, i, ws));
      TierIsLatest(rs[..n], ws, k);
    }
  }

  /** The day request k belongs to: the latest any request of its workspace came with up to it. */
  function DayOf(rs: seq<Request>, k: nat): Option<Day>
    requires k < |rs|
  {
    LatestDay(rs[..k + 1], rs[k].ws)
  }

  /** How many of the requests of this workspace belong to day d. */
  function OnDay(rs: seq<Request>, ws: Workspace, d: Day): nat
  {
    if rs == [] then 0
    else
      var n := |rs| - 1;
      OnDay(rs[..n], ws, d) + (if CountedFor(rs, n, ws) && DayOf(rs, n) == Some(d) then 1 else 0)
  }

  /** How many of those were admitted under this limit or a lower one. */
  function AdmittedOnDay(rs: seq<Request>, ws: Workspace, d: Day, limit: int): nat
  {
    if rs == [] then 0
    else
      var n := |rs| - 1;
      AdmittedOnDay(rs[..n], ws, d, limit)
        + (if CountedFor(rs, n, ws) && DayOf(rs, n) == Some(d)
              && DailyLimit(rs[n].tier) <= limit && Admitted(rs, n) then 1 else 0)
  }

  // ---------------------------------------------------------------- main results

  /** The counter is the number of requests that belong to the present day, and none belongs to a
      later one. */
  lemma {:induction false} CounterCounts(rs: seq<Request>, ws: Workspace)
    ensures ws in After(rs) ==>
      && After(rs)[ws].count == OnDay(rs, ws, After(rs)[ws].window)
      && forall d :: d > After(rs)[ws].window ==> OnDay(rs, ws, d) == 0
    ensures ws !in After(rs) ==> forall d :: OnDay(rs, ws, d) == 0
  {
    if rs != [] {
      var n := |rs| - 1;
      CounterCounts(rs[..n], ws);
      WindowIsLatestDay(rs[..n], ws);
      WindowIsLatestDay(rs, ws);
      assert rs[..n + 1] == rs;
      hide LatestDay;
    }
  }

  lemma WindowNeverMovesBack(rs: seq<Request>, r: Request, ws: Workspace)
    requires ws in After(rs)
    ensures ws in After(rs + [r]) && After(rs + [r])[ws].window >= After(rs)[ws].window
  {
  }

  /** Numbering: the counted requests of a day get the numbers 1, 2, 3, ... in order. */
  lemma NumberedInOrder(rs: seq<Request>, k: nat)
    requires Counted(rs, k)
    ensures DayOf(rs, k).Some? && RowAfter(rs, k).window == DayOf(rs, k).value
    ensures RowAfter(rs, k).count == OnDay(rs[..k], rs[k].ws, DayOf(rs, k).value) + 1
  {
    var before, now := rs[..k], rs[..k + 1];
    assert now[..k] == before;
    CounterCounts(before, rs[k].ws);
    WindowIsLatestDay(before, rs[k].ws);
    WindowIsLatestDay(now, rs[k].ws);
    hide LatestDay, OnDay;
  }

  /** Quota: on one day of one workspace, all tiers with at most this limit together have at most
      limit requests admitted, however tiers and clocks are mixed. */
  lemma {:induction false} QuotaHolds(rs: seq<Request>, ws: Workspace, d: Day, limit: int)
    requires limit >= 0
    ensures AdmittedOnDay(rs, ws, d, limit) <= limit
    ensures AdmittedOnDay(rs, ws, d, limit) <= OnDay(rs, ws, d)
  {
    if rs != [] {
      var n := |rs| - 1;
      QuotaHolds(rs[..n], ws, d, limit);
      assert rs[..n + 1] == rs;
      if Counted(rs, n) { NumberedInOrder(rs, n); }
      hide LatestDay, After;
    }
  }

  /** Exactly the first limit requests of a day pass: a request of a limited tier is admitted if and
      only if fewer than its limit belong to its day before it. */
  lemma AdmittedIff(rs: seq<Request>, k: nat)
    requires Counted(rs, k)
    ensures DayOf(rs, k).Some?
    ensures Admitted(rs, k) <==> OnDay(rs[..k], rs[k].ws, DayOf(rs, k).value) < DailyLimit(rs[k].tier)
  {
    NumberedInOrder(rs, k);
  }

  /** A new day starts afresh: a request whose day is later than that of every counted one before it
      is the first of its day and is admitted, however many there were before. */
  lemma NewDayResets(rs: seq<Request>, k: nat)
    requires Counted(rs, k)
    requires forall i :: 0 <= i < k && CountedFor(rs, i, rs[k].ws) ==> rs[i].today < rs[k].today
    ensures DayOf(rs, k) == Some(rs[k].today)
    ensures RowAfter(rs, k).count == 1 && Admitted(rs, k)
  {
    var before, now, ws := rs[..k], rs[..k + 1], rs[k].ws;
    assert now[..k] == before;
    LatestDayIs(before, ws);
    if LatestDay(before, ws).Some? {
      var i: nat :| CountedFor(before, i, ws) && before[i].today == LatestDay(before, ws).value;
      assert CountedFor(rs, i, ws) && rs[i].today < rs[k].today;
    }
    NumberedInOrder(rs, k);
    CounterCounts(before, ws);
    WindowIsLatestDay(before, ws);
    hide After, OnDay;
  }

  /** The tiers: 100 requests a day for the free tier and every unknown one, 10,000 for the
      professional tier, and no limit and no counting for the enterprise tier. */
  lemma TierLimits(rs: seq<Request>, k: nat)
    requires k < |rs|
    ensures rs[k].tier.Enterprise? ==> Admitted(rs, k) && After(rs[..k + 1]) == After(rs[..k])
    ensures !rs[k].tier.Enterprise? ==>
      && DayOf(rs, k).Some?
      && (Admitted(rs, k) <==>
            OnDay(rs[..k], rs[k].ws, DayOf(rs, k).value) < if rs[k].tier.Pro? then 10_000 else 100)
  {
    assert rs[..k + 1][..k] == rs[..k];
    if !rs[k].tier.Enterprise? { AdmittedIff(rs, k); }
  }
}
