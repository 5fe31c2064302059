/** Bounded breadth-first expansion of a seed set over the edge table, proved exact against
    shortest distances defined by walks, for every graph, cyclic ones included. */
module GraphExpander {

  import opened Collections

  type Id = nat

  type Edges = set<(Id, Id)>

  // ---------------------------------------------------------------- reference: distances

  /** p follows edges. */
  ghost predicate Walk(edges: Edges, p: seq<Id>)
  {
    p != [] && forall i :: 0 <= i < |p| - 1 ==> (p[i], p[i + 1]) in edges
  }

  ghost predicate WalkTo(edges: Edges, seeds: seq<Id>, p: seq<Id>, x: Id, d: nat)
  {
    Walk(edges, p) && |p| == d + 1 && p[0] in seeds && p[d] == x
  }

  /** Some walk of exactly d edges leads from a seed to x. */
  ghost predicate Reach(edges: Edges, seeds: seq<Id>, x: Id, d: nat)
  {
    exists p :: WalkTo(edges, seeds, p, x, d)
  }

  ghost predicate Within(edges: Edges, seeds: seq<Id>, x: Id, h: nat)
  {
    exists d :: 0 <= d <= h && Reach(edges, seeds, x, d)
  }

  /** The shortest walk from a seed to x has d edges. */
  ghost predicate Distance(edges: Edges, seeds: seq<Id>, x: Id, d: nat)
  {
    Reach(edges, seeds, x, d) && forall e :: 0 <= e < d ==> !Reach(edges, seeds, x, e)
  }

  ghost predicate Neighbour(edges: Edges, srcs: seq<Id>, x: Id)
  {
    exists y :: y in srcs && (y, x) in edges
  }

  lemma ReachZero(edges: Edges, seeds: seq<Id>, x: Id)
    ensures Reach(edges, seeds, x, 0) <==> x in seeds
  {
    if x in seeds { assert WalkTo(edges, seeds, [x], x, 0); }
  }

  lemma ReachNext(edges: Edges, seeds: seq<Id>, y: Id, x: Id, d: nat)
    requires Reach(edges, seeds, y, d) && (y, x) in edges
    ensures Reach(edges, seeds, x, d + 1)
  {
    var p :| WalkTo(edges, seeds, p, y, d);
    assert WalkTo(edges, seeds, p + [x], x, d + 1);
  }

  lemma ReachBefore(edges: Edges, seeds: seq<Id>, x: Id, d: nat) returns (y: Id)
    requires Reach(edges, seeds, x, d + 1)
    ensures Reach(edges, seeds, y, d) && (y, x) in edges
  {
    var p :| WalkTo(edges, seeds, p, x, d + 1);
    y := p[d];
    assert (p[d], p[d + 1]) in edges;
    assert WalkTo(edges, seeds, p[..d + 1], y, d);
  }

  /** The node before the end of a shortest walk is one step nearer. */
  lemma DistanceBefore(edges: Edges, seeds: seq<Id>, x: Id, d: nat) returns (y: Id)
    requires Distance(edges, seeds, x, d + 1)
    ensures Distance(edges, seeds, y, d) && (y, x) in edges
  {
    y := ReachBefore(edges, seeds, x, d);
    forall e | 0 <= e < d ensures !Reach(edges, seeds, y, e) {
      if Reach(edges, seeds, y, e) {
        ReachNext(edges, seeds, y, x, e);
        assert false;
      }
    }
  }

  /** A level of the search: the nodes at distance h + 1 are the neighbours of those at distance
      h that were not met before. */
  lemma NextLevel(edges: Edges, seeds: seq<Id>, h: nat, frontier: seq<Id>, x: Id)
    requires forall y :: y in frontier <==> Distance(edges, seeds, y, h)
    ensures Distance(edges, seeds, x, h + 1) <==>
      Neighbour(edges, frontier, x) && !Within(edges, seeds, x, h)
  {
    if Distance(edges, seeds, x, h + 1) {
      var y := DistanceBefore(edges, seeds, x, h);
      assert y in frontier;
    }
    if Neighbour(edges, frontier, x) && !Within(edges, seeds, x, h) {
      var y :| y in frontier && (y, x) in edges;
      ReachNext(edges, seeds, y, x, h);
    }
  }

  /** What is within h + 1 was within h or is at distance h + 1. */
  lemma WithinNext(edges: Edges, seeds: seq<Id>, h: nat, x: Id)
    ensures Within(edges, seeds, x, h + 1) <==>
      Within(edges, seeds, x, h) || Distance(edges, seeds, x, h + 1)
  {
  }

  /** Beyond an empty level there is nothing. */
  lemma {:induction false} NothingBeyond(edges: Edges, seeds: seq<Id>, h: nat, d: nat, x: Id)
    requires h <= d && forall y :: !Distance(edges, seeds, y, h)
    ensures !Distance(edges, seeds, x, d)
    decreases d
  {
    if Distance(edges, seeds, x, d) && d > h {
      var y := DistanceBefore(edges, seeds, x, d - 1);
      NothingBeyond(edges, seeds, h, d - 1, y);
      assert false;
    }
  }

  // ---------------------------------------------------------------- the expansion

  /** One round trip to the edge table, by hop and source batch; it may fail. */
  type Querier = (nat, seq<Id>) -> Option<seq<Id>>

  /** A successful query returns the targets of the sources' edges, in any order. */
  ghost predicate Faithful(gq: Querier, edges: Edges)
  {
    forall hop, srcs :: gq(hop, srcs).Some? ==>
      forall x :: x in gq(hop, srcs).value <==> Neighbour(edges, srcs, x)
  }

  /** ids lists, each once and by nondecreasing distance, exactly the nodes whose distance from
      the seeds is between 1 and maxHops; levels gives those distances. */
  ghost predicate Exact(edges: Edges, seeds: seq<Id>, maxHops: int, ids: seq<Id>, levels: seq<nat>)
  {
    && Distinct(ids) && |levels| == |ids|
    && (forall i :: 0 <= i < |ids| ==> 1 <= levels[i] <= maxHops && Distance(edges, seeds, ids[i], levels[i]))
    && (forall i, j :: 0 <= i < j < |ids| ==> levels[i] <= levels[j])
    && (forall x, d :: 1 <= d <= maxHops && Distance(edges, seeds, x, d) ==> x in ids)
  }

  /** One pass over the answers of a query: those not visited are visited, in order. */
  method Visit(neighbours: seq<Id>, visited: set<Id>) returns (news: seq<Id>, visited': set<Id>)
    ensures Distinct(news)
    ensures forall x :: x in news <==> x in neighbours && x !in visited
    ensures visited' == visited + set x | x in news
  {
    news, visited' := [], visited;
    for i := 0 to |neighbours|
      invariant Distinct(news)
      invariant forall x :: x in news <==> x in neighbours[..i] && x !in visited
      invariant visited' == visited + set x | x in news
    {
      assert neighbours[..i + 1] == neighbours[..i] + [neighbours[i]];
      if neighbours[i] !in visited' {
        visited' := visited' + {neighbours[i]};
        news := news + [neighbours[i]];
      }
    }
    assert neighbours[..|neighbours|] == neighbours;
  }

  /** ExpandWithQuerier. */
  method Expand(ghost edges: Edges, gq: Querier, seeds: seq<Id>, maxHops: int)
    returns (r: Option<seq<Id>>, ghost levels: seq<nat>)
    requires Faithful(gq, edges)
    ensures (forall hop, srcs :: gq(hop, srcs).Some?) ==> r.Some?
    ensures r.Some? ==> Exact(edges, seeds, maxHops, r.value, levels)
  {
    levels := [];
    if maxHops <= 0 || |seeds| == 0 {
      if |seeds| == 0 { NoSeeds(edges, seeds); }
      return Some([]), [];
    }
    var visited := set x | x in seeds;
    var frontier := seeds;
    var discovered: seq<Id> := [];
    var hop := 0;
    StartLevel(edges, seeds);
    while hop < maxHops && |frontier| > 0
      invariant 0 <= hop <= maxHops
      invariant forall y :: y in frontier <==> Distance(edges, seeds, y, hop)
      invariant forall y :: y in visited <==> Within(edges, seeds, y, hop)
      invariant Exact(edges, seeds, hop, discovered, levels)
    {
      var answer := gq(hop, frontier);
      if answer.None? { return None, []; }
      var news;
      news, visited := Visit(answer.value, visited);
      LevelDone(edges, seeds, hop, frontier, news);
      LevelAppended(edges, seeds, hop, discovered, levels, news);
      discovered := discovered + news;
      levels := levels + seq(|news|, i => hop + 1);
      frontier := news;
      hop := hop + 1;
    }
    if hop < maxHops {
      assert forall y :: !Distance(edges, seeds, y, hop);
      forall x, d | 1 <= d <= maxHops && Distance(edges, seeds, x, d) ensures x in discovered {
        if d > hop { NothingBeyond(edges, seeds, hop, d, x); }
      }
    }
    r := Some(discovered);
  }

  lemma NoSeeds(edges: Edges, seeds: seq<Id>)
    requires seeds == []
    ensures forall x, d :: !Distance(edges, seeds, x, d)
  {
  }

  lemma StartLevel(edges: Edges, seeds: seq<Id>)
    ensures forall y :: y in seeds <==> Distance(edges, seeds, y, 0)
    ensures forall y :: y in seeds <==> Within(edges, seeds, y, 0)
  {
    forall y ensures y in seeds <==> Reach(edges, seeds, y, 0) { ReachZero(edges, seeds, y); }
  }

  lemma LevelDone(edges: Edges, seeds: seq<Id>, hop: nat, frontier: seq<Id>, news: seq<Id>)
    requires forall y :: y in frontier <==> Distance(edges, seeds, y, hop)
    requires forall x :: x in news <==> Neighbour(edges, frontier, x) && !Within(edges, seeds, x, hop)
    ensures forall x :: x in news <==> Distance(edges, seeds, x, hop + 1)
    ensures forall x :: Within(edges, seeds, x, hop + 1) <==> Within(edges, seeds, x, hop) || x in news
  {
    forall x ensures x in news <==> Distance(edges, seeds, x, hop + 1)
      ensures Within(edges, seeds, x, hop + 1) <==> Within(edges, seeds, x, hop) || x in news
    {
      NextLevel(edges, seeds, hop, frontier, x);
      WithinNext(edges, seeds, hop, x);
    }
  }

  /** Appending a complete level keeps the list exact. */
  lemma LevelAppended(edges: Edges, seeds: seq<Id>, hop: nat, ids: seq<Id>, levels: seq<nat>, news: seq<Id>)
    requires Exact(edges, seeds, hop, ids, levels) && Distinct(news)
    requires forall x :: x in news <==> Distance(edges, seeds, x, hop + 1)
    ensures Exact(edges, seeds, hop + 1, ids + news, levels + seq(|news|, i => hop + 1))
  {
    var all, lv := ids + news, levels + seq(|news|, i => hop + 1);
    forall j | 0 <= j < |news| ensures Distance(edges, seeds, news[j], hop + 1) { assert news[j] in news; }
    forall i | 0 <= i < |all| ensures 1 <= lv[i] <= hop + 1 && Distance(edges, seeds, all[i], lv[i]) {
      if i >= |ids| { assert all[i] == news[i - |ids|]; }
    }
    forall x, d | 1 <= d <= hop + 1 && Distance(edges, seeds, x, d) ensures x in all {
      if d == hop + 1 { assert x in news; }
    }
  }

  /** An exact list holds no seed. */
  lemma NoSeedListed(edges: Edges, seeds: seq<Id>, maxHops: int, ids: seq<Id>, levels: seq<nat>, x: Id)
    requires Exact(edges, seeds, maxHops, ids, levels) && x in ids
    ensures x !in seeds
  {
    ReachZero(edges, seeds, x);
  }
}
