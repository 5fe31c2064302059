/** Reciprocal rank fusion of two ranked lists: scores accumulated in a map, collected in any
    order and sorted, proved against the sum that defines the score, with the ordering law that
    agreement of the input lists survives the merge. Scores are real numbers. */
module RrfMerge {

  import opened Collections

  type Id = int

  /** A result; text stands for the metadata that is copied along. */
  datatype Chunk = Chunk(id: Id, text: string, source: string, score: real)

  const DEFAULT_K: real := 60.0

  // ---------------------------------------------------------------- reference

  /** What the entry at index i adds; ranks start at 1. */
  function Share(k: real, i: nat): (r: real)
    requires k > 0.0
    ensures r > 0.0
  {
    1.0 / (k + (i + 1) as real)
  }

  /** The sum of the shares of all occurrences of id in one list. */
  function Score(list: seq<Chunk>, k: real, id: Id): (r: real)
    requires k > 0.0
    ensures r >= 0.0
    ensures (exists c :: c in list && c.id == id) ==> r > 0.0
  {
    if list == [] then 0.0
    else
      var n := |list| - 1;
      assert list == list[..n] + [list[n]];
      Score(list[..n], k, id) + (if list[n].id == id then Share(k, n) else 0.0)
  }

  function Total(dense: seq<Chunk>, lexical: seq<Chunk>, k: real, id: Id): real
    requires k > 0.0
  {
    Score(dense, k, id) + Score(lexical, k, id)
  }

  predicate Occurs(list: seq<Chunk>, id: Id) { exists c :: c in list && c.id == id }

  /** The first entry with this id. */
  function First(list: seq<Chunk>, id: Id): (c: Chunk)
    requires Occurs(list, id)
    ensures c in list && c.id == id
  {
    if list[0].id == id then list[0] else First(list[1..], id)
  }

  lemma {:induction false} FirstIs(list: seq<Chunk>, id: Id, i: nat)
    requires i < |list| && list[i].id == id && forall j :: 0 <= j < i ==> list[j].id != id
    ensures Occurs(list, id) && First(list, id) == list[i]
  {
    assert list[i] in list;
    if i > 0 { FirstIs(list[1..], id, i - 1); }
  }

  // ---------------------------------------------------------------- accumulation

  /** The accumulator describes the part of the input seen so far. */
  ghost predicate Accumulated(acc: map<Id, Chunk>, seen: seq<Chunk>, total: Id -> real)
  {
    && (forall id :: id in acc <==> Occurs(seen, id))
    && (forall id :: id in acc ==>
          && acc[id].id == id && acc[id].source == "rrf"
          && acc[id].text == First(seen, id).text && acc[id].score == total(id))
  }

  lemma FirstAppend(seen: seq<Chunk>, c: Chunk, id: Id)
    ensures Occurs(seen + [c], id) <==> Occurs(seen, id) || c.id == id
    ensures Occurs(seen, id) ==> First(seen + [c], id) == First(seen, id)
    ensures !Occurs(seen, id) && c.id == id ==> First(seen + [c], id) == c
  {
    assert c in seen + [c];
    if seen == [] {
      assert seen + [c] == [c];
    } else {
      assert (seen + [c])[1..] == seen[1..] + [c];
      if seen[0].id != id {
        assert Occurs(seen, id) <==> Occurs(seen[1..], id);
        FirstAppend(seen[1..], c, id);
      }
    }
  }

  /** applyList: one list is added to the accumulator, whose scores before and after are given. */
  method ApplyList(acc: map<Id, Chunk>, list: seq<Chunk>, k: real, ghost before: seq<Chunk>,
                   ghost base: Id -> real, ghost total: Id -> real)
    returns (acc': map<Id, Chunk>)
    requires k > 0.0 && Accumulated(acc, before, base)
    requires forall id :: !Occurs(before, id) ==> base(id) == 0.0
    requires forall id :: total(id) == base(id) + Score(list, k, id)
    ensures Accumulated(acc', before + list, total)
  {
    acc' := acc;
    assert before + list[..0] == before;
    for i := 0 to |list|
      invariant Accumulated(acc', before + list[..i], id => base(id) + Score(list[..i], k, id))
    {
      var chunk := list[i];
      var contrib := Share(k, i);
      ghost var seen := before + list[..i];
      ghost var t := id => base(id) + Score(list[..i], k, id);
      ghost var t' := id => base(id) + Score(list[..i + 1], k, id);
      assert list[..i + 1][..i] == list[..i];
      assert before + list[..i + 1] == seen + [chunk];
      ghost var was := acc';
      if chunk.id in acc' {
        acc' := acc'[chunk.id := acc'[chunk.id].(score := acc'[chunk.id].score + contrib)];
      } else {
        NotSeen(before, list[..i], k, chunk.id);
        acc' := acc'[chunk.id := chunk.(source := "rrf", score := contrib)];
      }
      AccumulateOne(was, acc', seen, chunk, contrib, t, t');
    }
    assert list[..|list|] == list;
  }

  lemma {:induction false} NotSeen(before: seq<Chunk>, list: seq<Chunk>, k: real, id: Id)
    requires k > 0.0 && !Occurs(before + list, id)
    ensures !Occurs(before, id) && Score(list, k, id) == 0.0
  {
    assert forall c :: c in before ==> c in before + list;
    assert forall c :: c in list ==> c in before + list;
    if list != [] {
      assert list[|list| - 1] in list;
      assert before + list == before + list[..|list| - 1] + [list[|list| - 1]];
      NotSeen(before, list[..|list| - 1], k, id);
    }
  }

  lemma AccumulateOne(was: map<Id, Chunk>, now: map<Id, Chunk>, seen: seq<Chunk>, c: Chunk, contrib: real,
                      t: Id -> real, t': Id -> real)
    requires Accumulated(was, seen, t)
    requires forall id :: t'(id) == t(id) + (if id == c.id then contrib else 0.0)
    requires c.id !in was ==> t(c.id) == 0.0
    requires now == was[c.id := if c.id in was then was[c.id].(score := was[c.id].score + contrib)
                                else c.(source := "rrf", score := contrib)]
    ensures Accumulated(now, seen + [c], t')
  {
    forall id ensures id in now <==> Occurs(seen + [c], id) { FirstAppend(seen, c, id); }
    forall id | id in now
      ensures && now[id].id == id && now[id].source == "rrf"
              && now[id].text == First(seen + [c], id).text && now[id].score == t'(id)
    {
      FirstAppend(seen, c, id);
    }
  }

  // ---------------------------------------------------------------- sorting and merging

  ghost predicate Sorted(s: seq<Chunk>)
  {
    forall i, j :: 0 <= i < j < |s| ==> s[i].score >= s[j].score
  }

  ghost predicate DistinctIds(s: seq<Chunk>)
  {
    forall i, j :: 0 <= i < j < |s| ==> s[i].id != s[j].id
  }

  function Insert(r: seq<Chunk>, p: nat, c: Chunk): seq<Chunk>
    requires p <= |r|
  {
    seq(|r| + 1, i requires 0 <= i <= |r| => if i < p then r[i] else if i == p then c else r[i - 1])
  }

  lemma InsertedMembers(r: seq<Chunk>, p: nat, c: Chunk)
    requires p <= |r|
    ensures forall x :: x in Insert(r, p, c) <==> x in r || x == c
  {
    var s := Insert(r, p, c);
    forall x | x in r ensures x in s {
      var i :| 0 <= i < |r| && r[i] == x;
      assert s[if i < p then i else i + 1] == x;
    }
    assert s[p] == c;
  }

  lemma InsertedDistinct(r: seq<Chunk>, p: nat, c: Chunk)
    requires p <= |r| && DistinctIds(r) && forall x :: x in r ==> x.id != c.id
    ensures DistinctIds(Insert(r, p, c))
  {
  }

  lemma InsertedSorted(r: seq<Chunk>, p: nat, c: Chunk)
    requires p <= |r| && Sorted(r) && (p > 0 ==> r[p - 1].score >= c.score)
    requires forall j :: p <= j < |r| ==> r[j].score < c.score
    ensures Sorted(Insert(r, p, c))
  {
  }

  /** sort.Slice, of which only this is promised: a sorted rearrangement. Members carry distinct
      ids, so equal length and equal membership make it a permutation. */
  method SortByScore(s: seq<Chunk>) returns (r: seq<Chunk>)
    requires DistinctIds(s)
    ensures Sorted(r) && DistinctIds(r) && |r| == |s| && forall c :: c in r <==> c in s
  {
    r := [];
    for i := 0 to |s|
      invariant Sorted(r) && DistinctIds(r) && |r| == i && forall c :: c in r <==> c in s[..i]
    {
      var p := |r|;
      while p > 0 && r[p - 1].score < s[i].score
        invariant 0 <= p <= |r|
        invariant forall j :: p <= j < |r| ==> r[j].score < s[i].score
      {
        p := p - 1;
      }
      InsertedMembers(r, p, s[i]);
      InsertedDistinct(r, p, s[i]);
      InsertedSorted(r, p, s[i]);
      assert s[..i + 1] == s[..i] + [s[i]];
      r := Insert(r, p, s[i]);
    }
    assert s[..|s|] == s;
  }

  /** Each id of the inputs once, with its total score and the metadata of its first entry. */
  ghost predicate Fused(dense: seq<Chunk>, lexical: seq<Chunk>, k: real, r: seq<Chunk>)
    requires k > 0.0
  {
    && DistinctIds(r)
    && (forall id :: Occurs(r, id) <==> Occurs(dense + lexical, id))
    && (forall c :: c in r ==>
          && Occurs(dense + lexical, c.id)
          && c.source == "rrf" && c.text == First(dense + lexical, c.id).text
          && c.score == Total(dense, lexical, k, c.id))
  }

  /** RRFMerge. */
  method Merge(dense: seq<Chunk>, lexical: seq<Chunk>, k0: real) returns (merged: seq<Chunk>)
    ensures Sorted(merged) && Fused(dense, lexical, if k0 <= 0.0 then 60.0 else k0, merged)
  {
    hide First, Score, Occurs, Sorted, DistinctIds, Fused, Accumulated;
    var k := k0;
    if k <= 0.0 { k := DEFAULT_K; }
    ghost var none := (id: Id) => 0.0;
    ghost var first := (id: Id) => Score(dense, k, id);
    ghost var total := (id: Id) => Total(dense, lexical, k, id);
    NothingSeen(none);
    var acc := ApplyList(map[], dense, k, [], none, first);
    assert [] + dense == dense;
    forall id | !Occurs(dense, id) ensures first(id) == 0.0 { NotSeen([], dense, k, id); }
    acc := ApplyList(acc, lexical, k, dense, first, total);
    KeptUnderId(acc, dense + lexical, total);
    var list := Collect(acc);
    merged := SortByScore(list);
    FusedResult(acc, dense, lexical, k, total, merged);
  }

  lemma KeptUnderId(acc: map<Id, Chunk>, seen: seq<Chunk>, total: Id -> real)
    requires Accumulated(acc, seen, total)
    ensures forall id :: id in acc ==> acc[id].id == id
  {
  }

  lemma NothingSeen(total: Id -> real)
    ensures Accumulated(map[], [], total)
  {
  }

  lemma FusedResult(acc: map<Id, Chunk>, dense: seq<Chunk>, lexical: seq<Chunk>, k: real, total: Id -> real, r: seq<Chunk>)
    requires k > 0.0 && DistinctIds(r) && forall c :: c in r <==> c.id in acc && acc[c.id] == c
    requires Accumulated(acc, dense + lexical, total) && forall id :: total(id) == Total(dense, lexical, k, id)
    ensures Fused(dense, lexical, k, r)
  {
  }

  /** Ranging over the accumulator, in any order. */
  method Collect(acc: map<Id, Chunk>) returns (list: seq<Chunk>)
    requires forall id :: id in acc ==> acc[id].id == id
    ensures DistinctIds(list) && forall c :: c in list <==> c.id in acc && acc[c.id] == c
  {
    list := [];
    var todo := acc.Keys;
    while todo != {}
      invariant todo <= acc.Keys && DistinctIds(list)
      invariant forall c :: c in list <==> c.id in acc && c.id !in todo && acc[c.id] == c
      decreases |todo|
    {
      var id := AnyOf(todo);
      todo := todo - {id};
      list := list + [acc[id]];
    }
  }

  // ---------------------------------------------------------------- the ordering law

  lemma SharesDecrease(k: real, i: nat, j: nat)
    requires k > 0.0 && i < j
    ensures Share(k, i) > Share(k, j)
  {
  }

  /** In a list without duplicates an id scores the reciprocal of k plus its rank. */
  lemma {:induction false} ScoreAt(list: seq<Chunk>, k: real, id: Id, i: nat)
    requires k > 0.0 && DistinctIds(list) && i < |list| && list[i].id == id
    ensures Score(list, k, id) == Share(k, i) == 1.0 / (k + (i + 1) as real)
  {
    var n := |list| - 1;
    if i == n {
      forall c | c in list[..n] ensures c.id != id {
        var j :| 0 <= j < n && list[j] == c;
        assert list[j].id != list[n].id;
      }
      assert [] + list[..n] == list[..n];
      NotSeen([], list[..n], k, id);
    } else {
      ScoreAt(list[..n], k, id, i);
    }
  }

  /** a stands before b in this list, or b does not stand in it. */
  ghost predicate Ahead(list: seq<Chunk>, a: Id, b: Id)
  {
    Occurs(list, b) ==> exists i, j :: 0 <= i < j < |list| && list[i].id == a && list[j].id == b
  }

  lemma AheadScores(list: seq<Chunk>, k: real, a: Id, b: Id)
    requires k > 0.0 && DistinctIds(list) && Ahead(list, a, b)
    ensures Score(list, k, a) >= Score(list, k, b)
    ensures Occurs(list, b) ==> Score(list, k, a) > Score(list, k, b)
  {
    if Occurs(list, b) {
      var i, j :| 0 <= i < j < |list| && list[i].id == a && list[j].id == b;
      ScoreAt(list, k, a, i);
      ScoreAt(list, k, b, j);
      SharesDecrease(k, i, j);
    } else {
      assert [] + list == list;
      NotSeen([], list, k, b);
    }
  }

  /** If a stands before b in every list that has b, then a stands before b in the result. */
  lemma AgreementSurvives(dense: seq<Chunk>, lexical: seq<Chunk>, k: real, r: seq<Chunk>, i: nat, j: nat)
    requires k > 0.0 && DistinctIds(dense) && DistinctIds(lexical)
    requires Fused(dense, lexical, k, r) && Sorted(r)
    requires i < |r| && j < |r| && Ahead(dense, r[i].id, r[j].id) && Ahead(lexical, r[i].id, r[j].id)
    ensures i < j
  {
    var a, b := r[i].id, r[j].id;
    assert r[i] in r && r[j] in r;
    AheadScores(dense, k, a, b);
    AheadScores(lexical, k, a, b);
    var c :| c in dense + lexical && c.id == b;
    assert Occurs(dense, b) || Occurs(lexical, b);
    assert r[i].score > r[j].score;
  }
}
