/** Normalised discounted cumulative gain at a cutoff. The discount 1 / log2(rank + 1) enters
    only as a positive, strictly decreasing sequence of real numbers. */
module Ndcg {

  import opened Collections

  type Discount = nat -> real

  ghost predicate Admissible(disc: Discount)
  {
    && (forall i :: disc(i) > 0.0)
    && (forall i, j :: i < j ==> disc(i) > disc(j))
  }

  function Min(a: int, b: int): int { if a <= b then a else b }

  /** ranked.slice(0, k): a negative cutoff counts from the end. */
  function TopK(ranked: seq<string>, k: int): seq<string>
  {
    if k >= 0 then ranked[..Min(|ranked|, k)]
    else if |ranked| + k <= 0 then [] else ranked[..|ranked| + k]
  }

  function Hits(s: seq<string>, relevant: set<string>): (h: nat)
    ensures h <= |s|
  {
    if s == [] then 0 else Hits(s[..|s| - 1], relevant) + (if s[|s| - 1] in relevant then 1 else 0)
  }

  /** The gain of a ranking: the discounts of the places of relevant results. */
  function Dcg(disc: Discount, s: seq<string>, relevant: set<string>): real
  {
    if s == [] then 0.0
    else
      var n := |s| - 1;
      Dcg(disc, s[..n], relevant) + (if s[n] in relevant then disc(n) else 0.0)
  }

  /** The gain of m relevant results at the top. */
  function Ideal(disc: Discount, m: nat): real
  {
    if m == 0 then 0.0 else Ideal(disc, m - 1) + disc(m - 1)
  }

  function IdealCount(truth: seq<string>, k: int): nat
  {
    if Min(|truth|, k) < 0 then 0 else Min(|truth|, k)
  }

  function Relevant(truth: seq<string>): set<string> { set x | x in truth }

  /** computeNDCG. */
  method Compute(disc: Discount, ranked: seq<string>, truth: seq<string>, k: int) returns (score: real)
    ensures score == Ndcg(disc, ranked, truth, k)
  {
    if |truth| == 0 { return 0.0; }
    var relevant := Relevant(truth);
    var topK := TopK(ranked, k);
    var dcg := 0.0;
    for i := 0 to |topK|
      invariant dcg == Dcg(disc, topK[..i], relevant)
    {
      assert topK[..i + 1][..i] == topK[..i];
      if topK[i] in relevant { dcg := dcg + disc(i); }
    }
    assert topK[..|topK|] == topK;
    var idealCount := Min(|truth|, k);
    var idcg := 0.0;
    var i := 0;
    while i < idealCount
      invariant 0 <= i && (i <= idealCount || i == 0)
      invariant idcg == Ideal(disc, i)
    {
      idcg := idcg + disc(i);
      i := i + 1;
    }
    if idcg == 0.0 { return 0.0; }
    return dcg / idcg;
  }

  function Ndcg(disc: Discount, ranked: seq<string>, truth: seq<string>, k: int): real
  {
    var dcg := Dcg(disc, TopK(ranked, k), Relevant(truth));
    var idcg := Ideal(disc, IdealCount(truth, k));
    if |truth| == 0 || idcg == 0.0 then 0.0 else dcg / idcg
  }

  // ---------------------------------------------------------------- the exchange argument

  lemma {:induction false} IdealPositive(disc: Discount, m: nat)
    requires Admissible(disc)
    ensures Ideal(disc, m) >= 0.0 && (m > 0 ==> Ideal(disc, m) > 0.0)
  {
    if m > 0 { IdealPositive(disc, m - 1); }
  }

  lemma {:induction false} IdealMonotone(disc: Discount, a: nat, b: nat)
    requires Admissible(disc) && a <= b
    ensures Ideal(disc, a) <= Ideal(disc, b) && (a < b ==> Ideal(disc, a) < Ideal(disc, b))
    decreases b
  {
    if a < b { IdealMonotone(disc, a, b - 1); }
  }

  /** Moving the hits to the top only gains: a ranking gains at most what its number of hits
      would gain at the top. */
  lemma {:induction false} HitsAtTopAreBest(disc: Discount, s: seq<string>, relevant: set<string>)
    requires Admissible(disc)
    ensures 0.0 <= Dcg(disc, s, relevant) <= Ideal(disc, Hits(s, relevant))
  {
    if s != [] {
      var n := |s| - 1;
      var h := Hits(s[..n], relevant);
      HitsAtTopAreBest(disc, s[..n], relevant);
      assert h < n ==> disc(n) < disc(h);
    }
  }

  ghost predicate AtTop(s: seq<string>, relevant: set<string>)
  {
    forall i :: 0 <= i < Hits(s, relevant) ==> s[i] in relevant
  }

  lemma AtTopStep(s: seq<string>, relevant: set<string>)
    requires s != []
    ensures var m := s[..|s| - 1];
      AtTop(s, relevant) <==>
        if s[|s| - 1] in relevant then Hits(m, relevant) == |m| else AtTop(m, relevant)
  {
    var n := |s| - 1;
    var m := s[..n];
    var h := Hits(m, relevant);
    if s[n] in relevant {
      if h == n { AllHits(m, relevant); }
      if AtTop(s, relevant) {
        assert forall i :: 0 <= i < h + 1 ==> s[i] in relevant;
        PrefixHits(m, relevant, if h < n then h + 1 else n);
      }
    }
  }

  /** They gain exactly that if and only if they are at the top. */
  lemma {:induction false} OnlyTopIsBest(disc: Discount, s: seq<string>, relevant: set<string>)
    requires Admissible(disc)
    ensures Dcg(disc, s, relevant) == Ideal(disc, Hits(s, relevant)) <==> AtTop(s, relevant)
  {
    if s != [] {
      var n := |s| - 1;
      var h := Hits(s[..n], relevant);
      HitsAtTopAreBest(disc, s[..n], relevant);
      OnlyTopIsBest(disc, s[..n], relevant);
      AtTopStep(s, relevant);
      if s[n] in relevant && h == n {
        AllHits(s[..n], relevant);
        assert AtTop(s[..n], relevant);
      }
      hide AtTop;
      assert h < n ==> disc(n) < disc(h);
    }
  }

  lemma {:induction false} AllHits(s: seq<string>, relevant: set<string>)
    requires Hits(s, relevant) == |s|
    ensures forall i :: 0 <= i < |s| ==> s[i] in relevant
  {
    if s != [] { AllHits(s[..|s| - 1], relevant); }
  }

  lemma {:induction false} PrefixHits(s: seq<string>, relevant: set<string>, m: nat)
    requires m <= |s| && forall i :: 0 <= i < m ==> s[i] in relevant
    ensures Hits(s, relevant) >= m
  {
    if m < |s| { PrefixHits(s[..|s| - 1], relevant, m); }
    else if s != [] { PrefixHits(s[..|s| - 1], relevant, m - 1); }
  }

  function HitSet(s: seq<string>, relevant: set<string>): set<string>
  {
    set x | x in s && x in relevant
  }

  lemma {:induction false} DistinctHits(s: seq<string>, relevant: set<string>)
    requires Distinct(s)
    ensures Hits(s, relevant) == |HitSet(s, relevant)|
  {
    if s == [] {
      assert HitSet(s, relevant) == {};
    } else {
      var n := |s| - 1;
      DistinctHits(s[..n], relevant);
      assert s == s[..n] + [s[n]];
      assert s[n] !in s[..n];
      if s[n] in relevant {
        assert HitSet(s, relevant) == HitSet(s[..n], relevant) + {s[n]};
      } else {
        assert HitSet(s, relevant) == HitSet(s[..n], relevant);
      }
    }
  }

  lemma {:induction false} SetOfSeq(s: seq<string>)
    ensures |Relevant(s)| <= |s|
  {
    if s == [] {
      assert Relevant(s) == {};
    } else {
      var n := |s| - 1;
      SetOfSeq(s[..n]);
      assert s == s[..n] + [s[n]];
      assert Relevant(s) == Relevant(s[..n]) + {s[n]};
    }
  }

  lemma Subsets(a: set<string>, b: set<string>)
    requires a <= b
    ensures |a| <= |b|
  {
    assert b == a + (b - a);
  }

  /** A ranking without duplicates has no more hits than the ideal ranking. */
  lemma DistinctIsFine(ranked: seq<string>, truth: seq<string>, k: int)
    requires Distinct(ranked) && k >= 0
    ensures Hits(TopK(ranked, k), Relevant(truth)) <= IdealCount(truth, k)
  {
    var top := TopK(ranked, k);
    DistinctHits(top, Relevant(truth));
    Subsets(HitSet(top, Relevant(truth)), Relevant(truth));
    SetOfSeq(truth);
  }

  // ---------------------------------------------------------------- main results

  /** With no more hits than the ideal ranking, the score lies between 0 and 1, and is 1 exactly
      when the first min(|truth|, k) results are all relevant. */
  lemma Bounded(disc: Discount, ranked: seq<string>, truth: seq<string>, k: int)
    requires Admissible(disc) && k >= 1 && |truth| > 0
    requires Hits(TopK(ranked, k), Relevant(truth)) <= IdealCount(truth, k)
    ensures 0.0 <= Ndcg(disc, ranked, truth, k) <= 1.0
    ensures Ndcg(disc, ranked, truth, k) == 1.0 <==>
      |ranked| >= IdealCount(truth, k) && forall i :: 0 <= i < IdealCount(truth, k) ==> ranked[i] in Relevant(truth)
  {
    var top, rel, m := TopK(ranked, k), Relevant(truth), IdealCount(truth, k);
    var h := Hits(top, rel);
    HitsAtTopAreBest(disc, top, rel);
    OnlyTopIsBest(disc, top, rel);
    IdealMonotone(disc, h, m);
    IdealPositive(disc, m);
    var d, g := Dcg(disc, top, rel), Ideal(disc, m);
    Quotient(d, g);
    if |ranked| >= m && forall i :: 0 <= i < m ==> ranked[i] in rel {
      PrefixHits(top, rel, m);
    }
    if d == g {
      assert h == m;
    }
  }

  lemma Quotient(d: real, g: real)
    requires d >= 0.0 && g > 0.0
    ensures d / g >= 0.0 && (d / g <= 1.0 <==> d <= g) && (d / g == 1.0 <==> d == g)
  {
  }

  /** The case the evaluation relies on: duplicate-free rankings, every cutoff and ground truth. */
  lemma BoundedForDistinct(disc: Discount, ranked: seq<string>, truth: seq<string>, k: int)
    requires Admissible(disc) && Distinct(ranked)
    ensures 0.0 <= Ndcg(disc, ranked, truth, k) <= 1.0
    ensures k <= 0 || |truth| == 0 ==> Ndcg(disc, ranked, truth, k) == 0.0
  {
    if k >= 1 && |truth| > 0 {
      DistinctIsFine(ranked, truth, k);
      Bounded(disc, ranked, truth, k);
    }
  }

  // ---------------------------------------------------------------- rankings with duplicates

  /** An admissible discount that hardly decreases: 1 + 1 / (n (i + 1)). */
  function Flat(n: nat): Discount
    requires n > 0
  {
    (i: nat) => 1.0 + 1.0 / ((n * (i + 1)) as real)
  }

  lemma FlatDecreases(n: nat, i: nat, j: nat)
    requires n > 0 && i < j
    ensures Flat(n)(i) > Flat(n)(j)
  {
  }

  lemma FlatBound(n: nat, i: nat)
    requires n > 0
    ensures 1.0 < Flat(n)(i) <= 1.0 + 1.0 / (n as real)
  {
  }

  lemma FlatAdmissible(n: nat)
    requires n > 0
    ensures Admissible(Flat(n))
  {
    forall i: nat ensures Flat(n)(i) > 0.0 { FlatBound(n, i); }
    forall i: nat, j: nat | i < j ensures Flat(n)(i) > Flat(n)(j) { FlatDecreases(n, i, j); }
  }

  lemma {:induction false} FlatGain(n: nat, s: seq<string>, relevant: set<string>)
    requires n > 0
    ensures Dcg(Flat(n), s, relevant) >= Hits(s, relevant) as real
  {
    if s != [] {
      FlatBound(n, |s| - 1);
      FlatGain(n, s[..|s| - 1], relevant);
    }
  }

  lemma {:induction false} FlatIdeal(n: nat, m: nat)
    requires n > 0
    ensures Ideal(Flat(n), m) <= m as real + m as real / (n as real)
  {
    if m > 0 {
      FlatBound(n, m - 1);
      FlatIdeal(n, m - 1);
      assert m as real / (n as real) == (m - 1) as real / (n as real) + 1.0 / (n as real);
    }
  }

  /** Exactly when the bound holds whatever the discount: the cut ranking has no more hits than
      the ideal one, or the score is 0 anyway. Repeated relevant ids can break that. */
  lemma BoundIff(ranked: seq<string>, truth: seq<string>, k: int)
    ensures (forall disc: Discount :: Admissible(disc) ==> Ndcg(disc, ranked, truth, k) <= 1.0)
      <==> k < 1 || |truth| == 0 || Hits(TopK(ranked, k), Relevant(truth)) <= IdealCount(truth, k)
  {
    if k >= 1 && |truth| > 0 {
      if Hits(TopK(ranked, k), Relevant(truth)) <= IdealCount(truth, k) {
        forall disc: Discount | Admissible(disc) ensures Ndcg(disc, ranked, truth, k) <= 1.0 {
          Bounded(disc, ranked, truth, k);
        }
      } else {
        TooManyHits(ranked, truth, k);
      }
    }
  }

  /** What the hits of s at places a to b - 1 gain. */
  function Gained(disc: Discount, s: seq<string>, relevant: set<string>, a: nat, b: nat): real
  {
    if a >= b then 0.0
    else Gained(disc, s, relevant, a, b - 1) + (if b - 1 < |s| && s[b - 1] in relevant then disc(b - 1) else 0.0)
  }

  /** What the places below m that hold no hit would have gained. */
  function Wasted(disc: Discount, s: seq<string>, relevant: set<string>, m: nat): real
  {
    if m == 0 then 0.0
    else Wasted(disc, s, relevant, m - 1) + (if m - 1 < |s| && s[m - 1] in relevant then 0.0 else disc(m - 1))
  }

  lemma {:induction false} DcgIsGained(disc: Discount, s: seq<string>, relevant: set<string>, n: nat)
    requires n <= |s|
    ensures Dcg(disc, s[..n], relevant) == Gained(disc, s, relevant, 0, n)
  {
    if n > 0 {
      assert s[..n][..n - 1] == s[..n - 1];
      DcgIsGained(disc, s, relevant, n - 1);
    }
  }

  lemma {:induction false} GainedSplit(disc: Discount, s: seq<string>, relevant: set<string>, m: nat, n: nat)
    requires m <= n
    ensures Gained(disc, s, relevant, 0, n) == Gained(disc, s, relevant, 0, m) + Gained(disc, s, relevant, m, n)
    decreases n
  {
    if m < n { GainedSplit(disc, s, relevant, m, n - 1); }
  }

  lemma {:induction false} GainedNothing(disc: Discount, s: seq<string>, relevant: set<string>, a: nat, b: nat)
    requires |s| <= a
    ensures Gained(disc, s, relevant, a, b) == 0.0
  {
    if a < b { GainedNothing(disc, s, relevant, a, b - 1); }
  }

  lemma {:induction false} IdealSplit(disc: Discount, s: seq<string>, relevant: set<string>, m: nat)
    ensures Gained(disc, s, relevant, 0, m) + Wasted(disc, s, relevant, m) == Ideal(disc, m)
  {
    if m > 0 { IdealSplit(disc, s, relevant, m - 1); }
  }

  /** The gain of a ranking, measured against the ideal of m. */
  lemma Balance(disc: Discount, s: seq<string>, relevant: set<string>, m: nat)
    ensures Dcg(disc, s, relevant) + Wasted(disc, s, relevant, m) == Ideal(disc, m) + Gained(disc, s, relevant, m, |s|)
  {
    assert s[..|s|] == s;
    DcgIsGained(disc, s, relevant, |s|);
    IdealSplit(disc, s, relevant, m);
    if m <= |s| {
      GainedSplit(disc, s, relevant, m, |s|);
    } else {
      GainedSplit(disc, s, relevant, |s|, m);
      GainedNothing(disc, s, relevant, |s|, m);
    }
  }

  /** For each single discount, the source's own included: the score is at most 1 if and only if the
      hits beyond the ideal places gain no more than the places among them without a hit waste. */
  lemma BoundForOneDiscount(disc: Discount, ranked: seq<string>, truth: seq<string>, k: int)
    requires Admissible(disc)
    ensures var top, rel, m := TopK(ranked, k), Relevant(truth), IdealCount(truth, k);
      Ndcg(disc, ranked, truth, k) <= 1.0 <==>
        k < 1 || |truth| == 0 || Gained(disc, top, rel, m, |top|) <= Wasted(disc, top, rel, m)
  {
    if k >= 1 && |truth| > 0 {
      var top, rel, m := TopK(ranked, k), Relevant(truth), IdealCount(truth, k);
      Balance(disc, top, rel, m);
      HitsAtTopAreBest(disc, top, rel);
      IdealPositive(disc, m);
      Quotient(Dcg(disc, top, rel), Ideal(disc, m));
    }
  }

  lemma TooManyHits(ranked: seq<string>, truth: seq<string>, k: int)
    requires k >= 1 && |truth| > 0
    requires Hits(TopK(ranked, k), Relevant(truth)) > IdealCount(truth, k)
    ensures Admissible(Flat(IdealCount(truth, k) + 1))
    ensures Ndcg(Flat(IdealCount(truth, k) + 1), ranked, truth, k) > 1.0
  {
    var top, rel, m := TopK(ranked, k), Relevant(truth), IdealCount(truth, k);
    var disc := Flat(m + 1);
    FlatAdmissible(m + 1);
    FlatGain(m + 1, top, rel);
    FlatIdeal(m + 1, m);
    IdealPositive(disc, m);
    Below(m);
    var d, g := Dcg(disc, top, rel), Ideal(disc, m);
    hide Dcg, Ideal, Flat, Hits;
    assert d > g;
    Quotient(d, g);
  }

  lemma Below(m: nat)
    ensures m as real / ((m + 1) as real) < 1.0
  {
  }

  /** The same relevant result listed twice scores above 1 under every discount. */
  lemma DuplicateExample(disc: Discount, id: string)
    requires Admissible(disc)
    ensures Ndcg(disc, [id, id], [id], 2) > 1.0
  {
    var s := [id, id];
    assert TopK(s, 2) == s && s[..1] == [id] && [id][..0] == [];
    assert Relevant([id]) == {id};
    assert Dcg(disc, [id], {id}) == disc(0);
    assert Dcg(disc, s, {id}) == disc(0) + disc(1);
    assert Ideal(disc, 1) == disc(0);
    Quotient(disc(0) + disc(1), disc(0));
  }
}
