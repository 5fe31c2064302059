/** Token budgeting: the three sections of the context block are filled greedily in score order.
    The selection is characterised as the one maximal greedy choice, and the sections together
    never charge more than the total. Scores and shares are real numbers. */
module PromptBudget {

  // ---------------------------------------------------------------- ranking

  predicate Before<T>(items: seq<T>, score: T -> real, a: nat, b: nat)
    requires a < |items| && b < |items|
  {
    score(items[a]) > score(items[b]) || (score(items[a]) == score(items[b]) && a < b)
  }

  /** order lists the indices of all items by falling score, ties by original position: the
      result of a stable sort. */
  ghost predicate Ranked<T>(items: seq<T>, score: T -> real, order: seq<nat>)
  {
    && |order| == |items|
    && (forall i :: 0 <= i < |order| ==> order[i] < |items|)
    && (forall x :: 0 <= x < |items| ==> x in order)
    && (forall i, j :: 0 <= i < j < |order| ==> Before(items, score, order[i], order[j]))
  }

  function InsertAt(s: seq<nat>, p: nat, x: nat): (r: seq<nat>)
    requires p <= |s|
    ensures |r| == |s| + 1
  {
    seq(|s| + 1, i requires 0 <= i <= |s| => if i < p then s[i] else if i == p then x else s[i - 1])
  }

  ghost predicate PartlyRanked<T>(items: seq<T>, score: T -> real, n: nat, order: seq<nat>)
    requires n <= |items|
  {
    && |order| == n
    && (forall i :: 0 <= i < n ==> order[i] < n)
    && (forall x :: 0 <= x < n ==> x in order)
    && (forall i, j :: 0 <= i < j < n ==> Before(items, score, order[i], order[j]))
  }

  lemma InsertRanked<T>(items: seq<T>, score: T -> real, n: nat, order: seq<nat>, p: nat)
    requires n < |items| && PartlyRanked(items, score, n, order) && p <= n
    requires p > 0 ==> score(items[order[p - 1]]) >= score(items[n])
    requires forall j :: p <= j < n ==> score(items[order[j]]) < score(items[n])
    ensures PartlyRanked(items, score, n + 1, InsertAt(order, p, n))
  {
    var r := InsertAt(order, p, n);
    forall i, j | 0 <= i < j < n + 1 ensures Before(items, score, r[i], r[j]) {
      if j == p && i < p - 1 { assert Before(items, score, order[i], order[p - 1]); }
    }
    forall x | 0 <= x < n + 1 ensures x in r {
      if x < n {
        assert x in order;
        var k :| 0 <= k < |order| && order[k] == x;
        assert r[if k < p then k else k + 1] == x;
      } else {
        assert r[p] == x;
      }
    }
  }

  /** sort.SliceStable by falling score, on indices. */
  method SortStable<T>(items: seq<T>, score: T -> real) returns (order: seq<nat>)
    ensures Ranked(items, score, order)
  {
    order := [];
    for n := 0 to |items|
      invariant PartlyRanked(items, score, n, order)
    {
      var p := n;
      while p > 0 && score(items[order[p - 1]]) < score(items[n])
        invariant 0 <= p <= n
        invariant forall j :: p <= j < n ==> score(items[order[j]]) < score(items[n])
      {
        p := p - 1;
      }
      InsertRanked(items, score, n, order, p);
      order := InsertAt(order, p, n);
    }
  }

  /** There is only one ranking. */
  lemma {:induction false} RankedUnique<T>(items: seq<T>, score: T -> real, a: seq<nat>, b: seq<nat>, k: nat)
    requires Ranked(items, score, a) && Ranked(items, score, b) && k <= |items|
    ensures a[..k] == b[..k]
  {
    if k > 0 {
      RankedUnique(items, score, a, b, k - 1);
      var m := k - 1;
      assert b[m] in a && a[m] in b;
      var i :| 0 <= i < |a| && a[i] == b[m];
      var j :| 0 <= j < |b| && b[j] == a[m];
      assert forall x :: 0 <= x < m ==> a[x] == a[..m][x] == b[..m][x] == b[x];
      assert i >= m && j >= m;
      assert a[m] == b[m];
      assert a[..k] == a[..m] + [a[m]] && b[..k] == b[..m] + [b[m]];
    }
  }

  // ---------------------------------------------------------------- greedy selection

  /** What the kept items among the first n cost. */
  function Used(costs: seq<nat>, keep: seq<bool>, n: nat): nat
    requires n <= |costs| && |keep| >= n
  {
    if n == 0 then 0 else Used(costs, keep, n - 1) + (if keep[n - 1] then costs[n - 1] else 0)
  }

  lemma UsedStep(costs: seq<nat>, keep: seq<bool>, n: nat)
    requires 0 < n <= |costs| && |keep| >= n
    ensures Used(costs, keep, n) == Used(costs, keep, n - 1) + (if keep[n - 1] then costs[n - 1] else 0)
  {
  }

  lemma UsedNone(costs: seq<nat>, keep: seq<bool>)
    ensures Used(costs, keep, 0) == 0
  {
  }

  /** Every item is kept exactly when it fits beside the kept items ranked before it. */
  ghost predicate Greedy(costs: seq<nat>, budget: int, keep: seq<bool>)
  {
    && |keep| == |costs|
    && forall i :: 0 <= i < |costs| ==> (keep[i] <==> Used(costs, keep, i) + costs[i] <= budget)
  }

  function Select<T>(xs: seq<T>, keep: seq<bool>): seq<T>
    requires |keep| == |xs|
  {
    if xs == [] then []
    else
      var n := |xs| - 1;
      Select(xs[..n], keep[..n]) + (if keep[n] then [xs[n]] else [])
  }

  function Arranged<T>(items: seq<T>, order: seq<nat>): (r: seq<T>)
    requires forall i :: 0 <= i < |order| ==> order[i] < |items|
    ensures |r| == |order|
  {
    seq(|order|, i requires 0 <= i < |order| => items[order[i]])
  }

  function Costs<T>(xs: seq<T>, cost: T -> nat): (r: seq<nat>)
    ensures |r| == |xs|
  {
    seq(|xs|, i requires 0 <= i < |xs| => cost(xs[i]))
  }

  lemma {:induction false} UsedPrefix(costs: seq<nat>, a: seq<bool>, b: seq<bool>, n: nat)
    requires n <= |costs| && n <= |a| && n <= |b| && a[..n] == b[..n]
    ensures Used(costs, a, n) == Used(costs, b, n)
  {
    if n > 0 {
      assert a[..n][n - 1] == b[..n][n - 1];
      assert a[..n - 1] == a[..n][..n - 1] && b[..n - 1] == b[..n][..n - 1];
      UsedPrefix(costs, a, b, n - 1);
    }
  }

  lemma {:induction false} UsedGrows(costs: seq<nat>, keep: seq<bool>, m: nat, n: nat)
    requires m <= n <= |costs| && n <= |keep|
    ensures Used(costs, keep, m) <= Used(costs, keep, n)
    decreases n
  {
    if m < n { UsedGrows(costs, keep, m, n - 1); }
  }

  /** The charged tokens fit. */
  lemma {:induction false} GreedyFits(costs: seq<nat>, budget: int, keep: seq<bool>, n: nat)
    requires Greedy(costs, budget, keep) && n <= |costs| && budget >= 0
    ensures Used(costs, keep, n) <= budget
  {
    hide Used;
    UsedNone(costs, keep);
    if n > 0 {
      GreedyFits(costs, budget, keep, n - 1);
      UsedStep(costs, keep, n);
    }
  }

  /** Against any other selection that fits, the greedy one keeps the better-ranked item where
      the two first differ; in particular it is the only greedy one. */
  lemma GreedyIsBest(costs: seq<nat>, budget: int, keep: seq<bool>, other: seq<bool>, i: nat)
    requires Greedy(costs, budget, keep) && |other| == |costs| && Used(costs, other, |costs|) <= budget
    requires i < |costs| && keep[..i] == other[..i] && keep[i] != other[i]
    ensures keep[i]
  {
    hide Used;
    UsedPrefix(costs, keep, other, i);
    UsedStep(costs, other, i + 1);
    UsedGrows(costs, other, i + 1, |costs|);
  }

  lemma SelectStep<T>(xs: seq<T>, i: nat, keep: seq<bool>, b: bool)
    requires i < |xs| && |keep| == i
    ensures Select(xs[..i + 1], keep + [b]) == Select(xs[..i], keep) + (if b then [xs[i]] else [])
  {
    assert xs[..i + 1][..i] == xs[..i] && (keep + [b])[..i] == keep;
  }

  ghost predicate GreedySoFar(costs: seq<nat>, budget: int, keep: seq<bool>)
  {
    && |keep| <= |costs|
    && forall i :: 0 <= i < |keep| ==> (keep[i] <==> Used(costs, keep, i) + costs[i] <= budget)
  }

  lemma GreedyStep(costs: seq<nat>, budget: int, keep: seq<bool>, b: bool)
    requires GreedySoFar(costs, budget, keep) && |keep| < |costs|
    requires b <==> Used(costs, keep, |keep|) + costs[|keep|] <= budget
    ensures GreedySoFar(costs, budget, keep + [b])
    ensures Used(costs, keep + [b], |keep| + 1)
         == Used(costs, keep, |keep|) + (if b then costs[|keep|] else 0)
  {
    hide Used;
    var more := keep + [b];
    UsedStep(costs, more, |more|);
    forall i | 0 <= i <= |keep| ensures Used(costs, more, i) == Used(costs, keep, i) {
      assert more[..i] == keep[..i];
      UsedPrefix(costs, more, keep, i);
    }
  }

  lemma {:induction false} NoneKept<T>(xs: seq<T>, costs: seq<nat>, keep: seq<bool>, n: nat)
    requires |keep| == |costs| == |xs| && n <= |xs| && forall i :: 0 <= i < |keep| ==> !keep[i]
    ensures Used(costs, keep, n) == 0 && Select(xs[..n], keep[..n]) == []
  {
    if n > 0 {
      NoneKept(xs, costs, keep, n - 1);
      assert xs[..n][..n - 1] == xs[..n - 1] && keep[..n][..n - 1] == keep[..n - 1];
    }
  }

  /** trimChunks, trimSymbols and trimFindings, which differ only in what an item costs; in each
      of them an item costs something. */
  method Trim<T(!new)>(items: seq<T>, budget: int, score: T -> real, cost: T -> nat)
    returns (out: seq<T>)
    requires forall x :: cost(x) > 0
    ensures TrimmedTo(items, budget, score, cost, out)
  {
    var ranked := SortStable(items, score);
    if |items| == 0 || budget <= 0 {
      TrimsToNothing(items, budget, score, cost, ranked);
      return [];
    }
    hide Ranked, Used, Select, TrimmedTo;
    assert forall i :: 0 <= i < |ranked| ==> ranked[i] < |items| by { RankedBounds(items, score, ranked); }
    ghost var xs := Arranged(items, ranked);
    ghost var costs := Costs(xs, cost);
    ghost var keep: seq<bool> := [];
    out := [];
    var used := 0;
    UsedNone(costs, keep);
    SelectNone(xs);
    for i := 0 to |ranked|
      invariant |keep| == i && used == Used(costs, keep, i)
      invariant GreedySoFar(costs, budget, keep)
      invariant out == Select(xs[..i], keep)
    {
      var c := items[ranked[i]];
      var t := cost(c);
      ghost var b := used + t <= budget;
      GreedyStep(costs, budget, keep, b);
      SelectStep(xs, i, keep, b);
      keep := keep + [b];
      if used + t > budget { continue; }
      used := used + t;
      out := out + [c];
    }
    Finished(items, budget, score, cost, out, ranked, keep);
  }

  lemma RankedBounds<T>(items: seq<T>, score: T -> real, order: seq<nat>)
    requires Ranked(items, score, order)
    ensures |order| == |items| && forall i :: 0 <= i < |order| ==> order[i] < |items|
  {
  }

  lemma SelectNone<T>(xs: seq<T>)
    ensures Select(xs[..0], []) == []
  {
  }

  lemma Finished<T>(items: seq<T>, budget: int, score: T -> real, cost: T -> nat,
                    out: seq<T>, order: seq<nat>, keep: seq<bool>)
    requires Ranked(items, score, order) && |keep| == |items|
    requires var xs := Arranged(items, order);
      GreedySoFar(Costs(xs, cost), budget, keep) && out == Select(xs[..|xs|], keep)
    ensures TrimmedTo(items, budget, score, cost, out)
  {
    hide Used, Select;
    var xs := Arranged(items, order);
    assert xs[..|xs|] == xs;
    assert Trimmed(items, budget, score, cost, out, order, keep);
  }

  lemma TrimsToNothing<T(!new)>(items: seq<T>, budget: int, score: T -> real, cost: T -> nat, order: seq<nat>)
    requires Ranked(items, score, order) && (|items| == 0 || budget <= 0) && forall x :: cost(x) > 0
    ensures TrimmedTo(items, budget, score, cost, [])
  {
    var xs := Arranged(items, order);
    var costs := Costs(xs, cost);
    var keep := seq(|items|, i => false);
    hide Ranked;
    forall i | 0 <= i <= |items| ensures Used(costs, keep, i) == 0 { NoneKept(xs, costs, keep, i); }
    NoneKept(xs, costs, keep, |items|);
    hide Used, Select;
    assert xs[..|items|] == xs && keep[..|items|] == keep;
    assert Trimmed(items, budget, score, cost, [], order, keep);
  }

  /** out is the greedy selection from the items in stable score order. */
  ghost predicate Trimmed<T>(items: seq<T>, budget: int, score: T -> real, cost: T -> nat,
                             out: seq<T>, order: seq<nat>, keep: seq<bool>)
  {
    && Ranked(items, score, order)
    && Greedy(Costs(Arranged(items, order), cost), budget, keep)
    && out == Select(Arranged(items, order), keep)
  }

  ghost predicate TrimmedTo<T>(items: seq<T>, budget: int, score: T -> real, cost: T -> nat, out: seq<T>)
  {
    exists order, keep :: Trimmed(items, budget, score, cost, out, order, keep)
  }

  function Charge<T>(xs: seq<T>, cost: T -> nat): nat
  {
    if xs == [] then 0 else Charge(xs[..|xs| - 1], cost) + cost(xs[|xs| - 1])
  }

  /** What the kept items cost is what was charged while selecting them. */
  lemma {:induction false} ChargeOfSelection<T>(xs: seq<T>, cost: T -> nat, keep: seq<bool>, n: nat)
    requires |keep| == |xs| && n <= |xs|
    ensures Charge(Select(xs[..n], keep[..n]), cost) == Used(Costs(xs, cost), keep, n)
  {
    if n > 0 {
      ChargeOfSelection(xs, cost, keep, n - 1);
      assert xs[..n][..n - 1] == xs[..n - 1] && keep[..n][..n - 1] == keep[..n - 1];
      var kept := Select(xs[..n - 1], keep[..n - 1]);
      if keep[n - 1] {
        assert (kept + [xs[n - 1]])[..|kept|] == kept;
      } else {
        assert kept + [] == kept;
      }
    }
  }

  lemma TrimmedFits<T>(items: seq<T>, budget: int, score: T -> real, cost: T -> nat, out: seq<T>)
    requires TrimmedTo(items, budget, score, cost, out) && budget >= 0
    ensures Charge(out, cost) <= budget
  {
    var order, keep :| Trimmed(items, budget, score, cost, out, order, keep);
    var xs := Arranged(items, order);
    GreedyFits(Costs(xs, cost), budget, keep, |xs|);
    ChargeOfSelection(xs, cost, keep, |xs|);
    assert xs[..|xs|] == xs && keep[..|xs|] == keep;
  }

  // ---------------------------------------------------------------- a lower item can survive

  /** No item is kept that is ranked below a dropped one. */
  ghost predicate DropsLowestOnly(keep: seq<bool>)
  {
    forall i, j :: 0 <= i < j < |keep| && keep[j] ==> keep[i]
  }

  /** The first item that does not fit beside all items ranked before it, or their number. */
  function Misfit(costs: seq<nat>, budget: int, sum: nat): (p: nat)
    ensures p <= |costs|
  {
    if costs == [] || sum + costs[0] > budget then 0 else 1 + Misfit(costs[1..], budget, sum + costs[0])
  }

  function Sum(costs: seq<nat>): nat
  {
    if costs == [] then 0 else Sum(costs[..|costs| - 1]) + costs[|costs| - 1]
  }

  lemma SumAppend(costs: seq<nat>, c: nat)
    ensures Sum(costs + [c]) == Sum(costs) + c
  {
  }

  lemma SumNone()
    ensures Sum([]) == 0
  {
  }

  lemma {:induction false} MisfitSums(costs: seq<nat>, budget: int, before: seq<nat>)
    ensures var p := Misfit(costs, budget, Sum(before));
      && (forall k :: 0 <= k < p ==> Sum(before + costs[..k]) + costs[k] <= budget)
      && (p < |costs| ==> Sum(before + costs[..p]) + costs[p] > budget)
    decreases |costs|
  {
    hide Sum;
    assert before + costs[..0] == before;
    if costs != [] && Sum(before) + costs[0] <= budget {
      var more, rest := before + [costs[0]], costs[1..];
      SumAppend(before, costs[0]);
      MisfitSums(rest, budget, more);
      var q := Misfit(rest, budget, Sum(more));
      assert Misfit(costs, budget, Sum(before)) == q + 1;
      forall k | 0 <= k <= q ensures before + costs[..k + 1] == more + rest[..k] { }
      hide Misfit;
      forall k | 0 <= k < q + 1 ensures Sum(before + costs[..k]) + costs[k] <= budget {
        if k > 0 { assert before + costs[..k] == more + rest[..k - 1]; }
      }
    }
  }

  lemma {:induction false} AllKeptSum(costs: seq<nat>, keep: seq<bool>, n: nat)
    requires n <= |costs| && |keep| == |costs| && forall i :: 0 <= i < n ==> keep[i]
    ensures Used(costs, keep, n) == Sum(costs[..n])
  {
    if n > 0 {
      AllKeptSum(costs, keep, n - 1);
      assert costs[..n][..n - 1] == costs[..n - 1];
    }
  }

  lemma {:induction false} KeptBeforeMisfit(costs: seq<nat>, budget: int, keep: seq<bool>, k: nat)
    requires Greedy(costs, budget, keep) && k <= Misfit(costs, budget, 0)
    ensures forall i :: 0 <= i < k ==> keep[i]
  {
    hide Used, Sum, Misfit;
    SumNone();
    if k > 0 {
      KeptBeforeMisfit(costs, budget, keep, k - 1);
      AllKeptSum(costs, keep, k - 1);
      MisfitSums(costs, budget, []);
      assert [] + costs[..k - 1] == costs[..k - 1];
    }
  }

  lemma {:induction false} NothingAfter(costs: seq<nat>, budget: int, keep: seq<bool>, p: nat, n: nat)
    requires Greedy(costs, budget, keep) && p <= n <= |costs|
    requires forall j :: p <= j < |costs| ==> Used(costs, keep, p) + costs[j] > budget
    ensures Used(costs, keep, n) == Used(costs, keep, p) && forall j :: p <= j < n ==> !keep[j]
    decreases n
  {
    hide Used;
    if n > p {
      NothingAfter(costs, budget, keep, p, n - 1);
      UsedStep(costs, keep, n);
    }
  }

  /** Only lowest-ranked items are dropped, as the comments say, exactly when no item after the
      first misfit would fit in the room left before it. */
  lemma DropsLowestIff(costs: seq<nat>, budget: int, keep: seq<bool>)
    requires Greedy(costs, budget, keep)
    ensures var p := Misfit(costs, budget, 0);
      DropsLowestOnly(keep) <==> forall j :: p <= j < |costs| ==> Sum(costs[..p]) + costs[j] > budget
  {
    hide *;
    var p := Misfit(costs, budget, 0);
    MisfitDropped(costs, budget, keep);
    if forall j :: p <= j < |costs| ==> Sum(costs[..p]) + costs[j] > budget {
      NothingAfter(costs, budget, keep, p, |costs|);
      CutAtIsLowest(keep, p);
    }
    if DropsLowestOnly(keep) {
      forall j | p <= j < |costs| ensures Sum(costs[..p]) + costs[j] > budget {
        NothingSmaller(costs, budget, keep, p, j);
      }
    }
  }

  /** All before the first misfit is kept, and the misfit itself is not. */
  lemma MisfitDropped(costs: seq<nat>, budget: int, keep: seq<bool>)
    requires Greedy(costs, budget, keep)
    ensures var p := Misfit(costs, budget, 0);
      && |keep| == |costs| && p <= |costs| && Used(costs, keep, p) == Sum(costs[..p])
      && (forall i :: 0 <= i < p ==> keep[i]) && (p < |costs| ==> !keep[p])
  {
    hide Used, Sum, Misfit;
    SumNone();
    var p := Misfit(costs, budget, 0);
    KeptBeforeMisfit(costs, budget, keep, p);
    AllKeptSum(costs, keep, p);
    MisfitSums(costs, budget, []);
    assert [] + costs[..p] == costs[..p];
  }

  lemma CutAtIsLowest(keep: seq<bool>, p: nat)
    requires p <= |keep| && (forall i :: 0 <= i < p ==> keep[i]) && forall i :: p <= i < |keep| ==> !keep[i]
    ensures DropsLowestOnly(keep)
  {
  }

  lemma NothingSmaller(costs: seq<nat>, budget: int, keep: seq<bool>, p: nat, j: nat)
    requires Greedy(costs, budget, keep) && DropsLowestOnly(keep) && p <= j < |costs| && !keep[p]
    ensures Used(costs, keep, p) + costs[j] > budget
  {
    hide Used;
    assert forall k :: p <= k < |costs| ==> !keep[k];
    NoneBetween(costs, keep, p, j);
  }

  lemma {:induction false} NoneBetween(costs: seq<nat>, keep: seq<bool>, p: nat, n: nat)
    requires p <= n <= |costs| && |keep| == |costs| && forall k :: p <= k < n ==> !keep[k]
    ensures Used(costs, keep, n) == Used(costs, keep, p)
    decreases n
  {
    hide Used;
    if n > p {
      NoneBetween(costs, keep, p, n - 1);
      UsedStep(costs, keep, n);
    }
  }

  // ---------------------------------------------------------------- the three sections

  datatype ScoredChunk = ScoredChunk(filePath: string, content: string, score: real)
  datatype ScoredSymbol = ScoredSymbol(name: string, signature: string, filePath: string, score: real)
  datatype ScoredFinding = ScoredFinding(message: string, rule: string, filePath: string, score: real)

  datatype RetrievalResult = RetrievalResult(
    chunks: seq<ScoredChunk>, symbols: seq<ScoredSymbol>, findings: seq<ScoredFinding>)

  type Counter = string -> nat

  function ChunkTokens(count: Counter, c: ScoredChunk): nat
  {
    count(c.content) + count(c.filePath) + 8
  }

  function ChunkCost(count: Counter): ScoredChunk -> nat { (c: ScoredChunk) => ChunkTokens(count, c) }

  function SymbolTokens(count: Counter, s: ScoredSymbol): nat
  {
    count(s.name) + count(s.signature) + count(s.filePath) + 4
  }

  function SymbolCost(count: Counter): ScoredSymbol -> nat { (s: ScoredSymbol) => SymbolTokens(count, s) }

  function FindingTokens(count: Counter, f: ScoredFinding): nat
  {
    count(f.message) + count(f.rule) + count(f.filePath) + 6
  }

  function FindingCost(count: Counter): ScoredFinding -> nat { (f: ScoredFinding) => FindingTokens(count, f) }

  const CHUNK_SHARE: real := 0.60
  const SYMBOL_SHARE: real := 0.25
  const FINDING_SHARE: real := 0.15

  function Share(total: nat, share: real): (b: nat)
    requires share >= 0.0
  {
    var x := total as real * share;
    assert x >= 0.0;
    x.Floor
  }

  /** The shares are 60, 25 and 15 percent, rounded down. */
  lemma SharesAre(total: nat)
    ensures Share(total, CHUNK_SHARE) == total * 60 / 100
    ensures Share(total, SYMBOL_SHARE) == total * 25 / 100
    ensures Share(total, FINDING_SHARE) == total * 15 / 100
  {
  }

  lemma SharesFit(total: nat)
    ensures total * 60 / 100 + total * 25 / 100 + total * 15 / 100 <= total
  {
  }

  /** Allocate: the three sections together never charge more than the total, which is the
      configured limit when the caller gives none. */
  method Allocate(totalTokens: int, envLimit: nat, rr: RetrievalResult, count: Counter) returns (out: RetrievalResult)
    ensures var total: nat := if totalTokens <= 0 then envLimit else totalTokens;
      && TrimmedTo(rr.chunks, total * 60 / 100, (c: ScoredChunk) => c.score, ChunkCost(count), out.chunks)
      && TrimmedTo(rr.symbols, total * 25 / 100, (s: ScoredSymbol) => s.score, SymbolCost(count), out.symbols)
      && TrimmedTo(rr.findings, total * 15 / 100, (f: ScoredFinding) => f.score, FindingCost(count), out.findings)
      && Charge(out.chunks, ChunkCost(count)) + Charge(out.symbols, SymbolCost(count))
         + Charge(out.findings, FindingCost(count)) <= total
  {
    hide TrimmedTo, Charge, Share;
    var total: nat := if totalTokens <= 0 then envLimit else totalTokens;
    SharesAre(total);
    SharesFit(total);
    var cs := Trim(rr.chunks, Share(total, CHUNK_SHARE), (c: ScoredChunk) => c.score, ChunkCost(count));
    var ss := Trim(rr.symbols, Share(total, SYMBOL_SHARE), (s: ScoredSymbol) => s.score, SymbolCost(count));
    var fs := Trim(rr.findings, Share(total, FINDING_SHARE), (f: ScoredFinding) => f.score, FindingCost(count));
    TrimmedFits(rr.chunks, Share(total, CHUNK_SHARE), (c: ScoredChunk) => c.score, ChunkCost(count), cs);
    TrimmedFits(rr.symbols, Share(total, SYMBOL_SHARE), (s: ScoredSymbol) => s.score, SymbolCost(count), ss);
    TrimmedFits(rr.findings, Share(total, FINDING_SHARE), (f: ScoredFinding) => f.score, FindingCost(count), fs);
    out := RetrievalResult(cs, ss, fs);
  }

  // ---------------------------------------------------------------- what one item is charged

  lemma OneRanked<T>(items: seq<T>, score: T -> real, order: seq<nat>)
    requires |items| == 1
    ensures Ranked(items, score, order) <==> order == [0]
  {
    if order == [0] { assert order[0] == 0; }
  }

  lemma OneKept<T>(xs: seq<T>, costs: seq<nat>, budget: int, keep: seq<bool>)
    requires |xs| == |costs| == 1
    ensures Greedy(costs, budget, keep) <==> keep == [costs[0] <= budget]
    ensures |keep| == 1 ==> Select(xs, keep) == if keep[0] then xs else []
  {
    if |keep| == 1 {
      UsedNone(costs, keep);
      assert xs[..0] == [] && keep[..0] == [];
      assert Select(xs[..0], keep[..0]) == [];
      assert [] + [xs[0]] == xs;
    }
  }

  lemma OneItem<T>(x: T, budget: int, score: T -> real, cost: T -> nat, out: seq<T>)
    ensures TrimmedTo([x], budget, score, cost, out) <==> out == if cost(x) <= budget then [x] else []
  {
    hide Ranked, Greedy, Select, Used;
    var xs, keep := [x], [cost(x) <= budget];
    OneRanked(xs, score, [0]);
    assert Arranged(xs, [0]) == xs;
    var costs := Costs(xs, cost);
    OneKept(xs, costs, budget, keep);
    if out == Select(xs, keep) { assert Trimmed(xs, budget, score, cost, out, [0], keep); }
    if TrimmedTo(xs, budget, score, cost, out) {
      var order, kept :| Trimmed(xs, budget, score, cost, out, order, kept);
      OneRanked(xs, score, order);
      OneKept(xs, costs, budget, kept);
    }
  }

  /** Each section charges an item its texts and a fixed overhead: alone, it is kept exactly when that
      fits the budget. */
  lemma ItemCharges(c: ScoredChunk, s: ScoredSymbol, f: ScoredFinding, count: Counter, budget: int)
    ensures TrimmedTo([c], budget, (x: ScoredChunk) => x.score, ChunkCost(count), [c])
      <==> count(c.content) + count(c.filePath) + 8 <= budget
    ensures TrimmedTo([s], budget, (x: ScoredSymbol) => x.score, SymbolCost(count), [s])
      <==> count(s.name) + count(s.signature) + count(s.filePath) + 4 <= budget
    ensures TrimmedTo([f], budget, (x: ScoredFinding) => x.score, FindingCost(count), [f])
      <==> count(f.message) + count(f.rule) + count(f.filePath) + 6 <= budget
  {
    hide TrimmedTo;
    OneItem(c, budget, (x: ScoredChunk) => x.score, ChunkCost(count), [c]);
    OneItem(s, budget, (x: ScoredSymbol) => x.score, SymbolCost(count), [s]);
    OneItem(f, budget, (x: ScoredFinding) => x.score, FindingCost(count), [f]);
  }

  // ---------------------------------------------------------------- a lower-scored chunk survives

  lemma TwoRanked<T>(items: seq<T>, score: T -> real, order: seq<nat>)
    requires |items| == 2 && score(items[0]) >= score(items[1]) && Ranked(items, score, order)
    ensures order == [0, 1]
  {
    assert 0 in order && 1 in order;
  }

  lemma KeepsSecond<T>(xs: seq<T>, costs: seq<nat>, budget: int, keep: seq<bool>)
    requires |xs| == |costs| == |keep| == 2 && costs[0] > budget >= costs[1]
    ensures Greedy(costs, budget, keep) <==> keep == [false, true]
    ensures keep == [false, true] ==> Select(xs, keep) == [xs[1]]
  {
    UsedNone(costs, keep);
    UsedStep(costs, keep, 1);
    if keep == [false, true] {
      assert xs[..1][..0] == [] && keep[..1][..0] == [];
      assert Select(xs[..1][..0], keep[..1][..0]) == [];
      assert Select(xs[..1], keep[..1]) == [];
    }
  }

  /** Two chunks of which only the lower-scored one fits the budget: it alone survives. */
  lemma LowerSurvives(a: ScoredChunk, b: ScoredChunk, budget: int, count: Counter, out: seq<ScoredChunk>)
    requires a.score > b.score && ChunkTokens(count, a) > budget >= ChunkTokens(count, b)
    ensures TrimmedTo([a, b], budget, (c: ScoredChunk) => c.score, ChunkCost(count), out) <==> out == [b]
  {
    var items, score, cost := [a, b], (c: ScoredChunk) => c.score, ChunkCost(count);
    assert Arranged(items, [0, 1]) == items;
    assert Costs(items, cost) == [ChunkTokens(count, a), ChunkTokens(count, b)];
    KeepsSecond(items, Costs(items, cost), budget, [false, true]);
    if out == [b] {
      assert [0, 1][0] == 0 && [0, 1][1] == 1;
      assert Ranked(items, score, [0, 1]);
      assert Trimmed(items, budget, score, cost, out, [0, 1], [false, true]);
    }
    if TrimmedTo(items, budget, score, cost, out) {
      var order, keep :| Trimmed(items, budget, score, cost, out, order, keep);
      TwoRanked(items, score, order);
      KeepsSecond(items, Costs(items, cost), budget, keep);
    }
  }

  lemma KeepsBoth<T>(xs: seq<T>, costs: seq<nat>, budget: int, keep: seq<bool>)
    requires |xs| == |costs| == |keep| == 2 && costs[0] + costs[1] <= budget && Greedy(costs, budget, keep)
    ensures Select(xs, keep) == xs
  {
    UsedNone(costs, keep);
    UsedStep(costs, keep, 1);
    assert keep[0] && keep[1];
    assert xs[..1][..0] == [] && keep[..1][..0] == [];
    assert Select(xs[..1][..0], keep[..1][..0]) == [];
    assert Select(xs[..1], keep[..1]) == [xs[0]];
    assert [xs[0]] + [xs[1]] == xs;
  }

  /** Two items that both fit come out by falling score, and in their original order on a tie. */
  lemma TiesKeepOrder<T>(a: T, b: T, budget: int, score: T -> real, cost: T -> nat, out: seq<T>)
    requires score(a) >= score(b) && cost(a) + cost(b) <= budget
    requires TrimmedTo([a, b], budget, score, cost, out)
    ensures out == [a, b]
  {
    hide Ranked, Greedy, Select, Used;
    var items := [a, b];
    var order, keep :| Trimmed(items, budget, score, cost, out, order, keep);
    TwoRanked(items, score, order);
    assert Arranged(items, [0, 1]) == items;
    GreedyLength(Costs(items, cost), budget, keep);
    KeepsBoth(items, Costs(items, cost), budget, keep);
  }

  lemma GreedyLength(costs: seq<nat>, budget: int, keep: seq<bool>)
    requires Greedy(costs, budget, keep)
    ensures |keep| == |costs|
  {
  }

  /** Counting bytes as tokens, with room for 9: the chunk of score 2 costs 11 and is dropped, the
      one of score 1 costs 9 and is kept. */
  lemma LowerSurvivesExample(out: seq<ScoredChunk>)
    ensures var a, b := ScoredChunk("f", "ab", 2.0), ScoredChunk("f", "", 1.0);
      var count: Counter := (s: string) => |s|;
      TrimmedTo([a, b], 9, (c: ScoredChunk) => c.score, ChunkCost(count), out) <==> out == [b]
  {
    LowerSurvives(ScoredChunk("f", "ab", 2.0), ScoredChunk("f", "", 1.0), 9, (s: string) => |s|, out);
  }
}
