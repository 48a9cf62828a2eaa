/** Ranking metrics of the retrieval benchmark (internal/bench/metrics.go). The discount
    1 / log2(i + 2) is a parameter: any positive, strictly decreasing weight. */
module RankingMetrics {
  import opened Outcomes
  import opened Reals
  import opened Sets
  import opened Sorting

  /** The distinct non-empty ids. */
  function IdSet(items: seq<string>): set<string> {
    set x | x in items && x != ""
  }

  /** How many leading results a cutoff of `k` looks at. */
  function Cut(ranked: seq<string>, k: int): (n: nat)
    ensures n <= |ranked|
  {
    if k <= 0 then 0 else if k > |ranked| then |ranked| else k
  }

  /** The gold ids among the first `k` results. */
  function Found(ranked: seq<string>, gold: seq<string>, k: int): set<string> {
    IdSet(ranked[..Cut(ranked, k)]) * IdSet(gold)
  }

  lemma SeenNext(ranked: seq<string>, goldSet: set<string>, i: nat)
    requires i < |ranked| && "" !in goldSet
    ensures IdSet(ranked[..i + 1]) * goldSet
      == IdSet(ranked[..i]) * goldSet + if ranked[i] in goldSet then {ranked[i]} else {}
  {
    assert ranked[..i + 1] == ranked[..i] + [ranked[i]];
  }

  method HitsAt(ranked: seq<string>, gold: seq<string>, k: int) returns (hits: nat)
    ensures hits == |Found(ranked, gold, k)|
  {
    var n := if k > |ranked| then |ranked| else k;
    var goldSet := IdSet(gold);
    hits := 0;
    var seen: set<string> := {};
    var i := 0;
    while i < n
      invariant 0 <= i <= Cut(ranked, k)
      invariant seen == IdSet(ranked[..i]) * goldSet && hits == |seen|
    {
      hide IdSet;
      var id := ranked[i];
      SeenNext(ranked, goldSet, i);
      if id in goldSet && id !in seen {
        hits := hits + 1;
        seen := seen + {id};
      }
      i := i + 1;
    }
  }

  // ---------------------------------------------------------------- precision, recall, reciprocal rank

  function PrecisionAt(ranked: seq<string>, gold: seq<string>, k: int): real {
    if k <= 0 || |ranked| == 0 || |gold| == 0 then 0.0
    else |Found(ranked, gold, k)| as real / Cut(ranked, k) as real
  }

  /** None stands for the not-a-number of 0 / 0. */
  function RecallAt(ranked: seq<string>, gold: seq<string>, k: int): Option<real> {
    if k <= 0 || |ranked| == 0 || |gold| == 0 then Some(0.0)
    else if |IdSet(gold)| == 0 then None
    else Some(|Found(ranked, gold, k)| as real / |IdSet(gold)| as real)
  }

  lemma {:induction false} IdSetSize(items: seq<string>)
    ensures |IdSet(items)| <= |items|
  {
    if items != [] {
      var n := |items| - 1;
      IdSetSize(items[..n]);
      assert items == items[..n] + [items[n]];
      assert IdSet(items) == IdSet(items[..n]) + if items[n] == "" then {} else {items[n]};
    }
  }

  lemma RatioInRange(x: nat, n: nat)
    requires x <= n && n > 0
    ensures 0.0 <= x as real / n as real <= 1.0
    ensures x as real / n as real == 1.0 <==> x == n
  {
    QuotientOrder(x as real, n as real);
    if x > 0 { QuotientOrder(x as real, n as real); }
  }

  /** Precision is a ratio, and 1 exactly when the results looked at are distinct gold ids. */
  lemma PrecisionInRange(ranked: seq<string>, gold: seq<string>, k: int)
    ensures 0.0 <= PrecisionAt(ranked, gold, k) <= 1.0
    ensures PrecisionAt(ranked, gold, k) == 1.0 <==>
      k > 0 && |ranked| > 0 && |gold| > 0 && |Found(ranked, gold, k)| == Cut(ranked, k)
  {
    var n := Cut(ranked, k);
    IdSetSize(ranked[..n]);
    SubsetSize(Found(ranked, gold, k), IdSet(ranked[..n]));
    if n > 0 { RatioInRange(|Found(ranked, gold, k)|, n); }
  }

  /** Recall is a ratio unless the gold list holds only empty ids, where the code divides
      zero by zero. */
  lemma RecallInRange(ranked: seq<string>, gold: seq<string>, k: int)
    ensures RecallAt(ranked, gold, k).None? <==> k > 0 && |ranked| > 0 && |gold| > 0 && IdSet(gold) == {}
    ensures RecallAt(ranked, gold, k).Some? ==> 0.0 <= RecallAt(ranked, gold, k).value <= 1.0
    ensures RecallAt(ranked, gold, k) == Some(1.0) <==>
      k > 0 && IdSet(gold) != {} && IdSet(gold) <= IdSet(ranked[..Cut(ranked, k)])
  {
    var goldSet, found := IdSet(gold), Found(ranked, gold, k);
    SubsetSize(found, goldSet);
    assert |gold| == 0 ==> goldSet == {};
    assert |ranked| == 0 ==> IdSet(ranked[..Cut(ranked, k)]) == {};
    var front := IdSet(ranked[..Cut(ranked, k)]);
    assert goldSet <= front ==> found == goldSet;
    assert found == goldSet ==> goldSet <= front by {
      assert found <= front;
    }
    hide IdSet, Found;
    if goldSet != {} {
      RatioInRange(|found|, |goldSet|);
    }
  }

  /** The concrete case: one result, one empty gold id. */
  lemma RecallOfEmptyIds()
    ensures RecallAt(["m1"], [""], 1).None?
  {
    assert IdSet([""]) == {};
  }

  function HitAt(ranked: seq<string>, gold: seq<string>, k: int): real {
    if |Found(ranked, gold, k)| > 0 then 1.0 else 0.0
  }

  /** A hit is 1 or 0: 1 exactly when some gold id is among the results looked at, which is when
      recall and precision are positive too. */
  lemma HitIff(ranked: seq<string>, gold: seq<string>, k: int)
    ensures HitAt(ranked, gold, k) == 1.0 <==> exists i :: 0 <= i < Cut(ranked, k) && ranked[i] in IdSet(gold)
    ensures HitAt(ranked, gold, k) != 1.0 <==> HitAt(ranked, gold, k) == 0.0
    ensures HitAt(ranked, gold, k) == 1.0 <==> PrecisionAt(ranked, gold, k) > 0.0
    ensures HitAt(ranked, gold, k) == 1.0 <==>
      RecallAt(ranked, gold, k).Some? && RecallAt(ranked, gold, k).value > 0.0
  {
    var found, n := Found(ranked, gold, k), Cut(ranked, k);
    if |found| > 0 {
      var id := Draw(found);
      var i :| 0 <= i < n && ranked[..n][i] == id;
      assert ranked[i] in IdSet(gold);
      SubsetSize(found, IdSet(gold));
      assert |found| as real / n as real > 0.0 && |found| as real / |IdSet(gold)| as real > 0.0;
    } else {
      forall i | 0 <= i < n ensures ranked[i] !in IdSet(gold) {
        assert ranked[..n][i] == ranked[i];
        assert ranked[i] !in found;
      }
    }
  }

  /** The three metrics over distinct ids: of the first `k` results, or all if there are fewer, those
      that are gold and not empty, over the results looked at and over the gold ids. */
  lemma MetricsCount(ranked: seq<string>, gold: seq<string>, k: int)
    requires k > 0 && |ranked| > 0 && |gold| > 0
    ensures var n := if k < |ranked| then k else |ranked|;
      var goldIds := set x | x in gold && x != "";
      var hits := set x | x in ranked[..n] && x in gold && x != "";
      && Times(PrecisionAt(ranked, gold, k), n as real) == |hits| as real
      && (RecallAt(ranked, gold, k).Some? <==> goldIds != {})
      && (goldIds != {} ==> Times(RecallAt(ranked, gold, k).value, |goldIds| as real) == |hits| as real)
      && HitAt(ranked, gold, k) == if hits == {} then 0.0 else 1.0
  {
    hide IdSet, Found, Times;
    FoundMeans(ranked, gold, k);
    var goldSet, found := IdSet(gold), Found(ranked, gold, k);
    Divide(|found| as real, Cut(ranked, k) as real);
    if goldSet != {} { Divide(|found| as real, |goldSet| as real); }
  }

  lemma FoundMeans(ranked: seq<string>, gold: seq<string>, k: int)
    requires k > 0
    ensures var n := if k < |ranked| then k else |ranked|;
      && IdSet(gold) == (set x | x in gold && x != "")
      && Found(ranked, gold, k) == set x | x in ranked[..n] && x in gold && x != ""
  {
  }

  /** Without a positive cutoff, a result or a gold id, every metric is 0. */
  lemma NothingToCount(ranked: seq<string>, gold: seq<string>, k: int, weight: nat -> real)
    requires (k <= 0 || ranked == [] || gold == []) && IsDiscount(weight)
    ensures PrecisionAt(ranked, gold, k) == 0.0 && RecallAt(ranked, gold, k) == Some(0.0)
    ensures HitAt(ranked, gold, k) == 0.0 && NDCG(ranked, gold, k, weight) == 0.0
  {
    assert gold == [] ==> IdSet(gold) == {};
    assert Cut(ranked, k) == 0 ==> IdSet(ranked[..0]) == {};
  }

  ghost predicate FirstGold(ranked: seq<string>, goldSet: set<string>, i: nat) {
    i < |ranked| && ranked[i] in goldSet && forall j :: 0 <= j < i ==> ranked[j] !in goldSet
  }

  /** Reciprocal rank of the first gold result, 0 when there is none. */
  method MRR(ranked: seq<string>, gold: seq<string>) returns (r: real)
    ensures r == 0.0 <==> forall i :: 0 <= i < |ranked| ==> ranked[i] !in IdSet(gold)
    ensures r != 0.0 ==> exists i :: FirstGold(ranked, IdSet(gold), i) && r == 1.0 / (i + 1) as real
  {
    var goldSet := IdSet(gold);
    if |goldSet| == 0 {
      return 0.0;
    }
    for i := 0 to |ranked|
      invariant forall j :: 0 <= j < i ==> ranked[j] !in goldSet
    {
      if ranked[i] in goldSet {
        InverseOrder((i + 1) as real, (i + 1) as real);
        assert FirstGold(ranked, goldSet, i);
        return 1.0 / (i + 1) as real;
      }
    }
    return 0.0;
  }

  // ---------------------------------------------------------------- NDCG

  /** A discount: positive and strictly decreasing. */
  ghost predicate IsDiscount(weight: nat -> real) {
    && (forall i: nat :: weight(i) > 0.0)
    && (forall i: nat, j: nat :: i < j ==> weight(i) > weight(j))
  }

  /** Discounted gain of the gold results among the first `n`. */
  function Gain(ranked: seq<string>, goldSet: set<string>, n: nat, weight: nat -> real): real
    requires n <= |ranked|
  {
    if n == 0 then 0.0
    else Gain(ranked, goldSet, n - 1, weight) + if ranked[n - 1] in goldSet then weight(n - 1) else 0.0
  }

  /** Gain of `n` gold results in front. */
  function IdealGain(n: nat, weight: nat -> real): real {
    if n == 0 then 0.0 else IdealGain(n - 1, weight) + weight(n - 1)
  }

  function Ideal(ranked: seq<string>, gold: seq<string>, k: int): nat {
    if |IdSet(gold)| > Cut(ranked, k) then Cut(ranked, k) else |IdSet(gold)|
  }

  ghost function NDCG(ranked: seq<string>, gold: seq<string>, k: int, weight: nat -> real): real
    requires IsDiscount(weight)
  {
    if k <= 0 || |ranked| == 0 || |gold| == 0 || Ideal(ranked, gold, k) == 0 then 0.0
    else
      IdealOrder(0, Ideal(ranked, gold, k), weight);
      Gain(ranked, IdSet(gold), Cut(ranked, k), weight) / IdealGain(Ideal(ranked, gold, k), weight)
  }

  method NDCGAt(ranked: seq<string>, gold: seq<string>, k: int, weight: nat -> real) returns (r: real)
    requires IsDiscount(weight)
    ensures r == NDCG(ranked, gold, k, weight)
  {
    if k <= 0 || |ranked| == 0 || |gold| == 0 {
      return 0.0;
    }
    var n := k;
    if n > |ranked| {
      n := |ranked|;
    }
    var goldSet := IdSet(gold);
    var dcg := 0.0;
    for i := 0 to n
      invariant dcg == Gain(ranked, goldSet, i, weight)
    {
      if ranked[i] in goldSet {
        dcg := dcg + weight(i);
      }
    }
    var ideal := |goldSet|;
    if ideal > n {
      ideal := n;
    }
    var idcg := 0.0;
    for i := 0 to ideal
      invariant idcg == IdealGain(i, weight)
    {
      idcg := idcg + weight(i);
    }
    IdealOrder(0, ideal, weight);
    if idcg == 0.0 {
      return 0.0;
    }
    return dcg / idcg;
  }

  lemma {:induction false} IdealOrder(m: nat, n: nat, weight: nat -> real)
    requires IsDiscount(weight) && m <= n
    ensures IdealGain(m, weight) <= IdealGain(n, weight)
    ensures m < n ==> IdealGain(m, weight) < IdealGain(n, weight)
    decreases n - m
  {
    if m < n { IdealOrder(m, n - 1, weight); }
  }

  function HitCount(ranked: seq<string>, goldSet: set<string>, n: nat): (c: nat)
    requires n <= |ranked|
    ensures c <= n
  {
    if n == 0 then 0 else HitCount(ranked, goldSet, n - 1) + if ranked[n - 1] in goldSet then 1 else 0
  }

  ghost predicate AllGold(ranked: seq<string>, goldSet: set<string>, n: nat)
    requires n <= |ranked|
  {
    forall i :: 0 <= i < n ==> ranked[i] in goldSet
  }

  /** Hits are worth most when they come first; only then is their gain ideal. */
  lemma {:induction false} GainAtMostIdeal(ranked: seq<string>, goldSet: set<string>, n: nat, weight: nat -> real)
    requires IsDiscount(weight) && n <= |ranked|
    ensures var c := HitCount(ranked, goldSet, n);
      && 0.0 <= Gain(ranked, goldSet, n, weight) <= IdealGain(c, weight)
      && (Gain(ranked, goldSet, n, weight) == IdealGain(c, weight) ==> AllGold(ranked, goldSet, c))
    decreases n
  {
    if n > 0 {
      GainAtMostIdeal(ranked, goldSet, n - 1, weight);
      var c := HitCount(ranked, goldSet, n - 1);
      if ranked[n - 1] in goldSet {
        assert c < n - 1 ==> weight(c) > weight(n - 1);
      }
    }
  }

  /** Gold results in front are worth the ideal gain at least. */
  lemma {:induction false} FrontGain(ranked: seq<string>, goldSet: set<string>, m: nat, n: nat, weight: nat -> real)
    requires IsDiscount(weight) && m <= n <= |ranked| && AllGold(ranked, goldSet, m)
    ensures Gain(ranked, goldSet, n, weight) >= IdealGain(m, weight)
    decreases n
  {
    if n > m {
      FrontGain(ranked, goldSet, m, n - 1, weight);
    } else if n > 0 {
      FrontGain(ranked, goldSet, n - 1, n - 1, weight);
    }
  }

  ghost predicate DuplicateFree(ranked: seq<string>) {
    forall i, j :: 0 <= i < j < |ranked| ==> ranked[i] != ranked[j]
  }

  function GoldIn(results: seq<string>, goldSet: set<string>): set<string> {
    set x | x in results && x in goldSet
  }

  lemma HitsAreDistinct(ranked: seq<string>, goldSet: set<string>, n: nat)
    requires DuplicateFree(ranked) && n <= |ranked|
    ensures HitCount(ranked, goldSet, n) <= |goldSet|
  {
    HitsAsSet(ranked, goldSet, n);
    SubsetSize(GoldIn(ranked[..n], goldSet), goldSet);
  }

  lemma {:induction false} HitsAsSet(ranked: seq<string>, goldSet: set<string>, n: nat)
    requires DuplicateFree(ranked) && n <= |ranked|
    ensures HitCount(ranked, goldSet, n) == |GoldIn(ranked[..n], goldSet)|
    decreases n
  {
    if n == 0 {
      assert GoldIn(ranked[..0], goldSet) == {};
    } else {
      HitsAsSet(ranked, goldSet, n - 1);
      var id := ranked[n - 1];
      assert ranked[..n] == ranked[..n - 1] + [id];
      assert id !in ranked[..n - 1];
      assert GoldIn(ranked[..n], goldSet)
        == GoldIn(ranked[..n - 1], goldSet) + if id in goldSet then {id} else {};
    }
  }

  /** For a ranking without duplicates NDCG lies in [0, 1]. With a non-empty gold set and a
      positive cutoff on a non-empty ranking it is 1 exactly when the first
      min(|gold set|, min(k, |ranked|)) results are all gold. */
  lemma NDCGBound(ranked: seq<string>, gold: seq<string>, k: int, weight: nat -> real)
    requires IsDiscount(weight) && DuplicateFree(ranked)
    ensures 0.0 <= NDCG(ranked, gold, k, weight) <= 1.0
    ensures NDCG(ranked, gold, k, weight) == 1.0 <==>
      k > 0 && |ranked| > 0 && IdSet(gold) != {} && AllGold(ranked, IdSet(gold), Ideal(ranked, gold, k))
  {
    var goldSet, n, ideal := IdSet(gold), Cut(ranked, k), Ideal(ranked, gold, k);
    assert |gold| == 0 ==> goldSet == {};
    if k > 0 && |ranked| > 0 && goldSet != {} {
      assert ideal > 0;
      GainAtMostIdeal(ranked, goldSet, n, weight);
      HitsAreDistinct(ranked, goldSet, n);
      var c := HitCount(ranked, goldSet, n);
      IdealOrder(c, ideal, weight);
      IdealOrder(0, ideal, weight);
      QuotientOrder(Gain(ranked, goldSet, n, weight), IdealGain(ideal, weight));
      NonNegativeQuotient(Gain(ranked, goldSet, n, weight), IdealGain(ideal, weight));
      if AllGold(ranked, goldSet, ideal) {
        FrontGain(ranked, goldSet, ideal, n, weight);
      }
    }
  }

  /** With one gold id the metric is the discount of its place over that of the first place. */
  lemma OneGold(ranked: seq<string>, id: string, k: int, weight: nat -> real, i: nat)
    requires IsDiscount(weight) && DuplicateFree(ranked) && id != ""
    requires i < |ranked| && ranked[i] == id && i < k
    ensures NDCG(ranked, [id], k, weight) == weight(i) / weight(0)
  {
    assert IdSet([id]) == {id};
    GainOfOne(ranked, id, Cut(ranked, k), weight, i);
    assert IdealGain(1, weight) == IdealGain(0, weight) + weight(0);
  }

  lemma {:induction false} GainOfOne(ranked: seq<string>, id: string, n: nat, weight: nat -> real, i: nat)
    requires DuplicateFree(ranked) && i < |ranked| && ranked[i] == id && n <= |ranked|
    ensures Gain(ranked, {id}, n, weight) == if i < n then weight(i) else 0.0
    decreases n
  {
    if n > 0 { GainOfOne(ranked, id, n - 1, weight, i); }
  }

  lemma NonNegativeQuotient(x: real, n: real)
    requires x >= 0.0 && n > 0.0
    ensures x / n >= 0.0
  {
    QuotientOrder(x, n);
  }

  /** 1/2 to the power `n`. */
  function Half(n: nat): (r: real)
    ensures 0.0 < r <= 1.0
  {
    if n == 0 then 1.0 else Half(n - 1) / 2.0
  }

  lemma {:induction false} HalfOrder(i: nat, j: nat)
    requires i < j
    ensures Half(j) < Half(i)
    decreases j
  {
    if i + 1 < j { HalfOrder(i, j - 1); }
  }

  /** A discount that barely discounts: everything beyond one per result adds up to less than
      one. */
  function Gentle(i: nat): real {
    1.0 + Half(i + 1)
  }

  lemma GentleIsDiscount()
    ensures IsDiscount(Gentle)
  {
    forall i: nat, j: nat | i < j ensures Gentle(i) > Gentle(j) { HalfOrder(i + 1, j + 1); }
  }

  lemma {:induction false} GentleIdeal(n: nat)
    ensures IdealGain(n, Gentle) == n as real + 1.0 - Half(n)
  {
    if n > 0 { GentleIdeal(n - 1); }
  }

  lemma {:induction false} GentleGain(ranked: seq<string>, goldSet: set<string>, n: nat)
    requires n <= |ranked|
    ensures Gain(ranked, goldSet, n, Gentle) >= HitCount(ranked, goldSet, n) as real
    decreases n
  {
    if n > 0 { GentleGain(ranked, goldSet, n - 1); }
  }

  /** NDCG stays within 1 for every discount exactly when the results looked at hold no more gold
      results, repeats counted, than there are gold ids. */
  lemma {:induction false} NDCGWithinOneIff(ranked: seq<string>, gold: seq<string>, k: int)
    ensures (forall weight :: IsDiscount(weight) ==> NDCG(ranked, gold, k, weight) <= 1.0)
      <==> HitCount(ranked, IdSet(gold), Cut(ranked, k)) <= |IdSet(gold)|
  {
    var goldSet, n, ideal := IdSet(gold), Cut(ranked, k), Ideal(ranked, gold, k);
    var c := HitCount(ranked, goldSet, n);
    if c <= |goldSet| {
      forall weight | IsDiscount(weight) ensures NDCG(ranked, gold, k, weight) <= 1.0 {
        FewHitsWithinOne(ranked, gold, k, weight);
      }
    } else {
      GentleIsDiscount();
      ManyHitsExceedOne(ranked, gold, k);
    }
  }

  lemma FewHitsWithinOne(ranked: seq<string>, gold: seq<string>, k: int, weight: nat -> real)
    requires IsDiscount(weight) && HitCount(ranked, IdSet(gold), Cut(ranked, k)) <= |IdSet(gold)|
    ensures NDCG(ranked, gold, k, weight) <= 1.0
  {
    var goldSet, n, ideal := IdSet(gold), Cut(ranked, k), Ideal(ranked, gold, k);
    if ideal > 0 {
      GainAtMostIdeal(ranked, goldSet, n, weight);
      IdealOrder(HitCount(ranked, goldSet, n), ideal, weight);
      IdealOrder(0, ideal, weight);
      QuotientOrder(Gain(ranked, goldSet, n, weight), IdealGain(ideal, weight));
    }
  }

  lemma ManyHitsExceedOne(ranked: seq<string>, gold: seq<string>, k: int)
    requires IsDiscount(Gentle) && HitCount(ranked, IdSet(gold), Cut(ranked, k)) > |IdSet(gold)|
    ensures NDCG(ranked, gold, k, Gentle) > 1.0
  {
    var goldSet, n, ideal := IdSet(gold), Cut(ranked, k), Ideal(ranked, gold, k);
    SomeGold(ranked, goldSet, n);
    GentleGain(ranked, goldSet, n);
    GentleIdeal(ideal);
    IdealOrder(0, ideal, Gentle);
    QuotientOrder(Gain(ranked, goldSet, n, Gentle), IdealGain(ideal, Gentle));
  }

  lemma {:induction false} SomeGold(ranked: seq<string>, goldSet: set<string>, n: nat)
    requires n <= |ranked|
    ensures HitCount(ranked, goldSet, n) > 0 ==> goldSet != {}
    decreases n
  {
    if n > 0 { SomeGold(ranked, goldSet, n - 1); }
  }

  /** With a repeated gold result NDCG exceeds 1. */
  lemma DuplicatesExceedOne(weight: nat -> real)
    requires IsDiscount(weight)
    ensures NDCG(["a", "a"], ["a"], 2, weight) > 1.0
  {
    assert IdSet(["a"]) == {"a"};
    var goldSet := {"a"};
    assert Gain(["a", "a"], goldSet, 2, weight) == weight(0) + weight(1) by {
      assert Gain(["a", "a"], goldSet, 1, weight) == Gain(["a", "a"], goldSet, 0, weight) + weight(0);
    }
    assert IdealGain(1, weight) == IdealGain(0, weight) + weight(0);
    QuotientOrder(weight(0) + weight(1), weight(0));
  }

  // ---------------------------------------------------------------- nearest-rank percentile

  function Ceil(x: real): (r: int)
    ensures x <= r as real < x + 1.0
  {
    if x == x.Floor as real then x.Floor else x.Floor + 1
  }

  /** Positions holding at most `v`, and positions holding less. */
  ghost function AtMost(s: seq<int>, v: int): set<nat> {
    set i | 0 <= i < |s| && s[i] <= v
  }

  ghost function LessThan(s: seq<int>, v: int): set<nat> {
    set i | 0 <= i < |s| && s[i] < v
  }

  predicate Smaller(x: int, y: int) { x < y }

  /** Sorts in place and picks the nearest rank: for 0 < p <= 1 at least p * n values are at
      most the result, and fewer than p * n are below it. */
  method Percentile(values: array<int>, p: real) returns (v: int)
    modifies values
    ensures multiset(values[..]) == multiset(old(values[..]))
    ensures values.Length == 0 ==> v == 0
    ensures values.Length > 0 ==> v in values[..]
    ensures values.Length > 0 && p <= 0.0 ==> |LessThan(values[..], v)| == 0
    ensures values.Length > 0 && p > 1.0 ==> |AtMost(values[..], v)| == values.Length
    ensures values.Length > 0 && 0.0 < p <= 1.0 ==>
      && |AtMost(values[..], v)| as real >= Times(p, values.Length as real)
      && |LessThan(values[..], v)| as real < Times(p, values.Length as real)
  {
    if values.Length == 0 {
      return 0;
    }
    InsertionSort(values, Smaller);
    var idx := Ceil(p * values.Length as real) - 1;
    if idx < 0 {
      idx := 0;
    }
    if idx >= values.Length {
      idx := values.Length - 1;
    }
    v := values[idx];
    NearestRank(values[..], idx);
    Positive(p, values.Length as real);
    Positive(-p, values.Length as real);
    Negate(p, values.Length as real);
    SubsetSize(AtMost(values[..], v), Below(values.Length));
    Monotone(values.Length as real, 1.0, p);
    Monotone(values.Length as real, p, 1.0);
    Commute(values.Length as real, p);
    Units(values.Length as real);
  }

  lemma NearestRank(s: seq<int>, idx: nat)
    requires idx < |s| && SortedBy(Smaller, s)
    ensures |AtMost(s, s[idx])| >= idx + 1 && |LessThan(s, s[idx])| <= idx
  {
    assert forall i, j :: 0 <= i < j < |s| ==> !Smaller(s[j], s[i]);
    SubsetSize(Below(idx + 1), AtMost(s, s[idx]));
    SubsetSize(LessThan(s, s[idx]), Below(idx));
  }
}
