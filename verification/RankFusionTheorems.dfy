/** What fusion guarantees: the membership rule, optimality of the greedy selection,
    stability under promotion, and how the two streams compare. */
module RankFusionTheorems {
  import opened RankFusion
  import Reals

  // ---------------------------------------------------------------- membership rule

  predicate InSession(item: Ranked, session: string) {
    item.session == session
  }

  /** The first `n` positions that hold an item of `session`. */
  ghost function PositionsOf(items: seq<Ranked>, n: nat, session: string): set<nat>
    requires n <= |items|
  {
    set j | 0 <= j < n && InSession(items[j], session)
  }

  /** Item `i` survives the session cap: fewer than `cap` items of its session rank above. */
  ghost predicate Eligible(items: seq<Ranked>, i: nat, cap: nat)
    requires i < |items|
  {
    items[i].session == "" || |PositionsOf(items, i, items[i].session)| < cap
  }

  ghost function EligibleAbove(items: seq<Ranked>, i: nat, cap: nat): set<nat>
    requires i <= |items|
  {
    set j | 0 <= j < i && Eligible(items, j, cap)
  }

  lemma SessionsSnoc(items: seq<Ranked>, n: nat)
    requires n < |items|
    ensures Sessions(items[..n + 1]) == Sessions(items[..n]) + multiset{items[n].session}
  {
    assert items[..n + 1][..n] == items[..n];
  }

  lemma DiversifySnoc(items: seq<Ranked>, n: nat, cap: nat)
    requires n < |items|
    ensures Diversify(items[..n + 1], cap)
      == Diversify(items[..n], cap) + if Open(items[..n], items[n].session, cap) then [items[n]] else []
  {
    assert items[..n + 1][..n] == items[..n];
  }

  lemma {:induction false} SessionCount(items: seq<Ranked>, n: nat, session: string)
    requires n <= |items|
    ensures Sessions(items[..n])[session] == |PositionsOf(items, n, session)|
    decreases n
  {
    if n > 0 {
      hide Sessions, PositionsOf;
      SessionCount(items, n - 1, session);
      SessionsSnoc(items, n - 1);
      NextPosition(items, n - 1, session);
    }
  }

  lemma NextPosition(items: seq<Ranked>, n: nat, session: string)
    requires n < |items|
    ensures |PositionsOf(items, n + 1, session)|
      == |PositionsOf(items, n, session)| + if InSession(items[n], session) then 1 else 0
  {
    hide InSession;
    assert PositionsOf(items, n + 1, session)
      == PositionsOf(items, n, session) + if InSession(items[n], session) then {n} else {};
  }

  lemma OpenIsEligible(items: seq<Ranked>, i: nat, cap: nat)
    requires i < |items|
    ensures Open(items[..i], items[i].session, cap) <==> Eligible(items, i, cap)
  {
    SessionCount(items, i, items[i].session);
  }

  lemma {:induction false} EligibleCount(items: seq<Ranked>, n: nat, cap: nat)
    requires n <= |items|
    ensures |EligibleAbove(items, n, cap)| == |Diversify(items[..n], cap)|
    decreases n
  {
    if n > 0 {
      hide Diversify, Sessions, Open, Eligible, EligibleAbove;
      EligibleCount(items, n - 1, cap);
      OpenIsEligible(items, n - 1, cap);
      DiversifySnoc(items, n - 1, cap);
      NextEligible(items, n - 1, cap);
    }
  }

  lemma NextEligible(items: seq<Ranked>, n: nat, cap: nat)
    requires n < |items|
    ensures |EligibleAbove(items, n + 1, cap)|
      == |EligibleAbove(items, n, cap)| + if Eligible(items, n, cap) then 1 else 0
  {
    hide Eligible;
    assert EligibleAbove(items, n + 1, cap)
      == EligibleAbove(items, n, cap) + if Eligible(items, n, cap) then {n} else {};
  }

  lemma {:induction false} DiversifyMembers(items: seq<Ranked>, cap: nat)
    ensures |Diversify(items, cap)| <= |items|
    ensures forall x :: x in Diversify(items, cap) ==> x in items
    decreases |items|
  {
    if items != [] { DiversifyMembers(items[..|items| - 1], cap); }
  }

  /** Where an item lands: after exactly the eligible items above it. */
  lemma {:induction false} DiversifyAt(items: seq<Ranked>, i: nat, cap: nat)
    requires i < |items|
    ensures var kept, above := Diversify(items, cap), Diversify(items[..i], cap);
      Open(items[..i], items[i].session, cap) ==> |above| < |kept| && kept[|above|] == items[i]
  {
    hide Diversify, Open;
    DiversifySnoc(items, i, cap);
    DiversifyPrefix(items, i + 1, cap);
  }

  lemma {:induction false} ClosedIsDropped(items: seq<Ranked>, i: nat, cap: nat)
    requires forall x, y :: 0 <= x < y < |items| ==> items[x] != items[y]
    requires i < |items| && !Open(items[..i], items[i].session, cap)
    ensures items[i] !in Diversify(items, cap)
    decreases |items|
  {
    hide Open;
    var n := |items| - 1;
    if i < n {
      assert items[..n][..i] == items[..i];
      ClosedIsDropped(items[..n], i, cap);
    } else {
      DiversifyMembers(items[..n], cap);
    }
  }

  lemma {:induction false} DiversifyDistinct(items: seq<Ranked>, cap: nat)
    requires forall x, y :: 0 <= x < y < |items| ==> items[x] != items[y]
    ensures var d := Diversify(items, cap); forall x, y :: 0 <= x < y < |d| ==> d[x] != d[y]
    decreases |items|
  {
    if items != [] {
      var rest := items[..|items| - 1];
      DiversifyDistinct(rest, cap);
      DiversifyMembers(rest, cap);
      assert items[|items| - 1] !in rest;
    }
  }

  /** The greedy loop in closed form: an item is returned iff fewer than `cap` items of its
      own session and fewer than `finalK` eligible items rank above it, and its place in the
      result is the number of those eligible items. */
  lemma SelectionRule(items: seq<Ranked>, cap: nat, finalK: nat, i: nat)
    requires forall x, y :: 0 <= x < y < |items| ==> items[x] != items[y]
    requires i < |items|
    ensures var kept, place := Take(Diversify(items, cap), finalK), |EligibleAbove(items, i, cap)|;
      && (items[i] in kept <==> Eligible(items, i, cap) && place < finalK)
      && (items[i] in kept ==> place < |kept| && kept[place] == items[i])
  {
    var d := Diversify(items, cap);
    EligibleCount(items, i, cap);
    OpenIsEligible(items, i, cap);
    DiversifyDistinct(items, cap);
    if Eligible(items, i, cap) {
      DiversifyAt(items, i, cap);
    } else {
      ClosedIsDropped(items, i, cap);
    }
  }

  lemma RankingDistinct(m: map<int, Ranked>, items: seq<Ranked>)
    requires IsRanking(m, items)
    ensures forall x, y :: 0 <= x < y < |items| ==> items[x] != items[y] && items[x].id != items[y].id
  {
    assert forall x, y :: 0 <= x < y < |items| ==> Before(items[x], items[y]);
  }

  /** The rule for the whole fusion, on the ranking of the merged table. */
  lemma FusionRule(bm25: seq<Ranked>, vector: seq<Ranked>, rrfK: int, finalK: int, maxPerSession: int, i: nat)
    requires i < |Ranking(FusedTable(bm25, vector, OrDefault(rrfK, 60)))|
    ensures var items := Ranking(FusedTable(bm25, vector, OrDefault(rrfK, 60)));
      items[i] in Fused(bm25, vector, rrfK, finalK, maxPerSession)
      <==> && Eligible(items, i, OrDefault(maxPerSession, 3))
           && |EligibleAbove(items, i, OrDefault(maxPerSession, 3))| < OrDefault(finalK, 10)
  {
    var m := FusedTable(bm25, vector, OrDefault(rrfK, 60));
    RankingDistinct(m, Ranking(m));
    SelectionRule(Ranking(m), OrDefault(maxPerSession, 3), OrDefault(finalK, 10), i);
  }

  /** Asking for fewer results gives a prefix of the longer answer. */
  lemma SmallerLimitIsPrefix(bm25: seq<Ranked>, vector: seq<Ranked>, rrfK: int, fewer: int, more: int,
      maxPerSession: int)
    requires OrDefault(fewer, 10) <= OrDefault(more, 10)
    ensures Fused(bm25, vector, rrfK, fewer, maxPerSession) <= Fused(bm25, vector, rrfK, more, maxPerSession)
  {
  }

  // ---------------------------------------------------------------- optimality

  /** A sub-selection: strictly increasing positions into the ranking. */
  ghost predicate IsSelection(items: seq<Ranked>, picks: seq<nat>) {
    && (forall j :: 0 <= j < |picks| ==> picks[j] < |items|)
    && forall i, j :: 0 <= i < j < |picks| ==> picks[i] < picks[j]
  }

  ghost function Picked(items: seq<Ranked>, picks: seq<nat>): (r: seq<Ranked>)
    requires forall j :: 0 <= j < |picks| ==> picks[j] < |items|
    ensures |r| == |picks|
    ensures forall j :: 0 <= j < |r| ==> r[j] == items[picks[j]]
  {
    seq(|picks|, j requires 0 <= j < |picks| => items[picks[j]])
  }

  /** Within the session cap; items without a session are not limited. */
  ghost predicate WithinCap(items: seq<Ranked>, cap: nat) {
    forall s :: s != "" ==> Sessions(items)[s] <= cap
  }

  function TotalScore(items: seq<Ranked>): real {
    if items == [] then 0.0 else TotalScore(items[..|items| - 1]) + items[|items| - 1].score
  }

  lemma {:induction false} SessionsSize(items: seq<Ranked>)
    ensures |Sessions(items)| == |items|
    decreases |items|
  {
    if items != [] { SessionsSize(items[..|items| - 1]); }
  }

  lemma {:induction false} SessionsPrefix(items: seq<Ranked>, n: nat)
    requires n <= |items|
    ensures Sessions(items[..n]) <= Sessions(items)
    decreases |items|
  {
    if n < |items| {
      SessionsPrefix(items[..|items| - 1], n);
      assert items[..|items| - 1][..n] == items[..n];
    } else {
      assert items[..n] == items;
    }
  }

  lemma {:induction false} SelectionSessions(items: seq<Ranked>, picks: seq<nat>, p: nat)
    requires IsSelection(items, picks) && p <= |items|
    requires forall j :: 0 <= j < |picks| ==> picks[j] < p
    ensures Sessions(Picked(items, picks)) <= Sessions(items[..p])
    decreases |picks|
  {
    if picks != [] {
      hide Sessions;
      var n := |picks| - 1;
      var t := picks[n];
      SelectionSessions(items, picks[..n], t);
      LastPick(items, picks);
      SessionsSnoc(items, t);
      AddOne(Sessions(Picked(items, picks[..n])), Sessions(items[..t]), items[t].session);
      SessionsPrefix(items[..p], t + 1);
      assert items[..p][..t + 1] == items[..t + 1];
    }
  }

  lemma LastPick(items: seq<Ranked>, picks: seq<nat>)
    requires IsSelection(items, picks) && picks != []
    ensures var n := |picks| - 1;
      Sessions(Picked(items, picks)) == Sessions(Picked(items, picks[..n])) + multiset{items[picks[n]].session}
  {
    hide Sessions;
    var n, chosen := |picks| - 1, Picked(items, picks);
    assert chosen[..n] == Picked(items, picks[..n]) && chosen[..n + 1] == chosen;
    SessionsSnoc(chosen, n);
  }

  lemma AddOne(a: multiset<string>, b: multiset<string>, x: string)
    requires a <= b
    ensures a + multiset{x} <= b + multiset{x}
  {
  }

  /** Per-session counts bound the length. */
  lemma FewerPerSession(a: seq<Ranked>, b: seq<Ranked>)
    requires forall s :: Sessions(a)[s] <= Sessions(b)[s]
    ensures |a| <= |b|
  {
    SessionsSize(a);
    SessionsSize(b);
    assert Sessions(b) == Sessions(a) + (Sessions(b) - Sessions(a));
  }

  /** No selection within the cap is larger than what the cap rule keeps. */
  lemma CapKeepsMost(items: seq<Ranked>, picks: seq<nat>, p: nat, cap: nat)
    requires IsSelection(items, picks) && p <= |items|
    requires forall j :: 0 <= j < |picks| ==> picks[j] < p
    requires WithinCap(Picked(items, picks), cap)
    ensures |picks| <= |Diversify(items[..p], cap)|
  {
    SelectionSessions(items, picks, p);
    SessionsDiversified(items[..p], cap);
    FewerPerSession(Picked(items, picks), Diversify(items[..p], cap));
  }

  lemma WithinCapPrefix(items: seq<Ranked>, picks: seq<nat>, n: nat, cap: nat)
    requires IsSelection(items, picks) && n <= |picks|
    requires WithinCap(Picked(items, picks), cap)
    ensures WithinCap(Picked(items, picks[..n]), cap)
  {
    SessionsPrefix(Picked(items, picks), n);
    assert Picked(items, picks)[..n] == Picked(items, picks[..n]);
  }

  ghost predicate Descending(items: seq<Ranked>) {
    forall i, j :: 0 <= i <= j < |items| ==> items[i].score >= items[j].score
  }

  /** Rank by rank, the greedy answer is at least as good as any admissible selection. */
  lemma GreedyDominates(items: seq<Ranked>, picks: seq<nat>, cap: nat, finalK: nat, j: nat)
    requires Descending(items) && IsSelection(items, picks)
    requires |picks| <= finalK && WithinCap(Picked(items, picks), cap)
    requires j < |picks|
    ensures var kept := Take(Diversify(items, cap), finalK);
      j < |kept| && kept[j].score >= items[picks[j]].score
  {
    var p := picks[j] + 1;
    WithinCapPrefix(items, picks, j + 1, cap);
    CapKeepsMost(items, picks[..j + 1], p, cap);
    DiversifyPrefix(items, p, cap);
    DiversifyMembers(items[..p], cap);
    var x := Diversify(items[..p], cap)[j];
    assert x in items[..p];
  }

  lemma {:induction false} DominatingTotal(a: seq<Ranked>, b: seq<Ranked>)
    requires |a| <= |b|
    requires forall j :: 0 <= j < |a| ==> a[j].score <= b[j].score
    requires forall j :: 0 <= j < |b| ==> b[j].score >= 0.0
    ensures TotalScore(a) <= TotalScore(b)
    decreases |b|
  {
    if |a| < |b| {
      DominatingTotal(a, b[..|b| - 1]);
    } else if b != [] {
      DominatingTotal(a[..|a| - 1], b[..|b| - 1]);
    }
  }

  lemma {:induction false} ContributionSign(stream: seq<Ranked>, id: int, k: nat)
    ensures Contribution(stream, id, k) >= 0.0
    ensures id in Ids(stream) ==> Contribution(stream, id, k) > 0.0
    decreases |stream|
  {
    if stream != [] { ContributionSign(stream[..|stream| - 1], id, k); }
  }

  lemma RankingDescending(m: map<int, Ranked>, items: seq<Ranked>)
    requires IsRanking(m, items)
    ensures Descending(items)
  {
    assert forall i, j :: 0 <= i < j < |items| ==> Before(items[i], items[j]);
  }

  lemma KeptWithinCap(items: seq<Ranked>, cap: nat, finalK: nat)
    ensures WithinCap(Take(Diversify(items, cap), finalK), cap)
  {
    var kept := Take(Diversify(items, cap), finalK);
    SessionsDiversified(items, cap);
    SessionsPrefix(Diversify(items, cap), |kept|);
    assert Diversify(items, cap)[..|kept|] == kept;
  }

  lemma SelectionOptimal(items: seq<Ranked>, picks: seq<nat>, cap: nat, finalK: nat)
    requires Descending(items) && forall x :: x in items ==> x.score >= 0.0
    requires IsSelection(items, picks)
    requires |picks| <= finalK && WithinCap(Picked(items, picks), cap)
    ensures var kept := Take(Diversify(items, cap), finalK);
      && |picks| <= |kept|
      && (forall j :: 0 <= j < |picks| ==> kept[j].score >= items[picks[j]].score)
      && TotalScore(Picked(items, picks)) <= TotalScore(kept)
  {
    var kept := Take(Diversify(items, cap), finalK);
    forall j | 0 <= j < |picks| ensures j < |kept| && kept[j].score >= items[picks[j]].score {
      GreedyDominates(items, picks, cap, finalK, j);
    }
    if picks != [] { GreedyDominates(items, picks, cap, finalK, |picks| - 1); }
    DiversifyMembers(items, cap);
    assert forall j :: 0 <= j < |kept| ==> kept[j] in items;
    DominatingTotal(Picked(items, picks), kept);
  }

  lemma FusedNonNegative(bm25: seq<Ranked>, vector: seq<Ranked>, k: nat)
    ensures forall x :: x in Ranking(FusedTable(bm25, vector, k)) ==> x.score > 0.0
  {
    var m := FusedTable(bm25, vector, k);
    forall x | x in Ranking(m) ensures x.score > 0.0 {
      var i :| 0 <= i < |Ranking(m)| && Ranking(m)[i] == x;
      assert x == FusedItem(bm25, vector, k, x.id);
      ContributionSign(bm25, x.id, k);
      ContributionSign(vector, x.id, k);
    }
  }

  /** Optimality: every sub-selection of the fused items with at most `maxPerSession` items
      per named session and at most `finalK` items has no larger total score, and is beaten
      or matched at every rank; the answer itself is such a selection. */
  lemma FusionOptimal(bm25: seq<Ranked>, vector: seq<Ranked>, rrfK: int, finalK: int, maxPerSession: int,
      picks: seq<nat>)
    requires var items := Ranking(FusedTable(bm25, vector, OrDefault(rrfK, 60)));
      && IsSelection(items, picks)
      && |picks| <= OrDefault(finalK, 10)
      && WithinCap(Picked(items, picks), OrDefault(maxPerSession, 3))
    ensures var items := Ranking(FusedTable(bm25, vector, OrDefault(rrfK, 60)));
      var kept := Fused(bm25, vector, rrfK, finalK, maxPerSession);
      && |picks| <= |kept| <= OrDefault(finalK, 10)
      && WithinCap(kept, OrDefault(maxPerSession, 3))
      && (forall j :: 0 <= j < |picks| ==> kept[j].score >= items[picks[j]].score)
      && TotalScore(Picked(items, picks)) <= TotalScore(kept)
  {
    hide Diversify, Sessions, TotalScore;
    var k, cap, limit := OrDefault(rrfK, 60), OrDefault(maxPerSession, 3), OrDefault(finalK, 10);
    var items := Ranking(FusedTable(bm25, vector, k));
    RankingDescending(FusedTable(bm25, vector, k), items);
    FusedNonNegative(bm25, vector, k);
    KeptWithinCap(items, cap, limit);
    SelectionOptimal(items, picks, cap, limit);
  }

  // ---------------------------------------------------------------- promotion

  ghost predicate DistinctIds(stream: seq<Ranked>) {
    forall i, j :: 0 <= i < j < |stream| ==> stream[i].id != stream[j].id
  }

  /** The position of an id in a listing. */
  ghost predicate At(items: seq<Ranked>, i: nat, id: int) {
    i < |items| && items[i].id == id
  }

  /** Some item of `b` has the id and the session of `x`. */
  ghost predicate Twinned(x: Ranked, b: seq<Ranked>) {
    exists r :: 0 <= r < |b| && b[r].id == x.id && b[r].session == x.session
  }

  lemma {:induction false} FewerIdsFewerPerSession(a: seq<Ranked>, b: seq<Ranked>)
    requires DistinctIds(a) && forall x :: x in a ==> Twinned(x, b)
    ensures forall s :: Sessions(a)[s] <= Sessions(b)[s]
    decreases |a|
  {
    if a != [] {
      hide Twinned;
      var n := |a| - 1;
      var q, rest := TwinOf(a[n], a[..n], b);
      FewerIdsFewerPerSession(a[..n], rest);
      SessionsWithout(b, q);
    }
  }

  /** Without the twin of one item, the others still have theirs. */
  lemma TwinOf(item: Ranked, others: seq<Ranked>, b: seq<Ranked>) returns (q: nat, rest: seq<Ranked>)
    requires Twinned(item, b) && forall x :: x in others ==> Twinned(x, b) && x.id != item.id
    ensures q < |b| && b[q].session == item.session && rest == b[..q] + b[q + 1..]
    ensures forall x :: x in others ==> Twinned(x, rest)
  {
    q :| 0 <= q < |b| && b[q].id == item.id && b[q].session == item.session;
    rest := b[..q] + b[q + 1..];
    forall x | x in others ensures Twinned(x, rest) {
      assert Twinned(x, b);
      var r :| 0 <= r < |b| && b[r].id == x.id && b[r].session == x.session;
      assert rest[if r < q then r else r - 1] == b[r];
    }
  }

  lemma {:induction false} SessionsWithout(b: seq<Ranked>, q: nat)
    requires q < |b|
    ensures Sessions(b) == Sessions(b[..q] + b[q + 1..]) + multiset{b[q].session}
    decreases |b|
  {
    hide Sessions;
    var n := |b| - 1;
    var rest := b[..q] + b[q + 1..];
    assert b[..n + 1] == b && rest[..|rest|] == rest;
    SessionsSnoc(b, n);
    if q < n {
      SessionsWithout(b[..n], q);
      assert rest[..n - 1] == b[..n][..q] + b[..n][q + 1..];
      SessionsSnoc(rest, n - 1);
    } else {
      assert rest == b[..n];
    }
  }

  /** `m'` is `m` with the score of `x` raised and no other score raised. */
  ghost predicate Promotes(m: map<int, Ranked>, m': map<int, Ranked>, x: int) {
    && m.Keys == m'.Keys && x in m
    && (forall id :: id in m ==> m[id].id == id && m'[id].id == id && m'[id].session == m[id].session)
    && m'[x].score >= m[x].score
    && forall id :: id in m && id != x ==> m'[id].score <= m[id].score
  }

  /** Whatever ranks above a promoted item ranked above it before. */
  lemma AbovePromoted(m: map<int, Ranked>, m': map<int, Ranked>, s: seq<Ranked>, s': seq<Ranked>, x: int, i: nat,
      i': nat)
    requires Promotes(m, m', x) && IsRanking(m, s) && IsRanking(m', s')
    requires At(s, i, x) && At(s', i', x)
    ensures forall t :: Sessions(s'[..i'])[t] <= Sessions(s[..i])[t]
  {
    RankingDistinct(m', s');
    forall y | y in s'[..i'] ensures Twinned(y, s[..i]) {
      var r :| 0 <= r < i' && s'[..i'][r] == y;
      assert Before(s'[r], s'[i']);
      var z := m[y.id];
      assert z in s;
      var q :| 0 <= q < |s| && s[q] == z;
      assert q != i;
      assert i < q ==> Before(s[i], s[q]);
      assert q < i;
      assert s[..i][q] == z;
    }
    FewerIdsFewerPerSession(s'[..i'], s[..i]);
  }

  /** The membership rule once more, counting with the selection itself. */
  lemma SelectionRuleByPrefix(items: seq<Ranked>, cap: nat, finalK: nat, i: nat)
    requires forall x, y :: 0 <= x < y < |items| ==> items[x] != items[y]
    requires i < |items|
    ensures var kept, place := Take(Diversify(items, cap), finalK), |Diversify(items[..i], cap)|;
      && (items[i] in kept <==> Open(items[..i], items[i].session, cap) && place < finalK)
      && (items[i] in kept ==> place < |kept| && kept[place] == items[i])
  {
    SelectionRule(items, cap, finalK, i);
    EligibleCount(items, i, cap);
    OpenIsEligible(items, i, cap);
  }

  /** The place of a returned item is the number of kept items above it. */
  lemma PlaceIsUnique(items: seq<Ranked>, cap: nat, finalK: nat, i: nat, q: nat)
    requires forall x, y :: 0 <= x < y < |items| ==> items[x] != items[y]
    requires i < |items| && q < |Take(Diversify(items, cap), finalK)|
    requires Take(Diversify(items, cap), finalK)[q] == items[i]
    ensures Open(items[..i], items[i].session, cap) && |Diversify(items[..i], cap)| == q < finalK
  {
    SelectionRuleByPrefix(items, cap, finalK, i);
    DiversifyDistinct(items, cap);
  }

  /** A promoted item stays in the answer and does not move down. */
  lemma PromotionKeepsPlace(m: map<int, Ranked>, m': map<int, Ranked>, x: int, cap: nat, finalK: nat, q: nat)
    returns (q': nat)
    requires Promotes(m, m', x)
    requires At(Take(Diversify(Ranking(m), cap), finalK), q, x)
    ensures q' <= q && At(Take(Diversify(Ranking(m'), cap), finalK), q', x)
  {
    hide Diversify, Sessions;
    var s, s' := Ranking(m), Ranking(m');
    RankingDistinct(m, s);
    RankingDistinct(m', s');
    var i := Locate(m, s, x);
    var i' := Locate(m', s', x);
    FromRanking(s, cap, finalK, q);
    assert s[i] == Take(Diversify(s, cap), finalK)[q];
    PlaceIsUnique(s, cap, finalK, i, q);
    AbovePromoted(m, m', s, s', x, i, i');
    MoreRoom(s'[..i'], s[..i], cap);
    SelectionRuleByPrefix(s', cap, finalK, i');
    q' := |Diversify(s'[..i'], cap)|;
  }

  lemma Locate(m: map<int, Ranked>, s: seq<Ranked>, x: int) returns (i: nat)
    requires IsRanking(m, s) && x in m && m[x].id == x
    ensures i < |s| && s[i] == m[x]
  {
    assert m[x] in s;
    i :| 0 <= i < |s| && s[i] == m[x];
  }

  lemma FromRanking(s: seq<Ranked>, cap: nat, finalK: nat, q: nat)
    requires q < |Take(Diversify(s, cap), finalK)|
    ensures Take(Diversify(s, cap), finalK)[q] in s
  {
    DiversifyMembers(s, cap);
  }

  /** Fewer items of every session above: no later slot, and no slot newly closed. */
  lemma MoreRoom(a: seq<Ranked>, b: seq<Ranked>, cap: nat)
    requires forall t :: Sessions(a)[t] <= Sessions(b)[t]
    ensures |Diversify(a, cap)| <= |Diversify(b, cap)|
    ensures forall t :: Open(b, t, cap) ==> Open(a, t, cap)
  {
    SessionsDiversified(a, cap);
    SessionsDiversified(b, cap);
    FewerPerSession(Diversify(a, cap), Diversify(b, cap));
  }

  /** In a stream without repeats an item collects exactly the reciprocal of its rank. */
  lemma {:induction false} DistinctStream(stream: seq<Ranked>, i: nat, k: nat)
    requires DistinctIds(stream) && i < |stream|
    ensures Contribution(stream, stream[i].id, k) == Reciprocal(k, i + 1)
    ensures LastRank(stream, stream[i].id) == i + 1
    ensures FirstNamedSession(stream, stream[i].id) == stream[i].session
    decreases |stream|
  {
    var n := |stream| - 1;
    IdsMembers(stream[..n]);
    if i < n {
      DistinctStream(stream[..n], i, k);
    } else {
      AbsentFromStream(stream[..n], stream[n].id, k);
    }
  }

  /** `stream` with the items at `p` and `p + 1` exchanged. */
  function Exchange(stream: seq<Ranked>, p: nat): (r: seq<Ranked>)
    requires p + 1 < |stream|
    ensures |r| == |stream|
  {
    stream[p := stream[p + 1]][p + 1 := stream[p]]
  }

  /** Where the item at `i` goes. */
  function Moved(p: nat, i: nat): nat {
    if i == p then p + 1 else if i == p + 1 then p else i
  }

  lemma ExchangeIds(stream: seq<Ranked>, p: nat)
    requires DistinctIds(stream) && p + 1 < |stream|
    ensures DistinctIds(Exchange(stream, p)) && Ids(Exchange(stream, p)) == Ids(stream)
  {
    hide Ids;
    var t := Exchange(stream, p);
    forall id ensures id in Ids(t) <==> id in Ids(stream) {
      SameMembers(stream, t, p, id);
      SameMembers(t, stream, p, id);
    }
  }

  lemma SameMembers(a: seq<Ranked>, b: seq<Ranked>, p: nat, id: int)
    requires p + 1 < |a| == |b|
    requires forall i :: 0 <= i < |a| ==> b[Moved(p, i)] == a[i]
    ensures id in Ids(a) ==> id in Ids(b)
  {
    IdsMembers(a);
    IdsMembers(b);
  }

  /** Exchanging neighbours raises the lower one's contribution and nobody else's. */
  lemma ExchangeContribution(stream: seq<Ranked>, p: nat, k: nat, id: int)
    requires DistinctIds(stream) && p + 1 < |stream|
    ensures var t := Exchange(stream, p);
      && (if id == stream[p + 1].id then Contribution(t, id, k) >= Contribution(stream, id, k)
          else Contribution(t, id, k) <= Contribution(stream, id, k))
      && LastSession(t, id) == LastSession(stream, id)
      && FirstNamedSession(t, id) == FirstNamedSession(stream, id)
  {
    hide Contribution, FirstNamedSession, LastRank, Ids;
    var t := Exchange(stream, p);
    ExchangeIds(stream, p);
    IdsMembers(stream);
    if id in Ids(stream) {
      var i :| 0 <= i < |stream| && stream[i].id == id;
      var j := Moved(p, i);
      assert t[j] == stream[i];
      DistinctStream(stream, i, k);
      DistinctStream(t, j, k);
      ReciprocalOrder(k, p + 1, p + 2);
    } else {
      AbsentFromStream(stream, id, k);
      AbsentFromStream(t, id, k);
    }
  }

  lemma ReciprocalOrder(k: nat, better: nat, worse: nat)
    requires 0 < better <= worse
    ensures 0.0 < Reciprocal(k, worse) <= Reciprocal(k, better)
    ensures better < worse ==> Reciprocal(k, worse) < Reciprocal(k, better)
  {
    Reals.InverseOrder((k + better) as real, (k + worse) as real);
  }

  ghost predicate Returned(bm25: seq<Ranked>, vector: seq<Ranked>, rrfK: int, finalK: int, maxPerSession: int,
      place: nat, id: int) {
    At(Fused(bm25, vector, rrfK, finalK, maxPerSession), place, id)
  }

  lemma Bm25Promotes(bm25: seq<Ranked>, vector: seq<Ranked>, k: nat, p: nat)
    requires DistinctIds(bm25) && p + 1 < |bm25|
    ensures Promotes(FusedTable(bm25, vector, k), FusedTable(Exchange(bm25, p), vector, k), bm25[p + 1].id)
  {
    hide Contribution, FirstNamedSession, LastRank, Ids, Exchange;
    var m, m' := FusedTable(bm25, vector, k), FusedTable(Exchange(bm25, p), vector, k);
    ExchangeIds(bm25, p);
    IdsMembers(bm25);
    forall id | id in m ensures m'[id].session == m[id].session
      && if id == bm25[p + 1].id then m'[id].score >= m[id].score else m'[id].score <= m[id].score
    {
      ExchangeContribution(bm25, p, k, id);
    }
  }

  lemma VectorPromotes(bm25: seq<Ranked>, vector: seq<Ranked>, k: nat, p: nat)
    requires DistinctIds(vector) && p + 1 < |vector|
    ensures Promotes(FusedTable(bm25, vector, k), FusedTable(bm25, Exchange(vector, p), k), vector[p + 1].id)
  {
    hide Contribution, FirstNamedSession, LastRank, Ids, Exchange;
    var m, m' := FusedTable(bm25, vector, k), FusedTable(bm25, Exchange(vector, p), k);
    ExchangeIds(vector, p);
    IdsMembers(vector);
    forall id | id in m ensures m'[id].session == m[id].session
      && if id == vector[p + 1].id then m'[id].score >= m[id].score else m'[id].score <= m[id].score
    {
      ExchangeContribution(vector, p, k, id);
    }
  }

  /** Moving an item up one place in the BM25 stream never removes or demotes it. */
  lemma Bm25Promotion(bm25: seq<Ranked>, vector: seq<Ranked>, rrfK: int, finalK: int, maxPerSession: int, p: nat,
      place: nat)
    returns (place': nat)
    requires DistinctIds(bm25) && p + 1 < |bm25|
    ensures Returned(bm25, vector, rrfK, finalK, maxPerSession, place, bm25[p + 1].id) ==>
      place' <= place && Returned(Exchange(bm25, p), vector, rrfK, finalK, maxPerSession, place', bm25[p + 1].id)
  {
    var k := OrDefault(rrfK, 60);
    place' := 0;
    if Returned(bm25, vector, rrfK, finalK, maxPerSession, place, bm25[p + 1].id) {
      Bm25Promotes(bm25, vector, k, p);
      place' := PromotionKeepsPlace(FusedTable(bm25, vector, k), FusedTable(Exchange(bm25, p), vector, k),
        bm25[p + 1].id, OrDefault(maxPerSession, 3), OrDefault(finalK, 10), place);
    }
  }

  /** The same for the vector stream. */
  lemma VectorPromotion(bm25: seq<Ranked>, vector: seq<Ranked>, rrfK: int, finalK: int, maxPerSession: int, p: nat,
      place: nat)
    returns (place': nat)
    requires DistinctIds(vector) && p + 1 < |vector|
    ensures Returned(bm25, vector, rrfK, finalK, maxPerSession, place, vector[p + 1].id) ==>
      place' <= place && Returned(bm25, Exchange(vector, p), rrfK, finalK, maxPerSession, place', vector[p + 1].id)
  {
    var k := OrDefault(rrfK, 60);
    place' := 0;
    if Returned(bm25, vector, rrfK, finalK, maxPerSession, place, vector[p + 1].id) {
      VectorPromotes(bm25, vector, k, p);
      place' := PromotionKeepsPlace(FusedTable(bm25, vector, k), FusedTable(bm25, Exchange(vector, p), k),
        vector[p + 1].id, OrDefault(maxPerSession, 3), OrDefault(finalK, 10), place);
    }
  }

  // ---------------------------------------------------------------- comparing the streams

  /** Two ranks within k + 1 together outweigh a single first place. */
  lemma TwoBeatOne(k: nat, r: nat, s: nat)
    requires k > 0 && 0 < r <= k + 1 && 0 < s <= k + 1
    ensures Reciprocal(k, r) + Reciprocal(k, s) > Reciprocal(k, 1)
  {
    ReciprocalOrder(k, r, k + 1);
    ReciprocalOrder(k, s, k + 1);
    var half, whole := (k + (k + 1)) as real, (k + 1) as real;
    Reals.InverseOrder(half / 2.0, whole);
    assert 1.0 / (half / 2.0) == 2.0 * (1.0 / half);
  }

  /** A memory found by both streams precedes every memory found by one, when neither
      stream is longer than k + 1. */
  lemma BothStreamsFirst(bm25: seq<Ranked>, vector: seq<Ranked>, rrfK: int, finalK: int, maxPerSession: int, i: nat,
      j: nat)
    requires DistinctIds(bm25) && DistinctIds(vector)
    requires |bm25| <= OrDefault(rrfK, 60) + 1 && |vector| <= OrDefault(rrfK, 60) + 1
    ensures var kept, both := Fused(bm25, vector, rrfK, finalK, maxPerSession), Ids(bm25) * Ids(vector);
      i < |kept| && j < |kept| && kept[i].id in both && kept[j].id !in both ==> i < j
  {
    var k := OrDefault(rrfK, 60);
    var m := FusedTable(bm25, vector, k);
    var kept, both := Fused(bm25, vector, rrfK, finalK, maxPerSession), Ids(bm25) * Ids(vector);
    if i < |kept| && j < |kept| && kept[i].id in both && kept[j].id !in both {
      DiversifyMembers(Ranking(m), OrDefault(maxPerSession, 3));
      assert kept[i] in Ranking(m) && kept[j] in Ranking(m);
      FoundOnce(bm25, vector, k, kept[j].id);
      FoundTwice(bm25, vector, k, kept[i].id);
      RankingDescending(m, Ranking(m));
      DiversifyDescending(Ranking(m), OrDefault(maxPerSession, 3));
    }
  }

  lemma FoundTwice(bm25: seq<Ranked>, vector: seq<Ranked>, k: nat, id: int)
    requires DistinctIds(bm25) && DistinctIds(vector) && k > 0
    requires |bm25| <= k + 1 && |vector| <= k + 1
    requires id in Ids(bm25) * Ids(vector)
    ensures FusedItem(bm25, vector, k, id).score > Reciprocal(k, 1)
  {
    IdsMembers(bm25);
    IdsMembers(vector);
    var r :| 0 <= r < |bm25| && bm25[r].id == id;
    var s :| 0 <= s < |vector| && vector[s].id == id;
    DistinctStream(bm25, r, k);
    DistinctStream(vector, s, k);
    TwoBeatOne(k, r + 1, s + 1);
  }

  lemma FoundOnce(bm25: seq<Ranked>, vector: seq<Ranked>, k: nat, id: int)
    requires DistinctIds(bm25) && DistinctIds(vector)
    requires id !in Ids(bm25) * Ids(vector)
    ensures FusedItem(bm25, vector, k, id).score <= Reciprocal(k, 1)
  {
    AtMostFirst(bm25, k, id);
    AtMostFirst(vector, k, id);
    if id !in Ids(bm25) { AbsentFromStream(bm25, id, k); } else { AbsentFromStream(vector, id, k); }
  }

  lemma AtMostFirst(stream: seq<Ranked>, k: nat, id: int)
    requires DistinctIds(stream)
    ensures Contribution(stream, id, k) <= Reciprocal(k, 1)
  {
    IdsMembers(stream);
    if id in Ids(stream) {
      var r :| 0 <= r < |stream| && stream[r].id == id;
      DistinctStream(stream, r, k);
      ReciprocalOrder(k, 1, r + 1);
    } else {
      ReciprocalOrder(k, 1, 1);
      AbsentFromStream(stream, id, k);
    }
  }

  lemma {:induction false} DiversifyDescending(items: seq<Ranked>, cap: nat)
    requires Descending(items)
    ensures Descending(Diversify(items, cap))
    decreases |items|
  {
    if items != [] {
      hide Open;
      var rest, last := items[..|items| - 1], items[|items| - 1];
      DiversifyDescending(rest, cap);
      DiversifyMembers(rest, cap);
      assert forall x :: x in rest ==> x.score >= last.score;
      var kept := Diversify(rest, cap);
      assert forall i :: 0 <= i < |kept| ==> kept[i] in rest;
      assert Descending(kept + [last]);
    }
  }

  /** Streams of at most `n` places rank whatever both found before whatever one found. */
  ghost predicate BothPrecede(k: nat, n: nat) {
    forall bm25, vector, x, y ::
      DistinctIds(bm25) && DistinctIds(vector) && |bm25| <= n && |vector| <= n
      && x in Ids(bm25) * Ids(vector) && y !in Ids(bm25) * Ids(vector)
      ==> Before(FusedItem(bm25, vector, k, x), FusedItem(bm25, vector, k, y))
  }

  /** k + 1 is exactly the longest stream length for which this holds. */
  lemma {:induction false} DominanceLimit(k: nat, n: nat)
    requires k > 0
    ensures BothPrecede(k, n) <==> n <= k + 1
  {
    if n <= k + 1 {
      forall bm25, vector, x, y
        | DistinctIds(bm25) && DistinctIds(vector) && |bm25| <= n && |vector| <= n
          && x in Ids(bm25) * Ids(vector) && y !in Ids(bm25) * Ids(vector)
        ensures Before(FusedItem(bm25, vector, k, x), FusedItem(bm25, vector, k, y))
      {
        FoundTwice(bm25, vector, k, x);
        FoundOnce(bm25, vector, k, y);
      }
    } else {
      Inverted(k);
    }
  }

  /** k + 1 ids of its own, then one that both streams share. */
  function LongStream(k: nat, from: nat): (r: seq<Ranked>)
    ensures |r| == k + 2
  {
    seq(k + 2, i requires 0 <= i < k + 2 => Ranked(if i <= k then from + i else 2 * k + 4, "", 0.0, 0, 0))
  }

  lemma LongStreamIds(k: nat, from: nat)
    requires from <= k + 2
    ensures DistinctIds(LongStream(k, from)) && 2 * k + 4 in Ids(LongStream(k, from))
    ensures from > 1 ==> 1 !in Ids(LongStream(k, from))
  {
    IdsMembers(LongStream(k, from));
    assert LongStream(k, from)[k + 1].id == 2 * k + 4;
  }

  /** A first place in one stream ties with two last places, and the lower id goes first. */
  lemma Inverted(k: nat)
    requires k > 0
    ensures var bm25, vector, shared := LongStream(k, 1), LongStream(k, k + 2), 2 * k + 4;
      && DistinctIds(bm25) && DistinctIds(vector)
      && shared in Ids(bm25) * Ids(vector) && 1 !in Ids(bm25) * Ids(vector)
      && !Before(FusedItem(bm25, vector, k, shared), FusedItem(bm25, vector, k, 1))
  {
    hide Contribution, Ids, LastRank, FirstNamedSession;
    var bm25, vector := LongStream(k, 1), LongStream(k, k + 2);
    LongStreamIds(k, 1);
    LongStreamIds(k, k + 2);
    DistinctStream(bm25, 0, k);
    DistinctStream(bm25, k + 1, k);
    DistinctStream(vector, k + 1, k);
    AbsentFromStream(vector, 1, k);
    TwoLastPlaces(k);
  }

  lemma TwoLastPlaces(k: nat)
    ensures Reciprocal(k, k + 2) + Reciprocal(k, k + 2) == Reciprocal(k, 1)
  {
    var whole := (k + 1) as real;
    assert (k + (k + 2)) as real == 2.0 * whole;
    assert 1.0 / (2.0 * whole) == (1.0 / whole) / 2.0;
  }

  // ---------------------------------------------------------------- lexical fallback

  /** The BM25 stream with the scores fusion gives it. */
  function Scored(bm25: seq<Ranked>, k: nat): seq<Ranked> {
    seq(|bm25|, i requires 0 <= i < |bm25| => Ranked(bm25[i].id, bm25[i].session, Reciprocal(k, i + 1), i + 1, 0))
  }

  lemma ScoredIsFused(bm25: seq<Ranked>, k: nat, i: nat)
    requires DistinctIds(bm25) && i < |bm25|
    ensures FusedItem(bm25, [], k, bm25[i].id) == Scored(bm25, k)[i]
  {
    DistinctStream(bm25, i, k);
  }

  lemma ScoredIsRanking(bm25: seq<Ranked>, k: nat)
    requires DistinctIds(bm25)
    ensures IsRanking(FusedTable(bm25, [], k), Scored(bm25, k))
  {
    hide FusedItem, Ids, Reciprocal;
    var m, items := FusedTable(bm25, [], k), Scored(bm25, k);
    IdsMembers(bm25);
    IdsMembers([]);
    forall i | 0 <= i < |bm25| ensures items[i].id in m && m[items[i].id] == items[i] {
      ScoredIsFused(bm25, k, i);
      assert bm25[i].id in Ids(bm25);
    }
    forall id | id in m ensures m[id] in items {
      assert id in Ids(bm25);
      var i :| 0 <= i < |bm25| && bm25[i].id == id;
      assert items[i] == m[items[i].id];
    }
    ScoredInOrder(bm25, k);
  }

  lemma ScoredInOrder(bm25: seq<Ranked>, k: nat)
    ensures forall i, j :: 0 <= i < j < |bm25| ==> Before(Scored(bm25, k)[i], Scored(bm25, k)[j])
  {
    hide Reciprocal;
    forall i, j | 0 <= i < j < |bm25| ensures Before(Scored(bm25, k)[i], Scored(bm25, k)[j]) {
      ReciprocalOrder(k, i + 1, j + 1);
    }
  }

  /** With no vector stream the answer is the BM25 order under the session cap. */
  lemma LexicalFallback(bm25: seq<Ranked>, rrfK: int, finalK: int, maxPerSession: int)
    requires DistinctIds(bm25)
    ensures Fused(bm25, [], rrfK, finalK, maxPerSession)
      == Take(Diversify(Scored(bm25, OrDefault(rrfK, 60)), OrDefault(maxPerSession, 3)), OrDefault(finalK, 10))
  {
    var k := OrDefault(rrfK, 60);
    ScoredIsRanking(bm25, k);
    RankingUnique(FusedTable(bm25, [], k), Ranking(FusedTable(bm25, [], k)), Scored(bm25, k));
  }
}
