/** What a fused answer means in terms of the two streams alone (internal/search/rrf.go:13-69):
    the ranks, the session and the score of every item, the order, the cap, and why an item
    that was found is not listed. Nothing here is said through the functions that compute it. */
module FusionMeaning {
  import opened RankFusion
  import opened RankFusionTheorems
  import Sets

  // ---------------------------------------------------------------- what the streams say

  /** `r` is the 1-based place of the last occurrence of `id`, 0 when there is none. */
  ghost predicate PlaceIn(stream: seq<Ranked>, id: int, r: nat) {
    && r <= |stream| && (r > 0 ==> stream[r - 1].id == id)
    && forall j :: r <= j < |stream| ==> stream[j].id != id
  }

  /** `q` is the first occurrence of `id` that names a session. */
  ghost predicate FirstNamedAt(stream: seq<Ranked>, q: nat, id: int) {
    && q < |stream| && stream[q].id == id && stream[q].session != ""
    && forall j :: 0 <= j < q && stream[j].id == id ==> stream[j].session == ""
  }

  ghost predicate Unnamed(stream: seq<Ranked>, id: int) {
    forall j :: 0 <= j < |stream| && stream[j].id == id ==> stream[j].session == ""
  }

  /** The session the last BM25 occurrence names; failing that, the first session a vector
      occurrence names; failing that, none. */
  ghost predicate CarriesSession(bm25: seq<Ranked>, vector: seq<Ranked>, x: Ranked) {
    if 0 < x.bm25Rank <= |bm25| && bm25[x.bm25Rank - 1].session != "" then
      x.session == bm25[x.bm25Rank - 1].session
    else
      || (x.session == "" && Unnamed(vector, x.id))
      || exists q: nat :: FirstNamedAt(vector, q, x.id) && x.session == vector[q].session
  }

  /** `x` is what the streams say about an id they found. */
  ghost predicate Found(bm25: seq<Ranked>, vector: seq<Ranked>, x: Ranked) {
    && (x.bm25Rank > 0 || x.vecRank > 0)
    && PlaceIn(bm25, x.id, x.bm25Rank) && PlaceIn(vector, x.id, x.vecRank)
    && CarriesSession(bm25, vector, x)
  }

  /** What one place is worth. */
  function Share(k: nat, rank: nat): real {
    if rank == 0 then 0.0 else 1.0 / (k + rank) as real
  }

  /** What an item scores when no stream repeats an id. */
  ghost predicate Scores(k: nat, x: Ranked) {
    x.score == Share(k, x.bm25Rank) + Share(k, x.vecRank)
  }

  predicate Ahead(a: Ranked, b: Ranked) {
    a.score > b.score || (a.score == b.score && a.id < b.id)
  }

  /** The listed items of a session that are ahead of `x`. */
  ghost function OfSession(kept: seq<Ranked>, session: string, x: Ranked): set<nat> {
    set i | 0 <= i < |kept| && kept[i].session == session && Ahead(kept[i], x)
  }

  ghost function AllOfSession(kept: seq<Ranked>, session: string): set<nat> {
    set i | 0 <= i < |kept| && kept[i].session == session
  }

  /** Why a found item is not listed: the list is full of items ahead of it, or its session
      already has its share of items ahead of it. */
  ghost predicate Excused(kept: seq<Ranked>, limit: nat, cap: nat, x: Ranked) {
    || (|kept| == limit && forall i :: 0 <= i < |kept| ==> Ahead(kept[i], x))
    || (x.session != "" && |OfSession(kept, x.session, x)| >= cap)
  }

  /** The answer in the streams' own terms. */
  ghost predicate IsFusion(bm25: seq<Ranked>, vector: seq<Ranked>, k: nat, limit: nat, cap: nat, kept: seq<Ranked>) {
    && (forall x :: x in kept ==> Found(bm25, vector, x) && Scores(k, x))
    && (forall i, j :: 0 <= i < j < |kept| ==> Ahead(kept[i], kept[j]))
    && |kept| <= limit
    && (forall s :: s != "" ==> |AllOfSession(kept, s)| <= cap)
    && forall x :: Found(bm25, vector, x) && Scores(k, x) ==> x in kept || Excused(kept, limit, cap, x)
  }

  // ---------------------------------------------------------------- the fused table says it

  lemma {:induction false} LastRankMeans(stream: seq<Ranked>, id: int)
    ensures PlaceIn(stream, id, LastRank(stream, id))
    decreases |stream|
  {
    if stream != [] { LastRankMeans(stream[..|stream| - 1], id); }
  }

  lemma SamePlace(stream: seq<Ranked>, id: int, r: nat, r': nat)
    requires PlaceIn(stream, id, r) && PlaceIn(stream, id, r')
    ensures r == r'
  {
  }

  lemma {:induction false} FirstNamedMeans(stream: seq<Ranked>, id: int)
    ensures var s := FirstNamedSession(stream, id);
      || (s == "" && Unnamed(stream, id))
      || exists q: nat :: FirstNamedAt(stream, q, id) && s == stream[q].session
    decreases |stream|
  {
    if stream != [] {
      var n := |stream| - 1;
      var rest := stream[..n];
      FirstNamedMeans(rest, id);
      var s := FirstNamedSession(rest, id);
      if s != "" {
        var q: nat :| FirstNamedAt(rest, q, id) && rest[q].session == s;
        assert FirstNamedAt(stream, q, id) && stream[q].session == s;
      } else if FirstNamedSession(stream, id) != "" {
        assert forall j :: 0 <= j < n ==> stream[j] == rest[j];
        assert FirstNamedAt(stream, n, id);
      }
    }
  }

  /** The merged row of an id either stream lists. */
  lemma ItemIsFound(bm25: seq<Ranked>, vector: seq<Ranked>, k: nat, id: int)
    requires id in Ids(bm25) + Ids(vector)
    ensures Found(bm25, vector, FusedItem(bm25, vector, k, id))
  {
    hide Contribution, FirstNamedSession, Ids, LastRank;
    LastRankMeans(bm25, id);
    LastRankMeans(vector, id);
    FirstNamedMeans(vector, id);
    IdsMembers(bm25);
    IdsMembers(vector);
  }

  /** An appended occurrence adds one reciprocal of its place to its own id's score alone;
      streams with nothing in them score nothing. */
  lemma {:induction false} ScoreGrows(bm25: seq<Ranked>, vector: seq<Ranked>, x: Ranked, k: nat, id: int)
    ensures FusedItem([], [], k, id).score == 0.0
    ensures FusedItem(bm25 + [x], vector, k, id).score
      == FusedItem(bm25, vector, k, id).score + if id == x.id then 1.0 / (k + |bm25| + 1) as real else 0.0
    ensures FusedItem(bm25, vector + [x], k, id).score
      == FusedItem(bm25, vector, k, id).score + if id == x.id then 1.0 / (k + |vector| + 1) as real else 0.0
  {
    assert (bm25 + [x])[..|bm25|] == bm25 && (vector + [x])[..|vector|] == vector;
  }

  lemma ContributionIsShare(stream: seq<Ranked>, k: nat, id: int)
    requires DistinctIds(stream)
    ensures Contribution(stream, id, k) == Share(k, LastRank(stream, id))
  {
    hide Ids, FirstNamedSession;
    LastRankMeans(stream, id);
    IdsMembers(stream);
    var r := LastRank(stream, id);
    if r > 0 {
      DistinctStream(stream, r - 1, k);
    } else {
      AbsentFromStream(stream, id, k);
    }
  }

  /** Two items the streams describe and that score by their places are the same item. */
  lemma FoundIsFused(bm25: seq<Ranked>, vector: seq<Ranked>, k: nat, x: Ranked)
    requires DistinctIds(bm25) && DistinctIds(vector)
    requires Found(bm25, vector, x) && Scores(k, x)
    ensures x.id in Ids(bm25) + Ids(vector) && x == FusedItem(bm25, vector, k, x.id)
  {
    hide Contribution, FirstNamedSession, Ids, LastRank;
    var id := x.id;
    LastRankMeans(bm25, id);
    LastRankMeans(vector, id);
    SamePlace(bm25, id, x.bm25Rank, LastRank(bm25, id));
    SamePlace(vector, id, x.vecRank, LastRank(vector, id));
    ContributionIsShare(bm25, k, id);
    ContributionIsShare(vector, k, id);
    FirstNamedMeans(vector, id);
    IdsMembers(bm25);
    IdsMembers(vector);
    assert x.session == SessionOf(bm25, vector, id);
  }

  // ---------------------------------------------------------------- the answer

  lemma FusedFromStreams(bm25: seq<Ranked>, vector: seq<Ranked>, rrfK: int, finalK: int, maxPerSession: int, i: nat)
    requires i < |Fused(bm25, vector, rrfK, finalK, maxPerSession)|
    ensures var item := Fused(bm25, vector, rrfK, finalK, maxPerSession)[i];
      item.id in Ids(bm25) + Ids(vector) && item == FusedItem(bm25, vector, OrDefault(rrfK, 60), item.id)
  {
    hide Contribution, SessionOf, Ids, Diversify, Ranking;
    var m, cap := FusedTable(bm25, vector, OrDefault(rrfK, 60)), OrDefault(maxPerSession, 3);
    DiversifyMembers(Ranking(m), cap);
    var kept := Fused(bm25, vector, rrfK, finalK, maxPerSession);
    assert kept == Take(Diversify(Ranking(m), cap), OrDefault(finalK, 10));
    hide Fused;
    assert kept[i] == Diversify(Ranking(m), cap)[i];
    assert kept[i] in Ranking(m);
  }

  lemma FusedShape(bm25: seq<Ranked>, vector: seq<Ranked>, rrfK: int, finalK: int, maxPerSession: int)
    ensures var items := Fused(bm25, vector, rrfK, finalK, maxPerSession);
      && |items| <= OrDefault(finalK, 10) && WithinCap(items, OrDefault(maxPerSession, 3))
      && forall i, j :: 0 <= i < j < |items| ==> items[i].id != items[j].id
  {
    hide Contribution, SessionOf, Ids;
    var m, cap := FusedTable(bm25, vector, OrDefault(rrfK, 60)), OrDefault(maxPerSession, 3);
    var ranking := Ranking(m);
    KeptWithinCap(ranking, cap, OrDefault(finalK, 10));
    RankingDistinct(m, ranking);
    KeptDistinct(ranking, cap, OrDefault(finalK, 10));
    var items := Fused(bm25, vector, rrfK, finalK, maxPerSession);
    assert items == Take(Diversify(ranking, cap), OrDefault(finalK, 10));
    assert forall i, j :: 0 <= i < j < |items| ==> items[i].id != items[j].id;
  }

  lemma KeptDistinct(items: seq<Ranked>, cap: nat, finalK: nat)
    requires forall x, y :: 0 <= x < y < |items| ==> items[x] != items[y] && items[x].id != items[y].id
    ensures var kept := Take(Diversify(items, cap), finalK);
      forall i, j :: 0 <= i < j < |kept| ==> kept[i].id != kept[j].id
  {
    var all := Diversify(items, cap);
    DiversifyDistinct(items, cap);
    DiversifyMembers(items, cap);
    forall i, j | 0 <= i < j < |all| ensures all[i].id != all[j].id {
      assert all[i] in items && all[j] in items && all[i] != all[j];
    }
  }

  /** Ranks and session of every listed item, whatever the streams repeat. */
  lemma ListedIsFound(bm25: seq<Ranked>, vector: seq<Ranked>, rrfK: int, finalK: int, maxPerSession: int)
    ensures forall x :: x in Fused(bm25, vector, rrfK, finalK, maxPerSession) ==> Found(bm25, vector, x)
  {
    hide Fused, FusedItem, Found, Ids;
    var kept := Fused(bm25, vector, rrfK, finalK, maxPerSession);
    forall x | x in kept ensures Found(bm25, vector, x) {
      var i :| 0 <= i < |kept| && kept[i] == x;
      FusedFromStreams(bm25, vector, rrfK, finalK, maxPerSession, i);
      ItemIsFound(bm25, vector, OrDefault(rrfK, 60), x.id);
    }
  }

  /** An id whose every occurrence carries one session is listed with that session. */
  lemma SessionIsKept(bm25: seq<Ranked>, vector: seq<Ranked>, rrfK: int, finalK: int, maxPerSession: int, i: nat,
      session: string)
    requires i < |Fused(bm25, vector, rrfK, finalK, maxPerSession)|
    requires var id := Fused(bm25, vector, rrfK, finalK, maxPerSession)[i].id;
      && (forall j :: 0 <= j < |bm25| && bm25[j].id == id ==> bm25[j].session == session)
      && (forall j :: 0 <= j < |vector| && vector[j].id == id ==> vector[j].session == session)
    ensures Fused(bm25, vector, rrfK, finalK, maxPerSession)[i].session == session
  {
    hide Fused;
    ListedIsFound(bm25, vector, rrfK, finalK, maxPerSession);
    var x := Fused(bm25, vector, rrfK, finalK, maxPerSession)[i];
    assert x in Fused(bm25, vector, rrfK, finalK, maxPerSession);
    assert x.bm25Rank == 0 ==> vector[x.vecRank - 1].id == x.id;
  }

  lemma CapOnPlaces(kept: seq<Ranked>, cap: nat, s: string)
    requires WithinCap(kept, cap) && s != ""
    ensures |AllOfSession(kept, s)| <= cap
  {
    hide Sessions;
    SessionCount(kept, |kept|, s);
    assert kept[..|kept|] == kept;
    assert AllOfSession(kept, s) == PositionsOf(kept, |kept|, s);
  }

  lemma {:induction false} DiversifyAhead(items: seq<Ranked>, cap: nat)
    requires forall i, j :: 0 <= i < j < |items| ==> Ahead(items[i], items[j])
    ensures var d := Diversify(items, cap); forall i, j :: 0 <= i < j < |d| ==> Ahead(d[i], d[j])
    decreases |items|
  {
    if items != [] {
      hide Open, Ahead;
      var n := |items| - 1;
      var rest := items[..n];
      DiversifyAhead(rest, cap);
      DiversifyMembers(rest, cap);
      var d := Diversify(rest, cap);
      forall i | 0 <= i < |d| ensures Ahead(d[i], items[n]) {
        assert d[i] in rest;
        var j :| 0 <= j < |rest| && rest[j] == d[i];
        assert items[j] == rest[j];
      }
    }
  }

  /** A list cut short is full of what the cap let through above the cut. */
  lemma FullAbove(items: seq<Ranked>, limit: nat, cap: nat, i: nat)
    requires i < |items| && limit <= |Diversify(items[..i], cap)|
    requires forall a, b :: 0 <= a < b < |items| ==> Ahead(items[a], items[b])
    ensures Excused(Take(Diversify(items, cap), limit), limit, cap, items[i])
  {
    hide Diversify, Ahead;
    var kept, above := Take(Diversify(items, cap), limit), Diversify(items[..i], cap);
    DiversifyPrefix(items, i, cap);
    DiversifyMembers(items[..i], cap);
    forall j | 0 <= j < |kept| ensures Ahead(kept[j], items[i]) {
      assert kept[j] == above[j] && above[j] in items[..i];
    }
  }

  /** An item the cap turns away has its session's share listed ahead of it. */
  lemma SessionFull(items: seq<Ranked>, limit: nat, cap: nat, i: nat)
    requires i < |items| && |Diversify(items[..i], cap)| < limit
    requires forall a, b :: 0 <= a < b < |items| ==> Ahead(items[a], items[b])
    requires !Open(items[..i], items[i].session, cap)
    ensures Excused(Take(Diversify(items, cap), limit), limit, cap, items[i])
  {
    var kept, above, s := Take(Diversify(items, cap), limit), Diversify(items[..i], cap), items[i].session;
    SessionsDiversified(items[..i], cap);
    assert Sessions(above)[s] >= cap;
    hide Diversify, Ahead, Sessions;
    DiversifyPrefix(items, i, cap);
    DiversifyMembers(items[..i], cap);
    assert above <= kept;
    SessionCount(above, |above|, s);
    assert above[..|above|] == above;
    forall j | j in PositionsOf(above, |above|, s) ensures j in OfSession(kept, s, items[i]) {
      assert kept[j] == above[j] && above[j] in items[..i];
    }
    Sets.SubsetSize(PositionsOf(above, |above|, s), OfSession(kept, s, items[i]));
  }

  lemma MissingIsExcused(items: seq<Ranked>, limit: nat, cap: nat, i: nat)
    requires forall a, b :: 0 <= a < b < |items| ==> Ahead(items[a], items[b])
    requires i < |items| && items[i] !in Take(Diversify(items, cap), limit)
    ensures Excused(Take(Diversify(items, cap), limit), limit, cap, items[i])
  {
    hide Diversify, Open, Excused;
    SelectionRuleByPrefix(items, cap, limit, i);
    if limit <= |Diversify(items[..i], cap)| {
      FullAbove(items, limit, cap, i);
    } else {
      SessionFull(items, limit, cap, i);
    }
  }

  /** What fusion returns is the answer in the streams' own terms. */
  lemma FusedIsFusion(bm25: seq<Ranked>, vector: seq<Ranked>, rrfK: int, finalK: int, maxPerSession: int)
    requires DistinctIds(bm25) && DistinctIds(vector)
    ensures IsFusion(bm25, vector, if rrfK <= 0 then 60 else rrfK, if finalK <= 0 then 10 else finalK,
                     if maxPerSession <= 0 then 3 else maxPerSession,
                     Fused(bm25, vector, rrfK, finalK, maxPerSession))
  {
    hide Diversify, Found, Ids, Excused, WithinCap, AllOfSession, SessionOf, Contribution, LastRank;
    var k, limit, cap := OrDefault(rrfK, 60), OrDefault(finalK, 10), OrDefault(maxPerSession, 3);
    var m := FusedTable(bm25, vector, k);
    var items := Ranking(m);
    var kept := Fused(bm25, vector, rrfK, finalK, maxPerSession);
    assert kept == Take(Diversify(items, cap), limit);
    assert forall a, b :: 0 <= a < b < |items| ==> Before(items[a], items[b]);
    DiversifyAhead(items, cap);
    var all := Diversify(items, cap);
    assert forall i, j :: 0 <= i < j < |kept| ==> Ahead(all[i], all[j]);
    FusedShape(bm25, vector, rrfK, finalK, maxPerSession);
    forall s | s != "" ensures |AllOfSession(kept, s)| <= cap { CapOnPlaces(kept, cap, s); }
    forall x | x in kept ensures Found(bm25, vector, x) && Scores(k, x) {
      ListedScores(bm25, vector, rrfK, finalK, maxPerSession, x);
    }
    forall x | Found(bm25, vector, x) && Scores(k, x) && x !in kept ensures Excused(kept, limit, cap, x) {
      FoundIsFused(bm25, vector, k, x);
      assert m[x.id] in items;
      var i :| 0 <= i < |items| && items[i] == x;
      MissingIsExcused(items, limit, cap, i);
    }
    assert |kept| <= limit;
    assert forall i, j :: 0 <= i < j < |kept| ==> Ahead(kept[i], kept[j]);
    assert IsFusion(bm25, vector, k, limit, cap, kept);
  }

  lemma ListedScores(bm25: seq<Ranked>, vector: seq<Ranked>, rrfK: int, finalK: int, maxPerSession: int, x: Ranked)
    requires DistinctIds(bm25) && DistinctIds(vector)
    requires x in Fused(bm25, vector, rrfK, finalK, maxPerSession)
    ensures Found(bm25, vector, x) && Scores(OrDefault(rrfK, 60), x)
  {
    hide Fused, Found, Ids, Contribution;
    var k, kept := OrDefault(rrfK, 60), Fused(bm25, vector, rrfK, finalK, maxPerSession);
    ListedIsFound(bm25, vector, rrfK, finalK, maxPerSession);
    var i :| 0 <= i < |kept| && kept[i] == x;
    FusedFromStreams(bm25, vector, rrfK, finalK, maxPerSession, i);
    ContributionIsShare(bm25, k, x.id);
    ContributionIsShare(vector, k, x.id);
  }

  /** After the same first `p` items, one answer's next item is at least as far ahead as the
      other's. */
  lemma NoneBehind(bm25: seq<Ranked>, vector: seq<Ranked>, k: nat, limit: nat, cap: nat, a: seq<Ranked>,
      b: seq<Ranked>, p: nat)
    requires IsFusion(bm25, vector, k, limit, cap, a) && IsFusion(bm25, vector, k, limit, cap, b)
    requires p < |a| && p <= |b| && forall i :: 0 <= i < p ==> a[i] == b[i]
    ensures p < |b| && (b[p] == a[p] || Ahead(b[p], a[p]))
  {
    hide Found, Scores;
    var x := a[p];
    assert x.session != "" ==> |AllOfSession(a, x.session)| <= cap;
    if x in b {
      var q :| 0 <= q < |b| && b[q] == x;
      assert q < p ==> Ahead(a[q], a[p]);
    } else if !(p < |b| && Ahead(b[p], x)) {
      assert Excused(b, limit, cap, x);
      RoomLeft(a, b, p);
    }
  }

  /** Items of the session ahead of `a[p]` are listed before it in both. */
  lemma RoomLeft(a: seq<Ranked>, b: seq<Ranked>, p: nat)
    requires forall i, j :: 0 <= i < j < |b| ==> Ahead(b[i], b[j])
    requires p < |a| && p <= |b| && forall i :: 0 <= i < p ==> a[i] == b[i]
    requires a[p] !in b && !(p < |b| && Ahead(b[p], a[p]))
    ensures |OfSession(b, a[p].session, a[p])| < |AllOfSession(a, a[p].session)|
  {
    var s, x := a[p].session, a[p];
    assert forall i :: p < i < |b| ==> Ahead(b[p], b[i]);
    assert OfSession(b, s, x) <= AllOfSession(a, s) - {p};
    Sets.SubsetSize(OfSession(b, s, x), AllOfSession(a, s) - {p});
  }

  lemma {:induction false} AnswersAgree(bm25: seq<Ranked>, vector: seq<Ranked>, k: nat, limit: nat, cap: nat,
      a: seq<Ranked>, b: seq<Ranked>, p: nat)
    requires IsFusion(bm25, vector, k, limit, cap, a) && IsFusion(bm25, vector, k, limit, cap, b)
    requires p <= |a|
    ensures p <= |b| && forall i :: 0 <= i < p ==> a[i] == b[i]
    decreases p
  {
    hide IsFusion;
    if p > 0 {
      AnswersAgree(bm25, vector, k, limit, cap, a, b, p - 1);
      NoneBehind(bm25, vector, k, limit, cap, a, b, p - 1);
      NoneBehind(bm25, vector, k, limit, cap, b, a, p - 1);
    }
  }

  /** There is exactly one such answer, and fusion returns it. */
  lemma FusionIff(bm25: seq<Ranked>, vector: seq<Ranked>, rrfK: int, finalK: int, maxPerSession: int,
      kept: seq<Ranked>)
    requires DistinctIds(bm25) && DistinctIds(vector)
    ensures kept == Fused(bm25, vector, rrfK, finalK, maxPerSession)
      <==> IsFusion(bm25, vector, if rrfK <= 0 then 60 else rrfK, if finalK <= 0 then 10 else finalK,
                    if maxPerSession <= 0 then 3 else maxPerSession, kept)
  {
    hide IsFusion, Fused;
    var k, limit := if rrfK <= 0 then 60 else rrfK, if finalK <= 0 then 10 else finalK;
    var cap := if maxPerSession <= 0 then 3 else maxPerSession;
    var answer := Fused(bm25, vector, rrfK, finalK, maxPerSession);
    FusedIsFusion(bm25, vector, rrfK, finalK, maxPerSession);
    if IsFusion(bm25, vector, k, limit, cap, kept) {
      AnswersAgree(bm25, vector, k, limit, cap, kept, answer, |kept|);
      AnswersAgree(bm25, vector, k, limit, cap, answer, kept, |answer|);
    }
  }
}
