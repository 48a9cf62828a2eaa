/** Reciprocal-rank fusion of two ranked streams with a per-session cap
    (internal/search/rrf.go). Scores are exact reals. */
module RankFusion {
  import Sets
  import opened Sorting

  datatype Ranked = Ranked(id: int, session: string, score: real, bm25Rank: nat, vecRank: nat)

  const UNSEEN := Ranked(0, "", 0.0, 0, 0)

  // ---------------------------------------------------------------- fused scores

  function OrDefault(value: int, default: nat): (r: nat)
    requires default > 0
    ensures r > 0
    ensures value > 0 ==> r == value
    ensures value <= 0 ==> r == default
  {
    if value <= 0 then default else value
  }

  function Reciprocal(k: nat, rank: nat): real
    requires rank > 0
  {
    1.0 / (k + rank) as real
  }

  /** Everything `id` collects from one stream: one reciprocal per occurrence. */
  function Contribution(stream: seq<Ranked>, id: int, k: nat): real {
    if stream == [] then 0.0 else
      var n := |stream|;
      Contribution(stream[..n - 1], id, k)
      + if stream[n - 1].id == id then Reciprocal(k, n) else 0.0
  }

  /** 1-based rank of the last occurrence, 0 when absent. */
  function LastRank(stream: seq<Ranked>, id: int): (r: nat)
    ensures r <= |stream|
  {
    if stream == [] then 0
    else if stream[|stream| - 1].id == id then |stream|
    else LastRank(stream[..|stream| - 1], id)
  }

  function LastSession(stream: seq<Ranked>, id: int): string {
    var r := LastRank(stream, id);
    if r == 0 then "" else stream[r - 1].session
  }

  function FirstNamedSession(stream: seq<Ranked>, id: int): string {
    if stream == [] then "" else
      var n := |stream|;
      var earlier := FirstNamedSession(stream[..n - 1], id);
      if earlier == "" && stream[n - 1].id == id then stream[n - 1].session else earlier
  }

  function SessionOf(bm25: seq<Ranked>, vector: seq<Ranked>, id: int): string {
    var s := LastSession(bm25, id);
    if s != "" then s else FirstNamedSession(vector, id)
  }

  function Ids(stream: seq<Ranked>): set<int> {
    if stream == [] then {} else Ids(stream[..|stream| - 1]) + {stream[|stream| - 1].id}
  }

  lemma IdsMembers(stream: seq<Ranked>)
    ensures forall i :: 0 <= i < |stream| ==> stream[i].id in Ids(stream)
    ensures forall id :: id in Ids(stream) ==> exists i :: 0 <= i < |stream| && stream[i].id == id
  {
    if stream != [] {
      var rest := stream[..|stream| - 1];
      IdsMembers(rest);
      assert forall i :: 0 <= i < |rest| ==> rest[i] == stream[i];
    }
  }

  function FusedItem(bm25: seq<Ranked>, vector: seq<Ranked>, k: nat, id: int): Ranked {
    Ranked(id, SessionOf(bm25, vector, id),
           Contribution(bm25, id, k) + Contribution(vector, id, k),
           LastRank(bm25, id), LastRank(vector, id))
  }

  /** The merged table, item by item, with no reference to the order of the merge. */
  ghost predicate IsFusedTable(m: map<int, Ranked>, bm25: seq<Ranked>, vector: seq<Ranked>, k: nat) {
    && m.Keys == Ids(bm25) + Ids(vector)
    && forall id :: id in m ==> m[id] == FusedItem(bm25, vector, k, id)
  }

  /** The merged table. */
  function FusedTable(bm25: seq<Ranked>, vector: seq<Ranked>, k: nat): map<int, Ranked> {
    map id | id in Ids(bm25) + Ids(vector) :: FusedItem(bm25, vector, k, id)
  }

  lemma AbsentFromStream(s: seq<Ranked>, id: int, k: nat)
    requires id !in Ids(s)
    ensures Contribution(s, id, k) == 0.0 && LastRank(s, id) == 0 && FirstNamedSession(s, id) == ""
  {
    if s != [] {
      AbsentFromStream(s[..|s| - 1], id, k);
    }
  }

  // ---------------------------------------------------------------- ranking

  /** The comparator of the final sort: higher score first, then lower id. */
  predicate Before(a: Ranked, b: Ranked) {
    if a.score == b.score then a.id < b.id else a.score > b.score
  }

  /** `items` lists the table's items once each, best first. */
  ghost predicate IsRanking(m: map<int, Ranked>, items: seq<Ranked>) {
    && (forall i :: 0 <= i < |items| ==> items[i].id in m && m[items[i].id] == items[i])
    && (forall id :: id in m ==> m[id] in items)
    && (forall i, j :: 0 <= i < j < |items| ==> Before(items[i], items[j]))
  }

  /** A table has one ranking, whatever order its rows were visited in. */
  lemma {:induction false} RankingUnique(m: map<int, Ranked>, a: seq<Ranked>, b: seq<Ranked>)
    requires forall id :: id in m ==> m[id].id == id
    requires IsRanking(m, a) && IsRanking(m, b)
    ensures a == b
  {
    forall q | 0 <= q < |a| ensures q < |b| && a[q] == b[q] { RankingsAgreeAt(m, a, b, q); }
    forall q | 0 <= q < |b| ensures q < |a| && a[q] == b[q] { RankingsAgreeAt(m, b, a, q); }
    if |b| > 0 { RankingsAgreeAt(m, b, a, |b| - 1); }
    if |a| > 0 { RankingsAgreeAt(m, a, b, |a| - 1); }
  }

  lemma {:induction false} RankingsAgreeAt(m: map<int, Ranked>, a: seq<Ranked>, b: seq<Ranked>, q: nat)
    requires forall id :: id in m ==> m[id].id == id
    requires IsRanking(m, a) && IsRanking(m, b)
    requires q < |a|
    ensures q < |b| && a[q] == b[q]
  {
    forall r: nat | r < q ensures r < |b| && a[r] == b[r] { RankingsAgreeAt(m, a, b, r); }
    assert m[a[q].id] in b;
    var i :| 0 <= i < |b| && b[i] == a[q];
    assert forall r :: 0 <= r < q ==> Before(a[r], a[q]) && b[r] == a[r];
    assert q <= i;
    assert m[b[q].id] in a;
    var j :| 0 <= j < |a| && a[j] == b[q];
    assert forall r :: 0 <= r < q ==> Before(b[r], b[q]) && b[r] == a[r];
    assert q <= j;
    SameTop(a, b, q, i, j);
  }

  lemma SameTop(a: seq<Ranked>, b: seq<Ranked>, q: nat, i: nat, j: nat)
    requires forall x, y :: 0 <= x < y < |a| ==> Before(a[x], a[y])
    requires forall x, y :: 0 <= x < y < |b| ==> Before(b[x], b[y])
    requires q <= i < |b| && q <= j < |a| && b[i] == a[q] && a[j] == b[q]
    ensures a[q] == b[q]
  {
  }

  ghost function InsertRanked(items: seq<Ranked>, x: Ranked): (r: seq<Ranked>)
    requires forall i, j :: 0 <= i < j < |items| ==> Before(items[i], items[j])
    requires forall i :: 0 <= i < |items| ==> items[i].id != x.id
    ensures forall i, j :: 0 <= i < j < |r| ==> Before(r[i], r[j])
    ensures forall y :: y in r <==> y in items || y == x
  {
    if items == [] then [x]
    else
      var n := |items| - 1;
      var rest := items[..n];
      assert items == rest + [items[n]];
      if Before(items[n], x) then
        assert forall i :: 0 <= i < n ==> Before(items[i], items[n]);
        items + [x]
      else
        var r := InsertRanked(rest, x);
        assert forall i :: 0 <= i < |r| ==> r[i] in rest || r[i] == x;
        r + [items[n]]
  }

  lemma InsertIsRanking(m: map<int, Ranked>, id: int, items: seq<Ranked>)
    requires forall x :: x in m ==> m[x].id == x
    requires id in m && IsRanking(m - {id}, items)
    ensures IsRanking(m, InsertRanked(items, m[id]))
  {
    var r := InsertRanked(items, m[id]);
    forall i | 0 <= i < |r| ensures r[i].id in m && m[r[i].id] == r[i] {
      assert r[i] in items || r[i] == m[id];
    }
    forall x | x in m ensures m[x] in r {
      assert x != id ==> (m - {id})[x] in items;
    }
  }

  lemma {:induction false} ListRanking(m: map<int, Ranked>) returns (items: seq<Ranked>)
    requires forall id :: id in m ==> m[id].id == id
    ensures IsRanking(m, items)
    decreases |m|
  {
    if m.Keys == {} {
      items := [];
    } else {
      var id := Sets.Draw(m.Keys);
      var rest := ListRanking(m - {id});
      InsertIsRanking(m, id, rest);
      items := InsertRanked(rest, m[id]);
    }
  }

  lemma HasRanking(m: map<int, Ranked>)
    requires forall id :: id in m ==> m[id].id == id
    ensures exists items :: IsRanking(m, items)
  {
    var items := ListRanking(m);
  }

  /** The ranking of a table; RankingUnique makes it the only one. */
  ghost function Ranking(m: map<int, Ranked>): (items: seq<Ranked>)
    requires forall id :: id in m ==> m[id].id == id
    ensures IsRanking(m, items)
  {
    HasRanking(m);
    var items :| IsRanking(m, items);
    items
  }

  // ---------------------------------------------------------------- selection

  /** How many listed items carry each session name. */
  function Sessions(items: seq<Ranked>): multiset<string> {
    if items == [] then multiset{}
    else Sessions(items[..|items| - 1]) + multiset{items[|items| - 1].session}
  }

  /** The cap leaves room for an item below `above`: items without a session always fit. */
  predicate Open(above: seq<Ranked>, session: string, cap: nat) {
    session == "" || Sessions(above)[session] < cap
  }

  /** The items that survive the per-session cap: fewer than `cap` items of the same
      session rank above them. */
  function Diversify(items: seq<Ranked>, cap: nat): seq<Ranked> {
    if items == [] then []
    else
      var n := |items| - 1;
      Diversify(items[..n], cap) + if Open(items[..n], items[n].session, cap) then [items[n]] else []
  }

  function Take<T>(s: seq<T>, n: nat): (r: seq<T>)
    ensures r <= s && (|r| == n || r == s)
  {
    if |s| <= n then s else s[..n]
  }

  /** What fusion returns, stated on the unique ranking of the merged table. */
  ghost function Fused(bm25: seq<Ranked>, vector: seq<Ranked>, rrfK: int, finalK: int,
      maxPerSession: int): seq<Ranked> {
    var ranking := Ranking(FusedTable(bm25, vector, OrDefault(rrfK, 60)));
    Take(Diversify(ranking, OrDefault(maxPerSession, 3)), OrDefault(finalK, 10))
  }

  function Lookup(byID: map<int, Ranked>, id: int): Ranked {
    if id in byID then byID[id] else UNSEEN
  }

  /** The row the first loop writes for `item` found at index `i`. */
  function MergeBm25(row: Ranked, item: Ranked, i: nat, k: nat): Ranked {
    Ranked(item.id, item.session, row.score + Reciprocal(k, i + 1), i + 1, row.vecRank)
  }

  /** The row the second loop writes. */
  function MergeVector(row: Ranked, item: Ranked, i: nat, k: nat): Ranked {
    Ranked(item.id, if row.session == "" then item.session else row.session,
           row.score + Reciprocal(k, i + 1), row.bm25Rank, i + 1)
  }

  lemma LookupFused(m: map<int, Ranked>, bm25: seq<Ranked>, vector: seq<Ranked>, k: nat, id: int)
    requires IsFusedTable(m, bm25, vector, k)
    ensures Lookup(m, id).(id := id) == FusedItem(bm25, vector, k, id)
  {
    if id !in Ids(bm25) { AbsentFromStream(bm25, id, k); }
    if id !in Ids(vector) { AbsentFromStream(vector, id, k); }
  }

  lemma MergeBm25Item(bm25: seq<Ranked>, i: nat, k: nat, id: int)
    requires i < |bm25|
    ensures var row := FusedItem(bm25[..i], [], k, id);
            FusedItem(bm25[..i + 1], [], k, id)
            == if id == bm25[i].id then MergeBm25(row, bm25[i], i, k) else row
  {
    assert bm25[..i + 1][..i] == bm25[..i];
    assert bm25[..i + 1][i] == bm25[i];
  }

  lemma MergeBm25Step(m: map<int, Ranked>, bm25: seq<Ranked>, i: nat, k: nat)
    requires i < |bm25| && IsFusedTable(m, bm25[..i], [], k)
    ensures var item := bm25[i];
            IsFusedTable(m[item.id := MergeBm25(Lookup(m, item.id), item, i, k)], bm25[..i + 1], [], k)
  {
    var item := bm25[i];
    LookupFused(m, bm25[..i], [], k, item.id);
    assert bm25[..i + 1][..i] == bm25[..i];
    var m' := m[item.id := MergeBm25(Lookup(m, item.id), item, i, k)];
    forall id | id in m' ensures m'[id] == FusedItem(bm25[..i + 1], [], k, id) {
      MergeBm25Item(bm25, i, k, id);
    }
  }

  lemma MergeVectorItem(bm25: seq<Ranked>, vector: seq<Ranked>, i: nat, k: nat, id: int)
    requires i < |vector|
    ensures var row := FusedItem(bm25, vector[..i], k, id);
            FusedItem(bm25, vector[..i + 1], k, id)
            == if id == vector[i].id then MergeVector(row, vector[i], i, k) else row
  {
    assert vector[..i + 1][..i] == vector[..i];
    assert vector[..i + 1][i] == vector[i];
  }

  lemma MergeVectorStep(m: map<int, Ranked>, bm25: seq<Ranked>, vector: seq<Ranked>, i: nat, k: nat)
    requires i < |vector| && IsFusedTable(m, bm25, vector[..i], k)
    ensures var item := vector[i];
            IsFusedTable(m[item.id := MergeVector(Lookup(m, item.id), item, i, k)], bm25, vector[..i + 1], k)
  {
    var item, shorter, longer := vector[i], vector[..i], vector[..i + 1];
    LookupFused(m, bm25, shorter, k, item.id);
    var row := MergeVector(Lookup(m, item.id), item, i, k);
    assert row == MergeVector(FusedItem(bm25, shorter, k, item.id), item, i, k);
    forall id ensures
      FusedItem(bm25, longer, k, id) == if id == item.id then row else FusedItem(bm25, shorter, k, id)
    {
      MergeVectorItem(bm25, vector, i, k, id);
    }
    assert longer[..i] == shorter;
    assert Ids(longer) == Ids(shorter) + {item.id};
  }

  lemma BeforeIsOrder()
    ensures IsOrder(Before)
  {
  }

  /** Sorting any listing of the table gives its ranking. */
  lemma SortedListingIsRanking(m: map<int, Ranked>, listed: seq<Ranked>, sorted: seq<Ranked>)
    requires forall i :: 0 <= i < |listed| ==> listed[i].id in m && m[listed[i].id] == listed[i]
    requires forall id :: id in m ==> m[id] in listed
    requires forall i, j :: 0 <= i < j < |listed| ==> listed[i].id != listed[j].id
    requires multiset(sorted) == multiset(listed) && SortedBy(Before, sorted)
    ensures IsRanking(m, sorted)
  {
    forall x ensures x in sorted <==> x in listed {
      assert x in sorted <==> x in multiset(sorted);
      assert x in listed <==> x in multiset(listed);
    }
    forall i | 0 <= i < |sorted| ensures sorted[i].id in m && m[sorted[i].id] == sorted[i] {
      assert sorted[i] in listed;
    }
    forall i, j | 0 <= i < j < |sorted| ensures Before(sorted[i], sorted[j]) {
      KeepsDistinct(listed, sorted, i, j);
      assert sorted[i] in listed && sorted[j] in listed;
    }
  }

  method FuseRRF(bm25: seq<Ranked>, vector: seq<Ranked>, rrfK: int, finalK: int, maxPerSession: int)
    returns (results: seq<Ranked>)
    ensures results == Fused(bm25, vector, rrfK, finalK, maxPerSession)
  {
    var k, limit, cap := OrDefault(rrfK, 60), OrDefault(finalK, 10), OrDefault(maxPerSession, 3);
    var byID: map<int, Ranked> := map[];
    for i := 0 to |bm25|
      invariant IsFusedTable(byID, bm25[..i], [], k)
    {
      MergeBm25Step(byID, bm25, i, k);
      var item := bm25[i];
      byID := byID[item.id := MergeBm25(Lookup(byID, item.id), item, i, k)];
    }
    assert bm25[..|bm25|] == bm25;
    for i := 0 to |vector|
      invariant IsFusedTable(byID, bm25, vector[..i], k)
    {
      MergeVectorStep(byID, bm25, vector, i, k);
      var item := vector[i];
      byID := byID[item.id := MergeVector(Lookup(byID, item.id), item, i, k)];
    }
    assert vector[..|vector|] == vector;

    assert byID == FusedTable(bm25, vector, k);
    var items := RankTable(byID);
    RankingUnique(byID, items, Ranking(byID));
    results := SelectCapped(items, limit, cap);
  }

  /** Lists the table in an arbitrary order, then sorts the listing in place. */
  method RankTable(byID: map<int, Ranked>) returns (items: seq<Ranked>)
    requires forall id :: id in byID ==> byID[id].id == id
    ensures IsRanking(byID, items)
  {
    var listed: seq<Ranked> := [];
    var pending := byID.Keys;
    while pending != {}
      decreases pending
      invariant pending <= byID.Keys
      invariant forall i :: 0 <= i < |listed| ==>
        listed[i].id in byID && listed[i].id !in pending && byID[listed[i].id] == listed[i]
      invariant forall id :: id in byID && id !in pending ==> byID[id] in listed
      invariant forall i, j :: 0 <= i < j < |listed| ==> listed[i].id != listed[j].id
    {
      ghost var any := Sets.Draw(pending);
      var id :| id in pending;
      listed := listed + [byID[id]];
      pending := pending - {id};
    }
    var a := new Ranked[|listed|](i requires 0 <= i < |listed| => listed[i]);
    assert a[..] == listed;
    BeforeIsOrder();
    InsertionSort(a, Before);
    items := a[..];
    SortedListingIsRanking(byID, listed, items);
  }

  /** The counter the selection loop keeps per session name. */
  function Counter(perSession: map<string, nat>, session: string): nat {
    if session in perSession then perSession[session] else 0
  }

  ghost predicate CountsNamed(perSession: map<string, nat>, results: seq<Ranked>) {
    forall s :: s != "" ==> Counter(perSession, s) == Sessions(results)[s]
  }

  lemma CountOneMore(perSession: map<string, nat>, results: seq<Ranked>, item: Ranked)
    requires CountsNamed(perSession, results)
    ensures item.session == "" ==> CountsNamed(perSession, results + [item])
    ensures CountsNamed(perSession[item.session := Counter(perSession, item.session) + 1], results + [item])
  {
    var longer := results + [item];
    assert longer[..|longer| - 1] == results;
    assert Sessions(longer) == Sessions(results) + multiset{item.session};
  }

  /** Counting the kept items of a session opens the same slots as counting all items above. */
  lemma OpenByKept(above: seq<Ranked>, session: string, cap: nat)
    requires cap > 0
    ensures Open(above, session, cap) <==> session == "" || Sessions(Diversify(above, cap))[session] < cap
  {
    SessionsDiversified(above, cap);
  }

  method SelectCapped(items: seq<Ranked>, finalK: nat, maxPerSession: nat) returns (results: seq<Ranked>)
    requires finalK > 0 && maxPerSession > 0
    ensures results == Take(Diversify(items, maxPerSession), finalK)
  {
    var perSession: map<string, nat> := map[];
    results := [];
    for i := 0 to |items|
      invariant results == Diversify(items[..i], maxPerSession) && |results| < finalK
      invariant CountsNamed(perSession, results)
    {
      var item := items[i];
      assert items[..i + 1][..i] == items[..i];
      OpenByKept(items[..i], item.session, maxPerSession);
      if item.session != "" && Counter(perSession, item.session) >= maxPerSession {
        continue;
      }
      CountOneMore(perSession, results, item);
      results := results + [item];
      if item.session != "" {
        perSession := perSession[item.session := Counter(perSession, item.session) + 1];
      }
      if |results| >= finalK {
        DiversifyPrefix(items, i + 1, maxPerSession);
        return;
      }
    }
    assert items[..|items|] == items;
  }

  function Capped(session: string, available: nat, cap: nat): nat {
    if session == "" || available <= cap then available else cap
  }

  /** The cap keeps min(cap, available) of every named session and every unnamed item. */
  lemma {:induction false} SessionsDiversified(items: seq<Ranked>, cap: nat)
    ensures forall s :: Sessions(Diversify(items, cap))[s] == Capped(s, Sessions(items)[s], cap)
  {
    if items != [] {
      var n := |items| - 1;
      SessionsDiversified(items[..n], cap);
      var d := Diversify(items[..n], cap) + [items[n]];
      assert d[..|d| - 1] == Diversify(items[..n], cap);
      assert Diversify(items[..n], cap) + [] == Diversify(items[..n], cap);
    }
  }

  lemma {:induction false} DiversifyPrefix(items: seq<Ranked>, i: nat, cap: nat)
    requires i <= |items|
    ensures Diversify(items[..i], cap) <= Diversify(items, cap)
    decreases |items|
  {
    if i < |items| {
      DiversifyPrefix(items[..|items| - 1], i, cap);
      assert items[..|items| - 1][..i] == items[..i];
    } else {
      assert items[..i] == items;
    }
  }
}
