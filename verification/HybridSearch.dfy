/** Hybrid search end to end (internal/search/hybrid.go): effective limits, the guarded vector
    stream, fusion with the lexical stream and the touch of what is returned. The order of the
    full-text index and the reply of the embedding service are parameters. */
module HybridSearch {
  import opened Outcomes
  import opened MemoryStore
  import opened RankFusion
  import opened Sorting
  import Sets
  import B = CircuitBreaker
  import M = FusionMeaning
  import T = RankFusionTheorems
  import V = VectorSearch

  datatype Settings = Settings(bm25TopK: int, vectorTopK: int, finalTopK: int, rrfK: int, maxPerSession: int,
    model: string, dim: int, skipTouch: bool)

  datatype Query = Query(project: string, limit: int)

  /** The full-text index: its matches, best first, or why there are none. */
  datatype Lexical = Matches(ids: seq<int>) | NoFts | Broken(reason: string)

  /** An embedder may report its model and dimension. */
  datatype Embedder = Reporting(model: string, dim: int) | Silent

  /** One use of the embedding service: no reply stands for its error. */
  datatype Call = Call(askedAt: int, reply: Option<seq<real>>, recordedAt: int)

  datatype Hit = Hit(id: int, memory: Memory, score: real, bm25Rank: nat, vecRank: nat)

  // ---------------------------------------------------------------- limits

  function Effective(s: Settings, limit: int): Settings {
    var final := OrDefault(s.finalTopK, 10);
    s.(bm25TopK := OrDefault(s.bm25TopK, 50), vectorTopK := OrDefault(s.vectorTopK, 50),
       finalTopK := if 0 < limit < final then limit else final,
       rrfK := OrDefault(s.rrfK, 60), maxPerSession := OrDefault(s.maxPerSession, 3))
  }

  /** The lexical query has a limit of its own. */
  function SearchLimit(limit: int): nat {
    if limit <= 0 then 10 else if limit > 100 then 100 else limit
  }

  function CandidateLimit(limit: int): nat {
    if limit <= 0 then 10000 else if limit > 100000 then 100000 else limit
  }

  // ---------------------------------------------------------------- what the store offers

  predicate Distinct(ids: seq<int>) {
    forall i, j :: 0 <= i < j < |ids| ==> ids[i] != ids[j]
  }

  /** A stored memory of the project that nothing supersedes. */
  ghost predicate Searchable(t: Tables, project: string, id: int) {
    id in t.memories && t.memories[id].project == project && t.memories[id].supersededBy.None?
  }

  /** The index lists a memory at most once; nothing else is asked of its answer. */
  ghost predicate IndexAnswers(lexical: Lexical) {
    lexical.Matches? ==> Distinct(lexical.ids)
  }

  /** The matches the query's filter lets through, in the index's order. */
  ghost function Live(t: Tables, project: string, matches: seq<int>): seq<int> {
    if matches == [] then [] else
      var n := |matches| - 1;
      Live(t, project, matches[..n]) + if Searchable(t, project, matches[n]) then [matches[n]] else []
  }

  lemma {:induction false} LivePrefix(t: Tables, project: string, matches: seq<int>, i: nat)
    requires i <= |matches|
    ensures Live(t, project, matches[..i]) <= Live(t, project, matches)
    decreases |matches|
  {
    if i < |matches| {
      LivePrefix(t, project, matches[..|matches| - 1], i);
      assert matches[..|matches| - 1][..i] == matches[..i];
    } else {
      assert matches[..i] == matches;
    }
  }

  /** The joined query: matches of the project that are not superseded, best first, up to the
      clamped limit. */
  method SearchMemories(store: Store, project: string, matches: seq<int>, limit: int) returns (rows: seq<int>)
    ensures rows == Take(Live(store.Snapshot(), project, matches), SearchLimit(limit))
  {
    rows := [];
    ghost var t := store.Snapshot();
    for i := 0 to |matches|
      invariant rows == Live(t, project, matches[..i]) && |rows| <= SearchLimit(limit)
    {
      LivePrefix(t, project, matches, i);
      LivePrefix(t, project, matches, i + 1);
      assert matches[..i + 1][..i] == matches[..i];
      if |rows| == SearchLimit(limit) {
        return;
      }
      var id := matches[i];
      if id in store.memories && store.memories[id].project == project && store.memories[id].supersededBy.None? {
        rows := rows + [id];
      }
    }
    assert matches[..|matches|] == matches;
  }

  lemma {:induction false} LiveMembers(t: Tables, project: string, matches: seq<int>)
    requires Distinct(matches)
    ensures forall id :: id in Live(t, project, matches) <==> id in matches && Searchable(t, project, id)
    ensures Distinct(Live(t, project, matches))
    decreases |matches|
  {
    if matches != [] {
      hide Searchable;
      var n := |matches| - 1;
      LiveMembers(t, project, matches[..n]);
      assert forall id :: id in matches <==> id in matches[..n] || id == matches[n];
      assert matches[n] !in matches[..n];
    }
  }

  /** A live memory of the project with an embedding of this model and dimension. */
  ghost predicate Embedded(t: Tables, project: string, model: string, dim: nat, id: int) {
    && model != "" && dim > 0
    && id in t.embeddings && t.embeddings[id].model == model && |t.embeddings[id].vector| == dim
    && id in t.memories && t.memories[id].project == project && t.memories[id].supersededBy == None
  }

  datatype Entry = Entry(id: int, createdAt: int)

  predicate Newer(a: Entry, b: Entry) {
    if a.createdAt == b.createdAt then a.id > b.id else a.createdAt > b.createdAt
  }

  function EntryOf(t: Tables, id: int): Entry
    requires id in t.memories
  {
    Entry(id, t.memories[id].createdAt)
  }

  /** Created later, or at the same time with the higher id. */
  ghost predicate NewerRow(t: Tables, a: int, b: int) {
    && a in t.memories && b in t.memories && t.memories[a].createdAt >= t.memories[b].createdAt
    && (t.memories[a].createdAt == t.memories[b].createdAt ==> a > b)
  }

  /** The newest `n` embedded memories, newest first. */
  ghost predicate Newest(t: Tables, project: string, model: string, dim: nat, n: nat, list: seq<int>) {
    && Distinct(list) && |list| <= n
    && (forall id :: id in list ==> Embedded(t, project, model, dim, id))
    && (forall i, j :: 0 <= i < j < |list| ==> NewerRow(t, list[i], list[j]))
    && forall id, l :: Embedded(t, project, model, dim, id) && id !in list ==>
         |list| == n && (l in list ==> NewerRow(t, l, id))
  }

  method VectorCandidates(store: Store, project: string, model: string, dim: nat, limit: int) returns (list: seq<int>)
    ensures Newest(store.Snapshot(), project, model, dim,
                   if limit <= 0 then 10000 else if limit > 100000 then 100000 else limit, list)
  {
    var t := store.Snapshot();
    var entries := EmbeddedEntries(t, project, model, dim);
    var a := new Entry[|entries|](i requires 0 <= i < |entries| => entries[i]);
    assert a[..] == entries;
    InsertionSort(a, Newer);
    var sorted := a[..];
    SortedEntries(t, project, model, dim, entries, sorted);
    list := EntryIds(Take(sorted, CandidateLimit(limit)));
    HeadIsNewest(t, project, model, dim, sorted, CandidateLimit(limit));
  }

  function EntryIds(entries: seq<Entry>): seq<int> {
    seq(|entries|, i requires 0 <= i < |entries| => entries[i].id)
  }

  ghost predicate ListsEmbedded(t: Tables, project: string, model: string, dim: nat, skipped: set<int>,
      entries: seq<Entry>) {
    && (forall e :: e in entries ==>
         Embedded(t, project, model, dim, e.id) && e.id !in skipped && e == EntryOf(t, e.id))
    && (forall id :: Embedded(t, project, model, dim, id) && id !in skipped ==> EntryOf(t, id) in entries)
    && forall i, j :: 0 <= i < j < |entries| ==> entries[i] != entries[j]
  }

  method EmbeddedEntries(t: Tables, project: string, model: string, dim: nat) returns (entries: seq<Entry>)
    ensures ListsEmbedded(t, project, model, dim, {}, entries)
  {
    entries := [];
    var pending := t.embeddings.Keys;
    while pending != {}
      invariant pending <= t.embeddings.Keys
      invariant ListsEmbedded(t, project, model, dim, pending, entries)
      decreases pending
    {
      ghost var any := Sets.Draw(pending);
      var id :| id in pending;
      if && model != "" && dim > 0 && t.embeddings[id].model == model && |t.embeddings[id].vector| == dim
         && id in t.memories && t.memories[id].project == project && t.memories[id].supersededBy.None?
      {
        entries := entries + [EntryOf(t, id)];
      }
      pending := pending - {id};
    }
  }

  lemma SortedEntries(t: Tables, project: string, model: string, dim: nat, entries: seq<Entry>, sorted: seq<Entry>)
    requires ListsEmbedded(t, project, model, dim, {}, entries)
    requires multiset(sorted) == multiset(entries) && SortedBy(Newer, sorted)
    ensures ListsEmbedded(t, project, model, dim, {}, sorted)
    ensures forall i, j :: 0 <= i < j < |sorted| ==> Newer(sorted[i], sorted[j]) && sorted[i].id != sorted[j].id
  {
    forall e ensures e in sorted <==> e in entries {
      assert e in sorted <==> e in multiset(sorted);
      assert e in entries <==> e in multiset(entries);
    }
    forall i, j | 0 <= i < j < |sorted| ensures sorted[i] != sorted[j] {
      KeepsDistinct(entries, sorted, i, j);
    }
  }

  lemma HeadIsNewest(t: Tables, project: string, model: string, dim: nat, sorted: seq<Entry>, n: nat)
    requires ListsEmbedded(t, project, model, dim, {}, sorted)
    requires forall i, j :: 0 <= i < j < |sorted| ==> Newer(sorted[i], sorted[j]) && sorted[i].id != sorted[j].id
    ensures Newest(t, project, model, dim, n, EntryIds(Take(sorted, n)))
  {
    hide Embedded;
    var list := EntryIds(Take(sorted, n));
    forall i | 0 <= i < |list| ensures list[i] in t.memories && EntryOf(t, list[i]) == sorted[i] {
      EntryStored(t, project, model, dim, sorted, i);
    }
    forall id, l | Embedded(t, project, model, dim, id) && id !in list
      ensures |list| == n && (l in list ==> NewerRow(t, l, id))
    {
      StoredRow(t, project, model, dim, id);
      var j :| 0 <= j < |sorted| && sorted[j] == EntryOf(t, id);
      assert forall i :: 0 <= i < |list| ==> list[i] in list;
      assert |list| <= j;
      if l in list {
        var i :| 0 <= i < |list| && list[i] == l;
        assert Newer(sorted[i], sorted[j]);
      }
    }
    forall id | id in list ensures Embedded(t, project, model, dim, id) {
      var i :| 0 <= i < |list| && list[i] == id;
      assert sorted[i] in sorted;
    }
  }

  lemma StoredRow(t: Tables, project: string, model: string, dim: nat, id: int)
    requires Embedded(t, project, model, dim, id)
    ensures id in t.memories && id in t.embeddings
  {
  }

  lemma EntryStored(t: Tables, project: string, model: string, dim: nat, entries: seq<Entry>, i: nat)
    requires ListsEmbedded(t, project, model, dim, {}, entries) && i < |entries|
    ensures entries[i].id in t.memories && entries[i] == EntryOf(t, entries[i].id)
  {
    assert entries[i] in entries;
  }

  // ---------------------------------------------------------------- the vector stream

  function VectorOf(t: Tables, id: int): seq<real> {
    if id in t.embeddings then t.embeddings[id].vector else []
  }

  /** The first memory is more similar to the query, or as similar with a lower id. */
  ghost predicate Precedes(t: Tables, query: seq<real>, a: int, b: int, sqrt: real -> real)
    requires V.IsSqrt(sqrt) && a in t.embeddings && b in t.embeddings
  {
    var x, y := t.embeddings[a].vector, t.embeddings[b].vector;
    && V.CosineOf(query, x, sqrt) >= V.CosineOf(query, y, sqrt)
    && (V.CosineOf(query, x, sqrt) == V.CosineOf(query, y, sqrt) ==> a < b)
  }

  ghost function ScoreOf(t: Tables, query: seq<real>, id: int, sqrt: real -> real): V.Scored
    requires V.IsSqrt(sqrt)
  {
    V.Scored(V.Candidate(id, VectorOf(t, id)), V.CosineOf(query, VectorOf(t, id), sqrt))
  }

  /** `ids` are the `topK` candidates most similar to the query, most similar first. */
  ghost predicate IsTop(t: Tables, query: seq<real>, list: seq<int>, topK: nat, sqrt: real -> real, ids: seq<int>)
    requires V.IsSqrt(sqrt)
  {
    && |ids| == (if topK < |list| then topK else |list|) && Distinct(ids)
    && (forall id :: id in list ==> id in t.embeddings) && (forall id :: id in ids ==> id in list)
    && (forall i, j :: 0 <= i < j < |ids| ==> Precedes(t, query, ids[i], ids[j], sqrt))
    && forall o, r :: o in list && o !in ids && r in ids ==> Precedes(t, query, r, o, sqrt)
  }

  function ChosenModel(s: Settings, e: Embedder): (model: string)
    ensures s.model != "" ==> model == s.model
    ensures s.model == "" && e.Reporting? ==> model == e.model
    ensures s.model == "" && e.Silent? ==> model == ""
  {
    if s.model == "" && e.Reporting? then e.model else s.model
  }

  function ChosenDim(s: Settings, e: Embedder, length: nat): (dim: int)
    ensures s.dim > 0 ==> dim == s.dim
    ensures s.dim <= 0 && e.Reporting? && e.dim > 0 ==> dim == e.dim
    ensures s.dim <= 0 && (e.Silent? || e.dim <= 0) ==> dim == length
  {
    var dim := if s.dim <= 0 && e.Reporting? then e.dim else s.dim;
    if dim <= 0 then length else dim
  }

  /** A candidate that points where a non-zero query points is returned, unless all places go to
      candidates that do so too. */
  lemma SameDirectionIsListed(t: Tables, query: seq<real>, list: seq<int>, topK: nat, sqrt: real -> real,
      ids: seq<int>, id: int, c: real, k: nat)
    requires V.IsSqrt(sqrt) && IsTop(t, query, list, topK, sqrt, ids) && id in list
    requires k < |query| && query[k] != 0.0 && V.PositiveMultiple(query, t.embeddings[id].vector, c)
    ensures id in ids || (|ids| == topK && forall r :: r in ids ==>
                            V.SameDirection(query, t.embeddings[r].vector))
  {
    hide V.CosineOf, V.IsSqrt, V.Dot;
    assert V.SameDirection(query, t.embeddings[id].vector);
    V.NonZero(query, k);
    V.CosineOneIff(query, t.embeddings[id].vector, sqrt);
    if id !in ids {
      forall r | r in ids ensures V.SameDirection(query, t.embeddings[r].vector) {
        assert Precedes(t, query, r, id, sqrt);
        V.CosineInRange(query, t.embeddings[r].vector, sqrt);
        V.CosineOneIff(query, t.embeddings[r].vector, sqrt);
      }
      AllListed(list, ids, id);
    }
  }

  lemma AllListed(list: seq<int>, ids: seq<int>, id: int)
    requires Distinct(ids) && id in list && id !in ids && forall x :: x in ids ==> x in list
    ensures |ids| < |list|
  {
    MembersSize(list);
    MembersSize(ids);
    Sets.SubsetSize((set x | x in ids) + {id}, set x | x in list);
  }

  lemma {:induction false} MembersSize(list: seq<int>)
    ensures var members := set x | x in list; |members| <= |list| && (Distinct(list) ==> |members| == |list|)
    decreases |list|
  {
    if list != [] {
      var n := |list| - 1;
      MembersSize(list[..n]);
      assert (set x | x in list) == (set x | x in list[..n]) + {list[n]};
    }
  }

  /** The reply fits the configured model and dimension. */
  predicate Usable(s: Settings, e: Embedder, call: Call) {
    call.reply.Some? && ChosenModel(s, e) != "" && ChosenDim(s, e, |call.reply.value|) == |call.reply.value|
  }

  /** The reply can be searched with iff some model is named, by the settings or the embedder, and
      its length is the dimension set or, if none is set, the one the embedder reports. */
  lemma UsableIff(s: Settings, e: Embedder, call: Call)
    ensures Usable(s, e, call) <==>
      && call.reply.Some? && (s.model != "" || (e.Reporting? && e.model != ""))
      && if s.dim > 0 then |call.reply.value| == s.dim
         else e.Reporting? && e.dim > 0 ==> |call.reply.value| == e.dim
  {
  }

  function ScoreIds(scored: seq<V.Scored>): seq<int> {
    seq(|scored|, i requires 0 <= i < |scored| => scored[i].candidate.id)
  }

  function CandidatesOf(t: Tables, list: seq<int>): seq<V.Candidate> {
    seq(|list|, i requires 0 <= i < |list| => V.Candidate(list[i], VectorOf(t, list[i])))
  }

  /** `results` and `omitted` split the scored candidates. */
  ghost predicate Split(t: Tables, query: seq<real>, list: seq<int>, sqrt: real -> real,
      results: seq<V.Scored>, omitted: seq<V.Scored>)
    requires V.IsSqrt(sqrt)
  {
    multiset(results) + multiset(omitted) == multiset(V.ScoreAll(query, CandidatesOf(t, list), sqrt))
  }

  lemma ResultIsScored(t: Tables, query: seq<real>, list: seq<int>, sqrt: real -> real,
      results: seq<V.Scored>, omitted: seq<V.Scored>, i: nat)
    requires V.IsSqrt(sqrt)
    requires Split(t, query, list, sqrt, results, omitted) && i < |results|
    ensures ScoreIds(results)[i] in list && results[i] == ScoreOf(t, query, ScoreIds(results)[i], sqrt)
  {
    hide V.CosineOf, V.IsSqrt;
    var all := V.ScoreAll(query, CandidatesOf(t, list), sqrt);
    assert results[i] in multiset(results);
    assert results[i] in multiset(all);
    var j :| 0 <= j < |all| && all[j] == results[i];
    assert all[j] == ScoreOf(t, query, list[j], sqrt);
  }

  lemma ResultsDistinct(t: Tables, query: seq<real>, list: seq<int>, sqrt: real -> real,
      results: seq<V.Scored>, omitted: seq<V.Scored>, i: nat, j: nat)
    requires V.IsSqrt(sqrt) && Distinct(list)
    requires Split(t, query, list, sqrt, results, omitted) && i < j < |results|
    ensures ScoreIds(results)[i] != ScoreIds(results)[j]
  {
    hide V.CosineOf, V.IsSqrt;
    var all := V.ScoreAll(query, CandidatesOf(t, list), sqrt);
    assert forall k :: 0 <= k < |list| ==> all[k].candidate.id == list[k];
    ResultIsScored(t, query, list, sqrt, results, omitted, i);
    ResultIsScored(t, query, list, sqrt, results, omitted, j);
    KeepsDistinct(all, results, i, j);
  }

  lemma LeftOutIsOmitted(t: Tables, query: seq<real>, list: seq<int>, sqrt: real -> real,
      results: seq<V.Scored>, omitted: seq<V.Scored>, o: int)
    requires V.IsSqrt(sqrt)
    requires Split(t, query, list, sqrt, results, omitted) && o in list && o !in ScoreIds(results)
    ensures ScoreOf(t, query, o, sqrt) in omitted
  {
    hide V.CosineOf, V.IsSqrt;
    var all := V.ScoreAll(query, CandidatesOf(t, list), sqrt);
    var j :| 0 <= j < |list| && list[j] == o;
    var x := all[j];
    assert x == ScoreOf(t, query, o, sqrt) && x in multiset(all);
    forall i | 0 <= i < |results| ensures results[i].candidate.id in ScoreIds(results) {
      assert ScoreIds(results)[i] in ScoreIds(results);
    }
    assert x !in results;
    assert x in multiset(results) || x in multiset(omitted);
  }

  lemma CutIsTop(t: Tables, query: seq<real>, list: seq<int>, topK: nat, sqrt: real -> real,
      results: seq<V.Scored>, omitted: seq<V.Scored>)
    requires V.IsSqrt(sqrt) && Distinct(list) && forall id :: id in list ==> id in t.embeddings
    requires |results| == (if topK < |list| then topK else |list|)
    requires Split(t, query, list, sqrt, results, omitted)
    requires forall i, j :: 0 <= i < j < |results| ==> V.Leads(results[i], results[j])
    requires forall r, o :: r in results && o in omitted ==> V.Leads(r, o)
    ensures IsTop(t, query, list, topK, sqrt, ScoreIds(results))
  {
    hide V.CosineOf, V.IsSqrt, Split;
    var ids := ScoreIds(results);
    forall i | 0 <= i < |ids| ensures ids[i] in list && results[i] == ScoreOf(t, query, ids[i], sqrt) {
      ResultIsScored(t, query, list, sqrt, results, omitted, i);
    }
    forall i, j | 0 <= i < j < |ids| ensures ids[i] != ids[j] {
      ResultsDistinct(t, query, list, sqrt, results, omitted, i, j);
    }
    forall o, r | o in list && o !in ids && r in ids
      ensures Precedes(t, query, r, o, sqrt)
    {
      LeftOutIsOmitted(t, query, list, sqrt, results, omitted, o);
      var i :| 0 <= i < |ids| && ids[i] == r;
      assert results[i] in results;
    }
  }

  // ---------------------------------------------------------------- the answer

  function SessionIn(memories: map<int, Memory>, id: int): string {
    if id in memories then memories[id].session else ""
  }

  function LexicalStream(memories: map<int, Memory>, ids: seq<int>): seq<Ranked> {
    seq(|ids|, i requires 0 <= i < |ids| => Ranked(ids[i], SessionIn(memories, ids[i]), 0.0, i + 1, 0))
  }

  function VectorStream(memories: map<int, Memory>, ids: seq<int>): seq<Ranked> {
    seq(|ids|, i requires 0 <= i < |ids| => Ranked(ids[i], SessionIn(memories, ids[i]), 0.0, 0, i + 1))
  }

  ghost function Answer(memories: map<int, Memory>, s: Settings, shown: seq<int>, vector: seq<int>): seq<Ranked> {
    Fused(LexicalStream(memories, shown), VectorStream(memories, vector), s.rrfK, s.finalTopK, s.maxPerSession)
  }

  const BLANK := Memory("", "", "", "", 0.0, "", 0, 0, 0, 0, None)

  /** A map read: the zero row when the id is missing. */
  function RowOf(memories: map<int, Memory>, id: int): Memory {
    if id in memories then memories[id] else BLANK
  }

  function HitOf(memories: map<int, Memory>, item: Ranked): Hit {
    Hit(item.id, RowOf(memories, item.id), item.score, item.bm25Rank, item.vecRank)
  }

  function HitsOf(memories: map<int, Memory>, items: seq<Ranked>): seq<Hit> {
    seq(|items|, i requires 0 <= i < |items| => HitOf(memories, items[i]))
  }

  function ItemIds(items: seq<Ranked>): seq<int> {
    seq(|items|, i requires 0 <= i < |items| => items[i].id)
  }

  /** The lexical stream of a search; an unavailable index gives none. */
  ghost function Shown(t: Tables, project: string, s: Settings, lexical: Lexical): seq<int> {
    if lexical.Matches? then Take(Live(t, project, lexical.ids), SearchLimit(s.bm25TopK)) else []
  }

  function RoundOf(call: Call): B.Round {
    B.Round(call.askedAt, call.recordedAt, call.reply.Some?)
  }

  class Searcher {
    const store: Store
    const breaker: B.Breaker?
    const embedder: Option<Embedder>
    const settings: Settings

    constructor (store: Store, breaker: B.Breaker?, embedder: Option<Embedder>, settings: Settings)
      ensures this.store == store && this.breaker == breaker && this.embedder == embedder && this.settings == settings
    {
      this.store, this.breaker, this.embedder, this.settings := store, breaker, embedder, settings;
    }

    /** The embedding service is used: there is one, and the breaker is not open. */
    predicate Asks(call: Call)
      reads breaker
    {
      && embedder.Some?
      && (breaker == null || !B.IsOpen(breaker.cfg, B.State(breaker.failures, breaker.openedAt), call.askedAt))
    }

    method VectorResults(project: string, s: Settings, call: Call, sqrt: real -> real)
      returns (r: Result<seq<int>>, ghost list: seq<int>)
      requires V.IsSqrt(sqrt) && s.vectorTopK > 0
      modifies breaker
      ensures breaker != null && embedder.None? ==> breaker.Model() == old(breaker.Model())
      ensures breaker != null && embedder.Some? ==>
        breaker.Model() == B.AfterRound(breaker.cfg, old(breaker.Model()), RoundOf(call))
      ensures !old(Asks(call)) ==> r == Ok([])
      ensures old(Asks(call)) ==> (r.Ok? <==> Usable(s, embedder.value, call))
      ensures old(Asks(call)) && r.Ok? ==>
        var query := call.reply.value;
        && Newest(store.Snapshot(), project, ChosenModel(s, embedder.value), |query|, 10000, list)
        && IsTop(store.Snapshot(), query, list, s.vectorTopK, sqrt, r.value)
    {
      list := [];
      if embedder.None? {
        return Ok([]), [];
      }
      if breaker != null {
        var open := breaker.Open(call.askedAt);
        if open {
          return Ok([]), [];
        }
      }
      if call.reply.None? {
        if breaker != null { breaker.RecordFailure(call.recordedAt); }
        return Err("embedding failed"), [];
      }
      if breaker != null { breaker.RecordSuccess(); }
      var query := call.reply.value;
      var model, dim := ChosenModel(s, embedder.value), ChosenDim(s, embedder.value, |query|);
      if model == "" {
        return Err("embedding model is empty"), [];
      }
      if dim != |query| {
        return Err("query embedding dimension"), [];
      }
      var candidates := VectorCandidates(store, project, model, |query|, 0);
      var t := store.Snapshot();
      var results, omitted := V.TopCandidates(query, CandidatesOf(t, candidates), s.vectorTopK, sqrt);
      CutIsTop(t, query, candidates, s.vectorTopK, sqrt, results, omitted);
      return Ok(ScoreIds(results)), candidates;
    }

    /** Everything about one search: when it fails, what it returns, what it touches and how it
        leaves the breaker. A failing vector side costs only the vector side, unless there is no
        full-text index either. */
    method Hybrid(q: Query, lexical: Lexical, call: Call, now: int, sqrt: real -> real)
      returns (r: Result<seq<Hit>>, ghost shown: seq<int>, ghost vector: seq<int>, ghost list: seq<int>)
      requires V.IsSqrt(sqrt) && IndexAnswers(lexical)
      modifies store`memories, breaker
      ensures r.Ok? ==>
        var t := old(store.Snapshot());
        SoundHits(t, q, settings, r.value) && FollowsStreams(t, q, settings, lexical, shown, vector, r.value)
      ensures breaker != null && (embedder.None? || lexical.Broken?) ==> breaker.Model() == old(breaker.Model())
      ensures breaker != null && embedder.Some? && !lexical.Broken? ==>
        breaker.Model() == B.AfterRound(breaker.cfg, old(breaker.Model()), RoundOf(call))
      ensures r.Err? <==> (lexical.Broken? || (lexical.NoFts? && old(Asks(call))
          && !Usable(Effective(settings, q.limit), embedder.value, call)))
      ensures r.Err? ==> store.Snapshot() == old(store.Snapshot())
      ensures r.Ok? ==>
        var s, t := Effective(settings, q.limit), old(store.Snapshot());
        var items := Answer(t.memories, s, shown, vector);
        && shown == Shown(t, q.project, s, lexical) && r.value == HitsOf(t.memories, items)
        && store.Snapshot() == t.(memories :=
             if s.skipTouch then t.memories else Touched(t.memories, ItemIds(items), now))
        && (if old(Asks(call)) && Usable(s, embedder.value, call)
            then && Newest(t, q.project, ChosenModel(s, embedder.value), |call.reply.value|, 10000, list)
                 && IsTop(t, call.reply.value, list, if settings.vectorTopK <= 0 then 50 else settings.vectorTopK, sqrt,
                          vector)
            else vector == [])
    {
      hide ChosenModel, ChosenDim, FollowsStreams, SoundHits, IsTop, Newest, Answer, HitsOf, Live;
      shown, vector, list := [], [], [];
      var s := Effective(settings, q.limit);
      if lexical.Broken? {
        return Err(lexical.reason), [], [], [];
      }
      var bm25: seq<int> := [];
      if lexical.Matches? {
        bm25 := SearchMemories(store, q.project, lexical.ids, s.bm25TopK);
      }
      var found, candidates := VectorResults(q.project, s, call, sqrt);
      if found.Err? && lexical.NoFts? {
        return Err(found.reason), [], [], [];
      }
      var ids := if found.Ok? then found.value else [];
      var fused, hits := Assemble(store.memories, s, bm25, ids);
      ghost var t := store.Snapshot();
      if ids != [] {
        TopIsSound(t, q.project, ChosenModel(s, embedder.value), |call.reply.value|, 10000,
          call.reply.value, candidates, s.vectorTopK, sqrt, ids);
      }
      AnswerFollows(t, q, settings, lexical, ids);
      if !s.skipTouch {
        store.TouchMemories(ItemIds(fused), now);
      }
      return Ok(hits), bm25, ids, candidates;
    }
  }

  /** Fuses the streams and reads each kept id from the rows the streams brought. */
  method Assemble(memories: map<int, Memory>, s: Settings, shown: seq<int>, ids: seq<int>)
    returns (fused: seq<Ranked>, hits: seq<Hit>)
    ensures fused == Answer(memories, s, shown, ids)
    ensures hits == HitsOf(memories, fused)
  {
    hide Answer, RowOf;
    var rows: map<int, Memory> := map[];
    for i := 0 to |shown|
      invariant Copies(rows, memories, shown[..i])
    {
      rows := rows[shown[i] := RowOf(memories, shown[i])];
    }
    for i := 0 to |ids|
      invariant Copies(rows, memories, shown + ids[..i])
    {
      rows := rows[ids[i] := RowOf(memories, ids[i])];
    }
    fused := FuseStreams(memories, s, shown, ids);
    hits := [];
    for i := 0 to |fused|
      invariant hits == HitsOf(memories, fused[..i])
    {
      AnswerFromStreams(memories, s, shown, ids, i);
      assert RowOf(rows, fused[i].id) == RowOf(memories, fused[i].id) by {
        CopiedRow(rows, memories, shown + ids, fused[i].id);
      }
      hits := hits + [HitOf(rows, fused[i])];
    }
    assert fused[..|fused|] == fused;
  }

  method FuseStreams(memories: map<int, Memory>, s: Settings, shown: seq<int>, ids: seq<int>)
      returns (fused: seq<Ranked>)
    ensures fused == Answer(memories, s, shown, ids)
  {
    fused := FuseRRF(LexicalStream(memories, shown), VectorStream(memories, ids), s.rrfK, s.finalTopK, s.maxPerSession);
  }

  lemma CopiedRow(rows: map<int, Memory>, memories: map<int, Memory>, ids: seq<int>, id: int)
    requires Copies(rows, memories, ids) && id in ids
    ensures RowOf(rows, id) == RowOf(memories, id)
  {
  }

  /** `rows` holds the given rows and agrees with the table. */
  ghost predicate Copies(rows: map<int, Memory>, memories: map<int, Memory>, ids: seq<int>) {
    && (forall id :: id in ids ==> id in rows)
    && forall id :: id in rows ==> rows[id] == RowOf(memories, id)
  }

  lemma AnswerFromStreams(memories: map<int, Memory>, s: Settings, shown: seq<int>, vector: seq<int>, i: nat)
    requires i < |Answer(memories, s, shown, vector)|
    ensures Answer(memories, s, shown, vector)[i].id in shown + vector
  {
    hide Fused, Ids, FusedItem;
    M.FusedFromStreams(LexicalStream(memories, shown), VectorStream(memories, vector), s.rrfK, s.finalTopK,
      s.maxPerSession, i);
    IdsMembers(LexicalStream(memories, shown));
    IdsMembers(VectorStream(memories, vector));
  }

  // ---------------------------------------------------------------- what a caller may rely on

  /** The places whose hit belongs to the session. */
  ghost function HitsFrom(hits: seq<Hit>, session: string): set<nat> {
    set i | 0 <= i < |hits| && hits[i].memory.session == session
  }

  /** Every hit shows a live memory of the queried project as it is stored, no memory is shown
      twice, there are no more than asked for and set, and no more of any one session than set. */
  ghost predicate SoundHits(t: Tables, q: Query, s: Settings, hits: seq<Hit>) {
    && (forall i :: 0 <= i < |hits| ==>
         && hits[i].id in t.memories && hits[i].memory == t.memories[hits[i].id]
         && hits[i].memory.project == q.project && hits[i].memory.supersededBy == None)
    && (forall i, j :: 0 <= i < j < |hits| ==> hits[i].id != hits[j].id)
    && |hits| <= (if s.finalTopK <= 0 then 10 else s.finalTopK) && (q.limit > 0 ==> |hits| <= q.limit)
    && forall session :: session != "" ==>
         |HitsFrom(hits, session)| <= if s.maxPerSession <= 0 then 3 else s.maxPerSession
  }

  lemma HitsAreSound(t: Tables, q: Query, s: Settings, shown: seq<int>, vector: seq<int>)
    requires Sound(t, q.project, shown) && Sound(t, q.project, vector)
    ensures SoundHits(t, q, s, HitsOf(t.memories, Answer(t.memories, Effective(s, q.limit), shown, vector)))
  {
    hide Answer, Effective;
    AnswerIsSound(t, q.project, s, q.limit, shown, vector);
    var items := Answer(t.memories, Effective(s, q.limit), shown, vector);
    var hits := HitsOf(t.memories, items);
    forall session | session != "" ensures HitsFrom(hits, session) == M.AllOfSession(items, session) {
    }
  }

  /** `r` is the 1-based place of `id` in the list, 0 when it is not there. */
  ghost predicate RankedAt(list: seq<int>, id: int, r: nat) {
    if r == 0 then id !in list else r <= |list| && list[r - 1] == id
  }

  /** A memory one of the streams lists, as it is stored, with its places and the score for them. */
  ghost predicate HitFor(t: Tables, k: nat, shown: seq<int>, vector: seq<int>, h: Hit) {
    && (h.bm25Rank > 0 || h.vecRank > 0)
    && RankedAt(shown, h.id, h.bm25Rank) && RankedAt(vector, h.id, h.vecRank)
    && h.id in t.memories && h.memory == t.memories[h.id]
    && h.score == M.Share(k, h.bm25Rank) + M.Share(k, h.vecRank)
  }

  ghost predicate HitAhead(a: Hit, b: Hit) {
    a.score > b.score || (a.score == b.score && a.id < b.id)
  }

  /** Why a listed memory is not among the hits. */
  ghost predicate HitExcused(hits: seq<Hit>, limit: nat, cap: nat, h: Hit) {
    || (|hits| == limit && forall i :: 0 <= i < |hits| ==> HitAhead(hits[i], h))
    || (h.memory.session != ""
        && |set i | 0 <= i < |hits| && hits[i].memory.session == h.memory.session && HitAhead(hits[i], h)| >= cap)
  }

  /** The hits are what the two streams list, best first, and whatever is missing is excused. */
  ghost predicate RankedHits(t: Tables, k: nat, limit: nat, cap: nat, shown: seq<int>, vector: seq<int>,
      hits: seq<Hit>) {
    && (forall h :: h in hits ==> HitFor(t, k, shown, vector, h))
    && (forall i, j :: 0 <= i < j < |hits| ==> HitAhead(hits[i], hits[j]))
    && forall h :: HitFor(t, k, shown, vector, h) && h !in hits ==> HitExcused(hits, limit, cap, h)
  }

  /** The hits rank the vector stream and the listed lexical matches under the settings. */
  ghost predicate FollowsStreams(t: Tables, q: Query, s: Settings, lexical: Lexical, shown: seq<int>,
      vector: seq<int>, hits: seq<Hit>) {
    && RankedHits(t, if s.rrfK <= 0 then 60 else s.rrfK, MostHits(s, q.limit),
                  if s.maxPerSession <= 0 then 3 else s.maxPerSession, shown, vector, hits)
    && if lexical.Matches? then
         Lists(t, q.project, lexical.ids,
               if s.bm25TopK <= 0 then 50 else if s.bm25TopK > 100 then 100 else s.bm25TopK, shown)
       else shown == []
  }

  /** How many hits a search may have. */
  function MostHits(s: Settings, limit: int): nat {
    var most := if s.finalTopK <= 0 then 10 else s.finalTopK;
    if 0 < limit < most then limit else most
  }

  function AsItem(h: Hit): Ranked {
    Ranked(h.id, h.memory.session, h.score, h.bm25Rank, h.vecRank)
  }

  lemma FoundIsHit(t: Tables, k: nat, shown: seq<int>, vector: seq<int>, x: Ranked)
    requires forall id :: id in shown || id in vector ==> id in t.memories
    requires M.Found(LexicalStream(t.memories, shown), VectorStream(t.memories, vector), x) && M.Scores(k, x)
    ensures HitFor(t, k, shown, vector, HitOf(t.memories, x)) && AsItem(HitOf(t.memories, x)) == x
  {
    var bm25, vec := LexicalStream(t.memories, shown), VectorStream(t.memories, vector);
    PlaceIsRank(t.memories, shown, bm25, x.id, x.bm25Rank);
    PlaceIsRank(t.memories, vector, vec, x.id, x.vecRank);
  }

  lemma HitIsFound(t: Tables, k: nat, shown: seq<int>, vector: seq<int>, h: Hit)
    requires Distinct(shown) && Distinct(vector) && HitFor(t, k, shown, vector, h)
    ensures M.Found(LexicalStream(t.memories, shown), VectorStream(t.memories, vector), AsItem(h))
    ensures M.Scores(k, AsItem(h)) && h == HitOf(t.memories, AsItem(h))
  {
    var bm25, vec := LexicalStream(t.memories, shown), VectorStream(t.memories, vector);
    PlaceIsRank(t.memories, shown, bm25, h.id, h.bm25Rank);
    PlaceIsRank(t.memories, vector, vec, h.id, h.vecRank);
    if h.bm25Rank == 0 || h.memory.session == "" {
      if h.vecRank > 0 && h.memory.session != "" {
        assert M.FirstNamedAt(vec, h.vecRank - 1, h.id);
      }
    }
  }

  lemma PlaceIsRank(memories: map<int, Memory>, ids: seq<int>, stream: seq<Ranked>, id: int, r: nat)
    requires |stream| == |ids|
    requires forall i :: 0 <= i < |ids| ==> stream[i].id == ids[i]
    ensures M.PlaceIn(stream, id, r) ==> RankedAt(ids, id, r)
    ensures Distinct(ids) && RankedAt(ids, id, r) ==> M.PlaceIn(stream, id, r)
  {
  }

  /** A stream lists searchable memories of the project, none twice. */
  ghost predicate Sound(t: Tables, project: string, ids: seq<int>) {
    Distinct(ids) && forall id :: id in ids ==> Searchable(t, project, id)
  }

  /** The filter and limit of the lexical query: live memories of the project, none twice, in the
      index's order, never more than the clamped limit; and no live match ranked above a listed
      one is missing, nor any at all unless the limit is reached. */
  lemma {:induction false} ShownIsSound(t: Tables, project: string, s: Settings, lexical: Lexical)
    requires IndexAnswers(lexical)
    ensures var shown := Shown(t, project, s, lexical);
      && Sound(t, project, shown) && (!lexical.Matches? ==> shown == [])
      && (lexical.Matches? ==>
            Lists(t, project, lexical.ids,
                  if s.bm25TopK <= 0 then 10 else if s.bm25TopK > 100 then 100 else s.bm25TopK, shown))
  {
    hide Lists, Live;
    if lexical.Matches? { HeadLists(t, project, lexical.ids, SearchLimit(s.bm25TopK)); }
  }

  lemma HeadLists(t: Tables, project: string, matches: seq<int>, n: nat)
    requires Distinct(matches)
    ensures var shown := Take(Live(t, project, matches), n);
      Sound(t, project, shown) && Lists(t, project, matches, n, shown)
  {
    hide Live;
    LiveMembers(t, project, matches);
    var live, shown := Live(t, project, matches), Take(Live(t, project, matches), n);
    forall i, j | 0 <= i < j < |matches| && matches[j] in shown && Searchable(t, project, matches[i])
      ensures matches[i] in shown
    {
      ListedInOrder(t, project, matches, i, j, |shown|);
    }
    forall p, q, i, j
      | && 0 <= p < |shown| && 0 <= q < |shown| && 0 <= i < j < |matches|
        && shown[p] == matches[i] && shown[q] == matches[j]
      ensures p < q
    {
      OrderKept(t, project, matches, i, j, p, q);
    }
    assert |shown| < n ==> shown == live;
    forall i | 0 <= i < |matches| && matches[i] !in shown && Searchable(t, project, matches[i])
      ensures |shown| == n && forall j :: i < j < |matches| ==> matches[j] !in shown
    {
      assert matches[i] in live;
    }
  }

  /** `shown` lists matches that are live memories of the project, in order and each once; a live
      match may be missing only below all of them, and only when there are `n`. */
  ghost predicate Lists(t: Tables, project: string, matches: seq<int>, n: nat, shown: seq<int>) {
    && |shown| <= n && Distinct(shown)
    && (forall id :: id in shown ==>
         id in matches && id in t.memories && t.memories[id].project == project && t.memories[id].supersededBy == None)
    && (forall p, q, i, j ::
         && 0 <= p < |shown| && 0 <= q < |shown| && 0 <= i < j < |matches|
         && shown[p] == matches[i] && shown[q] == matches[j]
         ==> p < q)
    && forall i ::
         && 0 <= i < |matches| && matches[i] !in shown
         && matches[i] in t.memories && t.memories[matches[i]].project == project
         && t.memories[matches[i]].supersededBy == None
         ==> |shown| == n && forall j :: i < j < |matches| ==> matches[j] !in shown
  }

  /** Of two listed matches the one the index ranks higher comes first. */
  lemma OrderKept(t: Tables, project: string, matches: seq<int>, i: nat, j: nat, p: nat, q: nat)
    requires Distinct(matches) && i < j < |matches|
    requires var live := Live(t, project, matches);
      p < |live| && q < |live| && live[p] == matches[i] && live[q] == matches[j]
    ensures p < q
  {
    hide Searchable;
    var live, before := Live(t, project, matches), Live(t, project, matches[..j]);
    LivePrefix(t, project, matches, j);
    LiveMembers(t, project, matches);
    LiveMembers(t, project, matches[..j]);
    assert matches[i] in live && matches[..j][i] == matches[i];
    var r :| 0 <= r < |before| && before[r] == matches[i];
    assert live[r] == matches[i];
    assert matches[j] !in matches[..j];
    assert forall x :: 0 <= x < |before| ==> before[x] in matches[..j] && live[x] == before[x];
  }

  /** The filter keeps the index's order. */
  lemma ListedInOrder(t: Tables, project: string, matches: seq<int>, i: nat, j: nat, n: nat)
    requires Distinct(matches) && i < j < |matches| && n <= |Live(t, project, matches)|
    requires matches[j] in Live(t, project, matches)[..n] && Searchable(t, project, matches[i])
    ensures matches[i] in Live(t, project, matches)[..n]
  {
    hide Searchable;
    var live, before := Live(t, project, matches), Live(t, project, matches[..j]);
    LivePrefix(t, project, matches, j);
    LiveMembers(t, project, matches);
    LiveMembers(t, project, matches[..j]);
    assert matches[..j][i] == matches[i];
    var p :| 0 <= p < n && live[p] == matches[j];
    assert matches[j] !in matches[..j];
    assert p >= |before|;
    var q :| 0 <= q < |before| && before[q] == matches[i];
    assert live[q] == matches[i] && live[..n][q] == matches[i];
  }

  lemma TopIsSound(t: Tables, project: string, model: string, dim: nat, n: nat, query: seq<real>,
      list: seq<int>, topK: nat, sqrt: real -> real, vector: seq<int>)
    requires V.IsSqrt(sqrt) && Newest(t, project, model, dim, n, list) && IsTop(t, query, list, topK, sqrt, vector)
    ensures Sound(t, project, vector) && |vector| <= topK
  {
    hide Precedes;
  }

  lemma StreamsDistinct(memories: map<int, Memory>, ids: seq<int>)
    requires Distinct(ids)
    ensures T.DistinctIds(LexicalStream(memories, ids)) && T.DistinctIds(VectorStream(memories, ids))
  {
  }

  /** Every answer is made of live memories of the queried project, each once and with the
      session it is stored with, no more of them than set and asked for, and no more of any one
      session than set. */
  lemma AnswerIsSound(t: Tables, project: string, s: Settings, limit: int, shown: seq<int>, vector: seq<int>)
    requires Sound(t, project, shown) && Sound(t, project, vector)
    ensures var items := Answer(t.memories, Effective(s, limit), shown, vector);
      && (forall i :: 0 <= i < |items| ==>
           && items[i].id in t.memories && items[i].session == t.memories[items[i].id].session
           && t.memories[items[i].id].project == project && t.memories[items[i].id].supersededBy == None)
      && (forall i, j :: 0 <= i < j < |items| ==> items[i].id != items[j].id)
      && |items| <= (if s.finalTopK <= 0 then 10 else s.finalTopK) && (limit > 0 ==> |items| <= limit)
      && forall session :: session != "" ==>
           |M.AllOfSession(items, session)| <= if s.maxPerSession <= 0 then 3 else s.maxPerSession
  {
    hide Fused, T.WithinCap, M.AllOfSession;
    var e := Effective(s, limit);
    var items := Answer(t.memories, e, shown, vector);
    var bm25, vec := LexicalStream(t.memories, shown), VectorStream(t.memories, vector);
    M.FusedShape(bm25, vec, e.rrfK, e.finalTopK, e.maxPerSession);
    forall i | 0 <= i < |items|
      ensures Searchable(t, project, items[i].id) && items[i].session == t.memories[items[i].id].session
    {
      AnswerFromStreams(t.memories, e, shown, vector, i);
      M.SessionIsKept(bm25, vec, e.rrfK, e.finalTopK, e.maxPerSession, i, t.memories[items[i].id].session);
    }
    forall session | session != "" ensures |M.AllOfSession(items, session)| <= e.maxPerSession {
      M.CapOnPlaces(items, e.maxPerSession, session);
    }
  }

  /** The whole answer in the streams' terms: places, scores and order of the hits, and why a
      listed memory is missing. */
  lemma HitsAreRanked(t: Tables, project: string, s: Settings, limit: int, shown: seq<int>, vector: seq<int>)
    requires Sound(t, project, shown) && Sound(t, project, vector)
    ensures RankedHits(t, if s.rrfK <= 0 then 60 else s.rrfK, MostHits(s, limit),
                       if s.maxPerSession <= 0 then 3 else s.maxPerSession, shown, vector,
                       HitsOf(t.memories, Answer(t.memories, Effective(s, limit), shown, vector)))
  {
    hide Fused, M.Found, M.Scores, HitFor, T.DistinctIds, LexicalStream, VectorStream;
    var e := Effective(s, limit);
    var items := Answer(t.memories, e, shown, vector);
    var hits := HitsOf(t.memories, items);
    var bm25, vec := LexicalStream(t.memories, shown), VectorStream(t.memories, vector);
    StreamsDistinct(t.memories, shown);
    StreamsDistinct(t.memories, vector);
    M.FusedIsFusion(bm25, vec, e.rrfK, e.finalTopK, e.maxPerSession);
    forall i | 0 <= i < |items| ensures HitFor(t, e.rrfK, shown, vector, hits[i]) && AsItem(hits[i]) == items[i] {
      assert items[i] in items;
      FoundIsHit(t, e.rrfK, shown, vector, items[i]);
    }
    forall h | HitFor(t, e.rrfK, shown, vector, h) && h !in hits
      ensures HitExcused(hits, e.finalTopK, e.maxPerSession, h)
    {
      HitIsFound(t, e.rrfK, shown, vector, h);
      ExcuseCarries(t.memories, items, hits, e.finalTopK, e.maxPerSession, h);
    }
  }

  lemma AnswerFollows(t: Tables, q: Query, s: Settings, lexical: Lexical, vector: seq<int>)
    requires IndexAnswers(lexical) && Sound(t, q.project, vector)
    ensures var e := Effective(s, q.limit);
      var shown := Shown(t, q.project, e, lexical);
      var hits := HitsOf(t.memories, Answer(t.memories, e, shown, vector));
      SoundHits(t, q, s, hits) && FollowsStreams(t, q, s, lexical, shown, vector, hits)
  {
    hide Shown, Answer, HitsOf, RankedHits, Lists, SoundHits, MostHits;
    var e := Effective(s, q.limit);
    var shown := Shown(t, q.project, e, lexical);
    ShownIsSound(t, q.project, e, lexical);
    HitsAreSound(t, q, s, shown, vector);
    HitsAreRanked(t, q.project, s, q.limit, shown, vector);
  }

  lemma ExcuseCarries(memories: map<int, Memory>, items: seq<Ranked>, hits: seq<Hit>, limit: nat, cap: nat, h: Hit)
    requires hits == HitsOf(memories, items) && forall i :: 0 <= i < |items| ==> AsItem(hits[i]) == items[i]
    requires h == HitOf(memories, AsItem(h))
    requires AsItem(h) in items || M.Excused(items, limit, cap, AsItem(h))
    ensures h in hits || HitExcused(hits, limit, cap, h)
  {
    var x := AsItem(h);
    if x in items {
      var i :| 0 <= i < |items| && items[i] == x;
      assert hits[i] == h;
    }
    assert M.OfSession(items, x.session, x)
      == set i | 0 <= i < |hits| && hits[i].memory.session == h.memory.session && HitAhead(hits[i], h);
  }

  /** A touch of distinct memories stamps each listed row once and leaves the others alone. */
  lemma {:induction false} TouchedOnce(memories: map<int, Memory>, ids: seq<int>, at: int)
    requires Distinct(ids)
    ensures var m := Touched(memories, ids, at);
      && m.Keys == memories.Keys
      && forall id :: id in memories ==>
           m[id] == if id in ids then memories[id].(accessedAt := at, accessCount := memories[id].accessCount + 1)
                    else memories[id]
  {
    if ids != [] {
      var n := |ids| - 1;
      TouchedOnce(memories, ids[..n], at);
      assert forall id :: id in ids <==> id in ids[..n] || id == ids[n];
      assert ids[n] !in ids[..n];
    }
  }

  /** Stream lengths and constant in force, as set or by default. */
  predicate StreamsShort(e: Settings) {
    SearchLimit(e.bm25TopK) <= e.rrfK + 1 && e.vectorTopK <= e.rrfK + 1
  }

  predicate DefaultSizes(s: Settings) {
    (s.bm25TopK <= 0 || s.bm25TopK == 50) && (s.vectorTopK <= 0 || s.vectorTopK == 50) && (s.rrfK <= 0 || s.rrfK == 60)
  }

  predicate InBoth(id: int, shown: seq<int>, vector: seq<int>) {
    id in shown && id in vector
  }

  /** With the default sizes, or any sizes no larger than rrfK + 1, a memory both streams found
      is listed before every memory only one of them found. */
  lemma FoundByBothFirst(t: Tables, project: string, s: Settings, limit: int, lexical: Lexical, vector: seq<int>,
      i: nat, j: nat)
    requires DefaultSizes(s) || StreamsShort(Effective(s, limit))
    requires IndexAnswers(lexical)
    requires Distinct(vector) && |vector| <= Effective(s, limit).vectorTopK
    ensures var e := Effective(s, limit);
      var items, shown := Answer(t.memories, e, Shown(t, project, e, lexical), vector), Shown(t, project, e, lexical);
      i < |items| && j < |items| && InBoth(items[i].id, shown, vector) && !InBoth(items[j].id, shown, vector) ==> i < j
  {
    hide Fused, Searchable;
    var e := Effective(s, limit);
    var shown := Shown(t, project, e, lexical);
    ShownIsSound(t, project, e, lexical);
    var bm25, vec := LexicalStream(t.memories, shown), VectorStream(t.memories, vector);
    StreamsDistinct(t.memories, shown);
    StreamsDistinct(t.memories, vector);
    StreamIds(t.memories, shown);
    StreamIds(t.memories, vector);
    T.BothStreamsFirst(bm25, vec, e.rrfK, e.finalTopK, e.maxPerSession, i, j);
  }

  lemma StreamIds(memories: map<int, Memory>, ids: seq<int>)
    ensures forall id :: id in Ids(LexicalStream(memories, ids)) <==> id in ids
    ensures forall id :: id in Ids(VectorStream(memories, ids)) <==> id in ids
  {
    var bm25, vec := LexicalStream(memories, ids), VectorStream(memories, ids);
    IdsMembers(bm25);
    IdsMembers(vec);
    assert forall i :: 0 <= i < |ids| ==> bm25[i].id == ids[i] && vec[i].id == ids[i];
  }

  /** When the vector side contributes nothing (no embedder, breaker open, embedding failed), the
      answer is the lexical order under the session cap. */
  lemma DegradedIsLexical(t: Tables, project: string, s: Settings, lexical: Lexical)
    requires IndexAnswers(lexical)
    ensures var bm25 := LexicalStream(t.memories, Shown(t, project, s, lexical));
      Answer(t.memories, s, Shown(t, project, s, lexical), [])
      == Take(Diversify(T.Scored(bm25, OrDefault(s.rrfK, 60)), OrDefault(s.maxPerSession, 3)),
              OrDefault(s.finalTopK, 10))
  {
    hide Fused, Diversify, T.Scored;
    ShownIsSound(t, project, s, lexical);
    StreamsDistinct(t.memories, Shown(t, project, s, lexical));
    assert VectorStream(t.memories, []) == [];
    T.LexicalFallback(LexicalStream(t.memories, Shown(t, project, s, lexical)), s.rrfK, s.finalTopK, s.maxPerSession);
  }
}
