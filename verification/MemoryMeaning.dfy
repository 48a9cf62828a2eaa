/** What each transaction over the memory tables changes, column by column, and how fast a decay
    pass forgets (internal/store/memories.go, mcp_helpers.go, compaction.go:154-229). */
module MemoryMeaning {
  import opened MemoryStore
  import opened DecaySchedule
  import opened Outcomes
  import opened Reals

  // ---------------------------------------------------------------- single-row operations

  /** A new memory gets the next id and the columns given, with tier "fact", source "manual" and
      importance 1 where the input leaves them out; a session must exist if one is named. */
  lemma AddInserts(t: Tables, input: MemoryInput)
    requires Inv(t)
    ensures var t', id := AfterAdd(t, input), t.lastId + 1;
      if input.session != "" && input.session !in t.sessions then t' == t else
        && id !in t.memories && t'.lastId == id && t'.memories.Keys == t.memories.Keys + {id}
        && (forall x :: x in t.memories ==> t'.memories[x] == t.memories[x])
        && (var row := t'.memories[id];
            && row.project == input.project && row.text == input.text && row.session == input.session
            && row.tier == (if input.tier == "" then "fact" else input.tier)
            && row.source == (if input.source == "" then "manual" else input.source)
            && row.importance == (if input.importance == 0.0 then 1.0 else input.importance)
            && row.createdAt == row.updatedAt == row.accessedAt == input.createdAt
            && row.accessCount == 0 && row.supersededBy == None)
        && t'.fts == t.fts[id := input.text] && t'.embeddings == t.embeddings && t'.sessions == t.sessions
        && t'.audit == t.audit + [AuditEvent(input.createdAt, Created, id)]
  {
  }

  /** An update sets exactly the columns it is given, and the time of the update. */
  lemma UpdateSets(t: Tables, u: MemoryUpdate)
    requires u.id in t.memories && u.id > 0
    ensures var t', row := AfterUpdate(t, u), t.memories[u.id];
      if u.text.None? && u.tier.None? && u.importance.None? then t' == t else
        && t'.memories.Keys == t.memories.Keys
        && (forall x :: x in t.memories && x != u.id ==> t'.memories[x] == t.memories[x])
        && t'.memories[u.id]
           == Memory(row.project, if u.text.Some? then u.text.value else row.text,
                     if u.tier.Some? then u.tier.value else row.tier, row.source,
                     if u.importance.Some? then u.importance.value else row.importance,
                     row.session, row.createdAt, u.updatedAt, row.accessedAt, row.accessCount, row.supersededBy)
        && t'.fts == (if u.text.Some? then t.fts[u.id := u.text.value] else t.fts)
        && t'.embeddings == t.embeddings && t'.sessions == t.sessions && t'.lastId == t.lastId
        && t'.audit == t.audit + [AuditEvent(u.updatedAt, Updated, u.id)]
  {
  }

  /** A touch stamps the listed memories that exist, and counts one access for every mention. */
  lemma {:induction false} TouchCounts(memories: map<int, Memory>, ids: seq<int>, at: int)
    ensures var m := Touched(memories, ids, at);
      && m.Keys == memories.Keys
      && forall id :: id in memories ==>
           m[id] == if id in ids
                    then memories[id].(accessedAt := at, accessCount := memories[id].accessCount + multiset(ids)[id])
                    else memories[id]
  {
    if ids != [] {
      var n := |ids| - 1;
      TouchCounts(memories, ids[..n], at);
      Mentions(ids);
    }
  }

  lemma Mentions(ids: seq<int>)
    requires ids != []
    ensures var n := |ids| - 1; forall id ::
      && (id in ids <==> id in ids[..n] || id == ids[n])
      && multiset(ids)[id] == (if id in ids[..n] then multiset(ids[..n])[id] else 0) + if id == ids[n] then 1 else 0
  {
    var n := |ids| - 1;
    assert ids == ids[..n] + [ids[n]];
    assert forall id :: id !in ids[..n] ==> multiset(ids[..n])[id] == 0;
  }

  /** A supersession points one existing memory at another. */
  lemma SupersedeSets(t: Tables, oldId: int, newId: int)
    ensures var t' := AfterSupersede(t, oldId, newId);
      if oldId <= 0 || newId <= 0 || oldId == newId || oldId !in t.memories || newId !in t.memories then t' == t else
        && t'.memories == t.memories[oldId := t.memories[oldId].(supersededBy := Some(newId))]
        && t'.fts == t.fts && t'.embeddings == t.embeddings && t'.sessions == t.sessions && t'.lastId == t.lastId
        && t'.audit == t.audit + [AuditEvent(0, Superseded, oldId)]
  {
  }

  /** Dropping embeddings takes those of the project's memories, of one model if it is named. */
  lemma DropRemoves(t: Tables, project: string, model: string)
    ensures var t' := AfterDrop(t, project, model);
      && (forall id :: id in t'.embeddings <==>
            && id in t.embeddings
            && (id in t.memories && t.memories[id].project == project ==>
                  model != "" && t.embeddings[id].model != model))
      && (forall id :: id in t'.embeddings ==> t'.embeddings[id] == t.embeddings[id])
      && t' == t.(embeddings := t'.embeddings)
  {
  }

  /** A list of memories can be deleted iff whatever a listed memory replaces is listed before it;
      then exactly the listed memories go, with their index rows and embeddings. */
  lemma DeleteRemoves(t: Tables, ids: seq<int>)
    ensures var t' := AfterDelete(t, ids);
      if forall i, r :: 0 <= i < |ids| && r in t.memories && t.memories[r].supersededBy == Some(ids[i]) ==>
           r in ids[..i]
      then
        && t'.memories == (map id | id in t.memories && id !in ids :: t.memories[id])
        && t'.fts == (map id | id in t.fts && id !in ids :: t.fts[id])
        && t'.embeddings == (map id | id in t.embeddings && id !in ids :: t.embeddings[id])
        && t'.audit == t.audit + DeleteEvents(t.memories.Keys, ids)
        && t'.sessions == t.sessions && t'.lastId == t.lastId
      else t' == t
  {
    hide DeleteEvents, IdSet;
    assert ReferrersFirst(t.memories, ids)
      <==> forall i, r :: 0 <= i < |ids| && r in t.memories && t.memories[r].supersededBy == Some(ids[i]) ==>
             r in ids[..i];
    hide ReferrersFirst;
    WithoutListed(t.memories, ids);
    WithoutListed(t.fts, ids);
    WithoutListed(t.embeddings, ids);
  }

  lemma WithoutListed<T>(m: map<int, T>, ids: seq<int>)
    ensures m - IdSet(ids) == map id | id in m && id !in ids :: m[id]
  {
  }

  /** The audit rows of a deletion name the existing listed memories, each once. */
  lemma {:induction false} DeleteIsAudited(existing: set<int>, ids: seq<int>)
    ensures var rows := DeleteEvents(existing, ids);
      && (forall k :: 0 <= k < |rows| ==>
            rows[k] == AuditEvent(0, Deleted, rows[k].memory) && rows[k].memory in existing && rows[k].memory in ids)
      && (forall id :: id in existing && id in ids ==> AuditEvent(0, Deleted, id) in rows)
      && forall j, k :: 0 <= j < k < |rows| ==> rows[j].memory != rows[k].memory
    decreases |ids|
  {
    if ids != [] {
      var n := |ids| - 1;
      DeleteIsAudited(existing, ids[..n]);
      assert forall id :: id in ids <==> id in ids[..n] || id == ids[n];
      assert ids[n] in existing && ids[n] !in ids[..n] ==>
        DeleteEvents(existing, ids)[|DeleteEvents(existing, ids[..n])|] == AuditEvent(0, Deleted, ids[n]);
    }
  }

  // ---------------------------------------------------------------- decay

  /** The exempt tier, however it is capitalised. */
  predicate IsProcedural(tier: string) {
    |tier| == 10 && forall i :: 0 <= i < 10 ==> tier[i] == "procedural"[i] || tier[i] == "PROCEDURAL"[i]
  }

  lemma ProceduralIff(tier: string)
    ensures ToLower(tier) == "procedural" <==> IsProcedural(tier)
  {
    var lower := ToLower(tier);
    if |tier| == 10 {
      assert forall i :: 0 <= i < 10 ==> (lower[i] == "procedural"[i]
        <==> tier[i] == "procedural"[i] || tier[i] == "PROCEDURAL"[i]);
    }
  }

  /** What a pass leaves of an importance: a factor e for every `tauDays` since the last access,
      30 days if none are set; a memory accessed in the future loses nothing. */
  ghost function Left(m: Memory, opts: DecayOptions, exp: real -> real): real {
    var days: int := if opts.tauDays <= 0 then 30 else opts.tauDays;
    m.importance * exp(if opts.now <= m.accessedAt then 0.0
                       else -(opts.now - m.accessedAt) as real / (days * 86400000) as real)
  }

  lemma LeftIsDecayed(m: Memory, opts: DecayOptions, exp: real -> real)
    ensures DecayedImportance(m, opts, exp) == Left(m, opts, exp)
    ensures IsExp(exp) && opts.now <= m.accessedAt ==> Left(m, opts, exp) == m.importance
  {
    var days: int := if opts.tauDays <= 0 then 30 else opts.tauDays;
    assert TauMillis(opts) == (days * 86400000) as real;
    assert -0.0 / TauMillis(opts) == 0.0;
  }

  /** A successful pass keeps a memory iff what is left reaches the threshold, 0.05 if none is set,
      or the tier is exempt; what it keeps differs in the importance alone. */
  lemma DecayKeepsIff(t: Tables, opts: DecayOptions, exp: real -> real)
    requires DecayAllowed(t.memories, opts, exp)
    ensures var t' := AfterDecay(t, opts, exp);
      && (forall id :: id in t'.memories <==>
            && id in t.memories
            && (|| Left(t.memories[id], opts, exp) >= (if opts.minImportance <= 0.0 then 0.05 else opts.minImportance)
                || IsProcedural(t.memories[id].tier)))
      && (forall id :: id in t'.memories ==>
            t'.memories[id] == t.memories[id].(importance := Left(t.memories[id], opts, exp)))
      && t'.fts == (map id | id in t.fts && (id in t'.memories || id !in t.memories) :: t.fts[id])
      && t'.embeddings == (map id | id in t.embeddings && (id in t'.memories || id !in t.memories) :: t.embeddings[id])
      && t'.audit == t.audit && t'.sessions == t.sessions && t'.lastId == t.lastId
  {
    hide ToLower, DecayedImportance, IsProcedural, Left, DecayAllowed;
    forall id | id in t.memories
      ensures DecayedImportance(t.memories[id], opts, exp) == Left(t.memories[id], opts, exp)
      ensures ToLower(t.memories[id].tier) == "procedural" <==> IsProcedural(t.memories[id].tier)
    {
      LeftIsDecayed(t.memories[id], opts, exp);
      ProceduralIff(t.memories[id].tier);
    }
  }

  lemma {:induction false} ProductOf(n: nat, x: int)
    ensures (n * x) as real == n as real * x as real
    decreases n
  {
    if n > 0 {
      ProductOf(n - 1, x);
      assert n * x == (n - 1) * x + x;
      assert (n - 1) as real * x as real + x as real == n as real * x as real;
    }
  }

  /** After `n` times `tauDays` days without access, exp(-n) of the importance is left. */
  lemma WholeTaus(m: Memory, opts: DecayOptions, exp: real -> real, n: nat)
    requires IsExp(exp)
    requires var days: int := if opts.tauDays <= 0 then 30 else opts.tauDays;
      opts.now == m.accessedAt + n * (days * 86400000)
    ensures Left(m, opts, exp) == m.importance * exp(-(n as real))
  {
    var tau := (if opts.tauDays <= 0 then 30 else opts.tauDays) * 86400000;
    ProductOf(n, tau);
    if n > 0 {
      WholeQuotient(n as real, tau as real);
    }
  }

  /** So a successful pass, `n` times `tauDays` days after the last access, keeps the memory iff
      exp(-n) of its importance reaches the threshold; and it takes nothing from a memory whose
      access lies in the future. */
  lemma DecayAfterWholeTaus(t: Tables, opts: DecayOptions, exp: real -> real, id: int, n: nat)
    requires IsExp(exp) && DecayAllowed(t.memories, opts, exp) && id in t.memories
    ensures var m, after := t.memories[id], AfterDecay(t, opts, exp).memories;
      var days: int := if opts.tauDays <= 0 then 30 else opts.tauDays;
      var least := if opts.minImportance <= 0.0 then 0.05 else opts.minImportance;
      && (opts.now == m.accessedAt + n * (days * 86400000) ==>
            && (id in after <==> m.importance * exp(-(n as real)) >= least || IsProcedural(m.tier))
            && (id in after ==> after[id] == m.(importance := m.importance * exp(-(n as real)))))
      && (opts.now < m.accessedAt ==>
            && (id in after <==> m.importance >= least || IsProcedural(m.tier))
            && (id in after ==> after[id] == m))
  {
    hide AfterDecay, DecayAllowed, IsProcedural, Left, IsExp;
    var m := t.memories[id];
    var days: int := if opts.tauDays <= 0 then 30 else opts.tauDays;
    DecayKeepsIff(t, opts, exp);
    LeftIsDecayed(m, opts, exp);
    if opts.now == m.accessedAt + n * (days * 86400000) {
      WholeTaus(m, opts, exp, n);
    }
  }

  lemma WholeQuotient(n: real, tau: real)
    requires tau > 0.0
    ensures -(n * tau) / tau == -n
  {
    Divide(-(n * tau), tau);
    assert (-(n * tau) / tau + n) * tau == 0.0;
  }
}
