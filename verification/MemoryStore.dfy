/** The memory tables and the transactions over them (internal/store/memories.go,
    mcp_helpers.go, compaction.go, embeddings.go). A transaction takes a snapshot of the
    tables and restores it when a statement fails. */
module MemoryStore {
  import opened Outcomes
  import opened Sets

  datatype Memory = Memory(project: string, text: string, tier: string, source: string, importance: real,
    session: string, createdAt: int, updatedAt: int, accessedAt: int, accessCount: nat, supersededBy: Option<int>)

  datatype Embedding = Embedding(model: string, vector: seq<real>)

  datatype Action = Created | Updated | Superseded | Deleted

  datatype AuditEvent = AuditEvent(ts: int, action: Action, memory: int)

  datatype Tables = Tables(memories: map<int, Memory>, fts: map<int, string>, embeddings: map<int, Embedding>,
    audit: seq<AuditEvent>, sessions: set<string>, lastId: nat)

  datatype MemoryInput = MemoryInput(project: string, text: string, tier: string, source: string,
    importance: real, session: string, createdAt: int)

  datatype MemoryUpdate = MemoryUpdate(id: int, text: Option<string>, tier: Option<string>,
    importance: Option<real>, updatedAt: int)

  datatype DecayOptions = DecayOptions(now: int, tauDays: int, minImportance: real)

  // ---------------------------------------------------------------- invariant

  function Texts(memories: map<int, Memory>): map<int, string> {
    map id | id in memories :: memories[id].text
  }

  /** Row `r` points at memory `id` as its replacement. */
  predicate Refers(memories: map<int, Memory>, r: int, id: int) {
    r in memories && memories[r].supersededBy == Some(id)
  }

  ghost predicate Inv(t: Tables) {
    && t.fts == Texts(t.memories)
    && t.embeddings.Keys <= t.memories.Keys
    && (forall r, id :: Refers(t.memories, r, id) ==> id in t.memories && id != r)
    && (forall id :: id in t.memories ==> 0 < id <= t.lastId)
  }

  // ---------------------------------------------------------------- single-row operations

  predicate AddAllowed(t: Tables, input: MemoryInput) {
    input.session == "" || input.session in t.sessions
  }

  function NewRow(input: MemoryInput): Memory {
    Memory(input.project, input.text,
           if input.tier == "" then "fact" else input.tier,
           if input.source == "" then "manual" else input.source,
           if input.importance == 0.0 then 1.0 else input.importance,
           input.session, input.createdAt, input.createdAt, input.createdAt, 0, None)
  }

  function AfterAdd(t: Tables, input: MemoryInput): Tables {
    if !AddAllowed(t, input) then t else
      var id := t.lastId + 1;
      t.(memories := t.memories[id := NewRow(input)], fts := t.fts[id := input.text],
         audit := t.audit + [AuditEvent(input.createdAt, Created, id)], lastId := id)
  }

  predicate Touches(u: MemoryUpdate) {
    u.text.Some? || u.tier.Some? || u.importance.Some?
  }

  predicate UpdateAllowed(t: Tables, u: MemoryUpdate) {
    u.id > 0 && (Touches(u) ==> u.id in t.memories)
  }

  function Edited(m: Memory, u: MemoryUpdate): Memory {
    m.(updatedAt := u.updatedAt,
       text := if u.text.Some? then u.text.value else m.text,
       tier := if u.tier.Some? then u.tier.value else m.tier,
       importance := if u.importance.Some? then u.importance.value else m.importance)
  }

  function AfterUpdate(t: Tables, u: MemoryUpdate): Tables {
    if !UpdateAllowed(t, u) || !Touches(u) then t else
      t.(memories := t.memories[u.id := Edited(t.memories[u.id], u)],
         fts := if u.text.Some? then t.fts[u.id := u.text.value] else t.fts,
         audit := t.audit + [AuditEvent(u.updatedAt, Updated, u.id)])
  }

  /** The foreign key on superseded_by is immediate: the new memory must exist. */
  predicate SupersedeAllowed(t: Tables, oldId: int, newId: int) {
    oldId > 0 && newId > 0 && oldId != newId && oldId in t.memories && newId in t.memories
  }

  function AfterSupersede(t: Tables, oldId: int, newId: int): Tables {
    if !SupersedeAllowed(t, oldId, newId) then t else
      t.(memories := t.memories[oldId := t.memories[oldId].(supersededBy := Some(newId))],
         audit := t.audit + [AuditEvent(0, Superseded, oldId)])
  }

  predicate EmbeddingAllowed(t: Tables, id: int, e: Embedding) {
    e.model != "" && e.vector != [] && id in t.memories
  }

  function AfterEmbedding(t: Tables, id: int, e: Embedding): Tables {
    if EmbeddingAllowed(t, id, e) then t.(embeddings := t.embeddings[id := e]) else t
  }

  /** The statement names the project, and the model unless it is empty. */
  predicate Dropped(t: Tables, project: string, model: string, id: int) {
    && id in t.embeddings && id in t.memories && t.memories[id].project == project
    && (model == "" || t.embeddings[id].model == model)
  }

  function AfterDrop(t: Tables, project: string, model: string): Tables {
    t.(embeddings := map id | id in t.embeddings && !Dropped(t, project, model, id) :: t.embeddings[id])
  }

  function TouchRow(m: Memory, at: int): Memory {
    m.(accessedAt := at, accessCount := m.accessCount + 1)
  }

  function Touched(memories: map<int, Memory>, ids: seq<int>, at: int): map<int, Memory> {
    if ids == [] then memories else
      var n := |ids| - 1;
      var m := Touched(memories, ids[..n], at);
      if ids[n] in m then m[ids[n] := TouchRow(m[ids[n]], at)] else m
  }

  // ---------------------------------------------------------------- deletion

  /** Some row other than `id` still points at `id`: the delete statement is refused. */
  ghost predicate Held(memories: map<int, Memory>, id: int) {
    exists r :: Refers(memories, r, id) && r != id
  }

  function IdSet(ids: seq<int>): (r: set<int>)
    ensures forall x :: x in r <==> x in ids
  {
    set x | x in ids
  }

  /** Every referrer of a listed memory comes earlier in the list. */
  ghost predicate ReferrersFirst(memories: map<int, Memory>, ids: seq<int>) {
    forall i, r :: 0 <= i < |ids| && Refers(memories, r, ids[i]) ==> r in ids[..i]
  }

  /** The audit rows of a multi-delete: one for the first mention of each existing memory. */
  function DeleteEvents(existing: set<int>, ids: seq<int>): seq<AuditEvent> {
    if ids == [] then [] else
      var n := |ids| - 1;
      DeleteEvents(existing, ids[..n])
      + if ids[n] in existing && ids[n] !in ids[..n] then [AuditEvent(0, Deleted, ids[n])] else []
  }

  function Without(t: Tables, gone: set<int>): Tables {
    t.(memories := t.memories - gone, fts := t.fts - gone, embeddings := t.embeddings - gone)
  }

  ghost function AfterDelete(t: Tables, ids: seq<int>): Tables {
    if !ReferrersFirst(t.memories, ids) then t
    else Without(t, IdSet(ids)).(audit := t.audit + DeleteEvents(t.memories.Keys, ids))
  }

  // ---------------------------------------------------------------- decay

  function ToLower(s: string): (r: string)
    ensures |r| == |s|
  {
    seq(|s|, i requires 0 <= i < |s| => if 'A' <= s[i] <= 'Z' then s[i] + ('a' - 'A') else s[i])
  }

  function TauMillis(opts: DecayOptions): (r: real)
    ensures r > 0.0
  {
    (if opts.tauDays <= 0 then 30 else opts.tauDays) as real * 24.0 * 60.0 * 60.0 * 1000.0
  }

  function MinImportance(opts: DecayOptions): (r: real)
    ensures r > 0.0
  {
    if opts.minImportance <= 0.0 then 0.05 else opts.minImportance
  }

  function Age(now: int, accessedAt: int): (r: real)
    ensures r >= 0.0
  {
    if now < accessedAt then 0.0 else (now - accessedAt) as real
  }

  function DecayedImportance(m: Memory, opts: DecayOptions, exp: real -> real): real {
    m.importance * exp(-Age(opts.now, m.accessedAt) / TauMillis(opts))
  }

  predicate Dies(m: Memory, opts: DecayOptions, exp: real -> real) {
    DecayedImportance(m, opts, exp) < MinImportance(opts) && ToLower(m.tier) != "procedural"
  }

  function Doomed(memories: map<int, Memory>, opts: DecayOptions, exp: real -> real): set<int> {
    set id | id in memories && Dies(memories[id], opts, exp)
  }

  /** Every memory that points at a doomed one is doomed too and has a smaller id. */
  ghost predicate DecayAllowed(memories: map<int, Memory>, opts: DecayOptions, exp: real -> real) {
    forall id, r :: id in Doomed(memories, opts, exp) && Refers(memories, r, id) ==>
      r in Doomed(memories, opts, exp) && r < id
  }

  function Decayed(memories: map<int, Memory>, opts: DecayOptions, exp: real -> real): map<int, Memory> {
    map id | id in memories && !Dies(memories[id], opts, exp) ::
      memories[id].(importance := DecayedImportance(memories[id], opts, exp))
  }

  ghost function AfterDecay(t: Tables, opts: DecayOptions, exp: real -> real): Tables {
    if !DecayAllowed(t.memories, opts, exp) then t
    else Without(t, Doomed(t.memories, opts, exp)).(memories := Decayed(t.memories, opts, exp))
  }

  /** One row of the scan that precedes the decay transaction. */
  datatype Verdict = Verdict(id: int, importance: real, delete: bool)

  // ---------------------------------------------------------------- the store

  class Store {
    var memories: map<int, Memory>
    var fts: map<int, string>
    var embeddings: map<int, Embedding>
    var audit: seq<AuditEvent>
    var sessions: set<string>
    var lastId: nat

    function Snapshot(): Tables
      reads this
    {
      Tables(memories, fts, embeddings, audit, sessions, lastId)
    }

    constructor ()
      ensures Snapshot() == Tables(map[], map[], map[], [], {}, 0)
    {
      memories, fts, embeddings, audit, sessions, lastId := map[], map[], map[], [], {}, 0;
    }

    method Rollback(saved: Tables)
      modifies this
      ensures Snapshot() == saved
    {
      memories, fts, embeddings, audit, sessions, lastId :=
        saved.memories, saved.fts, saved.embeddings, saved.audit, saved.sessions, saved.lastId;
    }

    method EnsureSession(session: string)
      modifies this`sessions
      ensures Snapshot() == old(Snapshot()).(sessions := old(sessions) + {session})
    {
      sessions := sessions + {session};
    }

    method AddMemory(input: MemoryInput) returns (r: Result<int>)
      modifies this
      ensures Snapshot() == AfterAdd(old(Snapshot()), input)
      ensures r.Ok? <==> input.session == "" || input.session in old(sessions)
      ensures r.Ok? ==> r.value == lastId == old(lastId) + 1
    {
      if input.session != "" && input.session !in sessions {
        return Err("foreign key: session");
      }
      lastId := lastId + 1;
      memories := memories[lastId := NewRow(input)];
      fts := fts[lastId := input.text];
      audit := audit + [AuditEvent(input.createdAt, Created, lastId)];
      return Ok(lastId);
    }

    method UpdateMemory(u: MemoryUpdate) returns (r: Result<()>)
      modifies this
      ensures Snapshot() == AfterUpdate(old(Snapshot()), u)
      ensures r.Ok? <==>
        u.id > 0 && ((u.text.None? && u.tier.None? && u.importance.None?) || u.id in old(memories))
    {
      if u.id <= 0 {
        return Err("memory id is required");
      }
      if u.text.None? && u.tier.None? && u.importance.None? {
        return Ok(());
      }
      if u.id !in memories {
        return Err("memory not found");
      }
      memories := memories[u.id := Edited(memories[u.id], u)];
      if u.text.Some? {
        fts := fts - {u.id};
        fts := fts[u.id := u.text.value];
      }
      audit := audit + [AuditEvent(u.updatedAt, Updated, u.id)];
      return Ok(());
    }

    method SupersedeMemory(oldId: int, newId: int) returns (r: Result<()>)
      modifies this
      ensures Snapshot() == AfterSupersede(old(Snapshot()), oldId, newId)
      ensures r.Ok? <==> oldId > 0 && newId > 0 && oldId != newId && {oldId, newId} <= old(memories).Keys
    {
      if oldId <= 0 || newId <= 0 || oldId == newId {
        return Err("invalid supersession ids");
      }
      if oldId !in memories {
        return Err("memory not found");
      }
      if newId !in memories {
        return Err("foreign key: superseded_by");
      }
      memories := memories[oldId := memories[oldId].(supersededBy := Some(newId))];
      audit := audit + [AuditEvent(0, Superseded, oldId)];
      return Ok(());
    }

    method SaveMemoryEmbedding(id: int, e: Embedding) returns (r: Result<()>)
      modifies this
      ensures Snapshot() == AfterEmbedding(old(Snapshot()), id, e)
      ensures r.Ok? <==> e.model != "" && e.vector != [] && id in old(memories)
      ensures r.Ok? ==> Snapshot() == old(Snapshot()).(embeddings := old(embeddings)[id := e])
    {
      if e.model == "" || e.vector == [] || id !in memories {
        return Err("embedding refused");
      }
      embeddings := embeddings[id := e];
      return Ok(());
    }

    /** Exactly the embeddings of the project's memories, of that model if one is named, go. */
    method DeleteEmbeddings(project: string, model: string)
      modifies this`embeddings
      ensures Snapshot() == AfterDrop(old(Snapshot()), project, model)
    {
      ghost var t := Snapshot();
      var pending := embeddings.Keys;
      while pending != {}
        invariant pending <= t.embeddings.Keys
        invariant Snapshot() == t.(embeddings := embeddings)
        invariant forall id :: id in embeddings <==>
          id in t.embeddings && (id in pending || !Dropped(t, project, model, id))
        invariant forall id :: id in embeddings ==> embeddings[id] == t.embeddings[id]
        decreases pending
      {
        ghost var any := Draw(pending);
        var id :| id in pending;
        if id in memories && memories[id].project == project && (model == "" || embeddings[id].model == model) {
          embeddings := embeddings - {id};
        }
        pending := pending - {id};
      }
      ghost var left := AfterDrop(t, project, model).embeddings;
      assert forall id :: id in embeddings <==> id in left;
      assert embeddings == left;
    }

    method TouchMemories(ids: seq<int>, at: int)
      modifies this`memories
      ensures Snapshot() == old(Snapshot()).(memories := Touched(old(memories), ids, at))
    {
      for i := 0 to |ids|
        invariant Snapshot() == old(Snapshot()).(memories := Touched(old(memories), ids[..i], at))
      {
        assert ids[..i + 1][..i] == ids[..i];
        if ids[i] in memories {
          memories := memories[ids[i] := TouchRow(memories[ids[i]], at)];
        }
      }
      assert ids[..|ids|] == ids;
    }

    /** DELETE FROM memories WHERE id = ?: refused while another row points at the memory,
        cascades to its embedding. */
    method DeleteRow(id: int) returns (r: Result<nat>)
      modifies this`memories, this`embeddings
      ensures r.Ok? <==> !(id in old(memories) && Held(old(memories), id))
      ensures r.Ok? ==> r.value == if id in old(memories) then 1 else 0
      ensures r.Ok? ==> memories == old(memories) - {id}
      ensures r.Ok? ==> embeddings == if id in old(memories) then old(embeddings) - {id} else old(embeddings)
      ensures r.Err? ==> memories == old(memories) && embeddings == old(embeddings)
    {
      if id !in memories {
        assert memories - {id} == memories;
        return Ok(0);
      }
      if exists x :: x in memories && memories[x].supersededBy == Some(id) && x != id {
        assert Held(memories, id) by {
          var x :| x in memories && memories[x].supersededBy == Some(id) && x != id;
          assert Refers(memories, x, id);
        }
        return Err("foreign key: superseded_by");
      }
      assert forall x :: Refers(memories, x, id) ==> x in memories && memories[x].supersededBy == Some(id);
      memories := memories - {id};
      embeddings := embeddings - {id};
      return Ok(1);
    }

    /** The statements for one listed id: full text, row, audit. */
    method DeleteOne(id: int) returns (r: Result<nat>)
      requires embeddings.Keys <= memories.Keys
      modifies this
      ensures r.Ok? <==> !(id in old(memories) && Held(old(memories), id))
      ensures r.Ok? ==> r.value == if id in old(memories) then 1 else 0
      ensures r.Ok? ==> Snapshot() == DeletedOne(old(Snapshot()), id)
    {
      fts := fts - {id};
      r := DeleteRow(id);
      if r.Ok? && r.value > 0 {
        audit := audit + [AuditEvent(0, Deleted, id)];
      }
      assert r.Ok? && id !in old(embeddings) ==> embeddings == old(embeddings) - {id};
    }

    method DeleteMemories(ids: seq<int>) returns (r: Result<nat>)
      requires Inv(Snapshot())
      modifies this
      ensures Snapshot() == AfterDelete(old(Snapshot()), ids)
      ensures r.Ok? <==> ReferrersFirst(old(memories), ids)
      ensures r.Ok? ==> r.value == |old(memories).Keys * IdSet(ids)|
    {
      var saved := Snapshot();
      DeleteNothing(saved, ids[..0]);
      if |ids| == 0 {
        assert ids == ids[..0];
        return Ok(0);
      }
      var deleted := 0;
      for i := 0 to |ids|
        invariant ReferrersFirst(saved.memories, ids[..i])
        invariant Snapshot() == AfterDelete(saved, ids[..i])
        invariant deleted == |saved.memories.Keys * IdSet(ids[..i])|
      {
        hide ReferrersFirst, AfterDelete, IdSet, Held;
        DeleteStep(saved, Snapshot(), ids, i);
        DeleteCount(saved.memories.Keys, ids, i);
        PrefixReferrers(saved.memories, ids, i + 1);
        var n := DeleteOne(ids[i]);
        if n.Err? {
          Rollback(saved);
          RefusedDelete(saved, ids);
          return Err(n.reason);
        }
        deleted := deleted + n.value;
      }
      assert ids[..|ids|] == ids;
      return Ok(deleted);
    }

    /** The statements for one verdict of the scan. */
    method ApplyVerdict(u: Verdict) returns (r: Result<nat>)
      requires u.id in memories && embeddings.Keys <= memories.Keys
      modifies this
      ensures r.Ok? <==> !(u.delete && Held(old(memories), u.id))
      ensures r.Ok? ==> r.value == (if u.delete then 1 else 0) && Snapshot() == Applied(old(Snapshot()), u)
    {
      if u.delete {
        fts := fts - {u.id};
        r := DeleteRow(u.id);
        return r;
      }
      memories := memories[u.id := memories[u.id].(importance := u.importance)];
      return Ok(0);
    }

    /** Reads every memory in id order, then deletes or rewrites them in one transaction. */
    method DecayMemories(opts: DecayOptions, exp: real -> real) returns (r: Result<nat>)
      requires Inv(Snapshot())
      modifies this
      ensures Snapshot() == AfterDecay(old(Snapshot()), opts, exp)
      ensures r.Ok? <==> DecayAllowed(old(memories), opts, exp)
      ensures r.Ok? ==> r.value == |Doomed(old(memories), opts, exp)|
    {
      hide DecayedBelow, DoomedBelow, AllowedBelow, IsScan, Inv, Held, Doomed, DecayAllowed, AfterDecay;
      var saved := Snapshot();
      var updates := ScanForDecay(opts, exp);
      var deleted := 0;
      DecayStart(saved, updates, opts, exp);
      for i := 0 to |updates|
        invariant Snapshot() == DecayedBelow(saved, Cursor(saved, updates, i), opts, exp)
        invariant deleted == |DoomedBelow(saved.memories, Cursor(saved, updates, i), opts, exp)|
        invariant AllowedBelow(saved.memories, Cursor(saved, updates, i), opts, exp)
      {
        DecayStep(saved, updates, i, opts, exp);
        var n := ApplyVerdict(updates[i]);
        if n.Err? {
          Rollback(saved);
          RefusedDecay(saved, opts, exp);
          return Err(n.reason);
        }
        deleted := deleted + n.value;
      }
      WholeScan(saved, opts, exp);
      return Ok(deleted);
    }

    /** SELECT id, importance, accessed_at, tier FROM memories ORDER BY id ASC. */
    method ScanForDecay(opts: DecayOptions, exp: real -> real) returns (updates: seq<Verdict>)
      requires Inv(Snapshot())
      ensures IsScan(memories, updates, opts, exp)
    {
      updates := [];
      assert UpTo(memories, 1) == map[];
      for id := 1 to lastId + 1
        invariant IsScan(UpTo(memories, id), updates, opts, exp)
      {
        ScanNext(memories, updates, id, opts, exp);
        if id in memories {
          updates := updates + [Verdict(id, DecayedImportance(memories[id], opts, exp), Dies(memories[id], opts, exp))];
        }
      }
      assert UpTo(memories, lastId + 1) == memories;
    }
  }

  predicate IsVerdict(memories: map<int, Memory>, u: Verdict, opts: DecayOptions, exp: real -> real) {
    && u.id in memories
    && u.importance == DecayedImportance(memories[u.id], opts, exp)
    && u.delete == Dies(memories[u.id], opts, exp)
  }

  ghost predicate Listed(updates: seq<Verdict>, id: int) {
    exists i :: 0 <= i < |updates| && updates[i].id == id
  }

  lemma ListedSnoc(updates: seq<Verdict>, u: Verdict, id: int)
    ensures Listed(updates + [u], id) <==> Listed(updates, id) || u.id == id
  {
    var more := updates + [u];
    assert more[|updates|] == u;
    if Listed(updates, id) {
      var i :| 0 <= i < |updates| && updates[i].id == id;
      assert more[i].id == id;
    }
  }

  /** The rows with an id below `bound`. */
  function UpTo(memories: map<int, Memory>, bound: int): map<int, Memory> {
    map x | x in memories && x < bound :: memories[x]
  }

  lemma ScanNext(memories: map<int, Memory>, updates: seq<Verdict>, id: int, opts: DecayOptions, exp: real -> real)
    requires IsScan(UpTo(memories, id), updates, opts, exp)
    ensures if id in memories then
        IsScan(UpTo(memories, id + 1),
          updates + [Verdict(id, DecayedImportance(memories[id], opts, exp), Dies(memories[id], opts, exp))], opts, exp)
      else UpTo(memories, id + 1) == UpTo(memories, id)
  {
    hide DecayedImportance, Dies, Listed;
    var shorter, longer := UpTo(memories, id), UpTo(memories, id + 1);
    if id in memories {
      var u := Verdict(id, DecayedImportance(memories[id], opts, exp), Dies(memories[id], opts, exp));
      var more := updates + [u];
      assert forall i :: 0 <= i < |updates| ==> more[i] == updates[i] && IsVerdict(shorter, updates[i], opts, exp);
      assert forall i :: 0 <= i < |more| ==> IsVerdict(longer, more[i], opts, exp);
      forall x | x in longer ensures Listed(more, x) {
        ListedSnoc(updates, u, x);
        assert x in shorter || x == id;
      }
    }
  }

  /** The verdicts cover the memories once each, in id order. */
  ghost predicate IsScan(memories: map<int, Memory>, updates: seq<Verdict>, opts: DecayOptions, exp: real -> real) {
    && (forall i, j :: 0 <= i < j < |updates| ==> updates[i].id < updates[j].id)
    && (forall i :: 0 <= i < |updates| ==> IsVerdict(memories, updates[i], opts, exp))
    && (forall id :: id in memories ==> Listed(updates, id))
  }

  /** Doomed memories with an id below `bound`. */
  function DoomedBelow(memories: map<int, Memory>, bound: int, opts: DecayOptions, exp: real -> real): set<int> {
    set id | id in memories && id < bound && Dies(memories[id], opts, exp)
  }

  /** The tables once every memory below `bound` was deleted or rewritten. */
  function DecayedBelow(t: Tables, bound: int, opts: DecayOptions, exp: real -> real): Tables {
    var gone := DoomedBelow(t.memories, bound, opts, exp);
    Without(t, gone).(memories := map id | id in t.memories && id !in gone ::
      if id < bound then t.memories[id].(importance := DecayedImportance(t.memories[id], opts, exp))
      else t.memories[id])
  }

  /** The decay condition for the memories below `bound`. */
  ghost predicate AllowedBelow(memories: map<int, Memory>, bound: int, opts: DecayOptions, exp: real -> real) {
    forall id, r :: id in DoomedBelow(memories, bound, opts, exp) && Refers(memories, r, id) ==>
      r in DoomedBelow(memories, bound, opts, exp) && r < id
  }

  /** The next id the scan will reach. */
  function Cursor(t: Tables, updates: seq<Verdict>, i: nat): int {
    if i < |updates| then updates[i].id else t.lastId + 1
  }

  function Applied(t: Tables, u: Verdict): Tables
    requires u.id in t.memories
  {
    if u.delete then Without(t, {u.id})
    else t.(memories := t.memories[u.id := t.memories[u.id].(importance := u.importance)])
  }

  /** Nothing happens between two neighbouring cursors. */
  lemma SameBounds(t: Tables, a: int, b: int, opts: DecayOptions, exp: real -> real)
    requires a <= b && forall id :: id in t.memories ==> id < a || b <= id
    ensures DoomedBelow(t.memories, a, opts, exp) == DoomedBelow(t.memories, b, opts, exp)
    ensures DecayedBelow(t, a, opts, exp) == DecayedBelow(t, b, opts, exp)
    ensures AllowedBelow(t.memories, a, opts, exp) <==> AllowedBelow(t.memories, b, opts, exp)
  {
    hide Dies, DecayedImportance;
  }

  lemma DecayStart(t: Tables, updates: seq<Verdict>, opts: DecayOptions, exp: real -> real)
    requires Inv(t) && IsScan(t.memories, updates, opts, exp)
    ensures var c := Cursor(t, updates, 0);
      && t == DecayedBelow(t, c, opts, exp) && DoomedBelow(t.memories, c, opts, exp) == {}
      && AllowedBelow(t.memories, c, opts, exp)
  {
    hide Dies, DecayedImportance, IsVerdict;
    assert forall id :: id in t.memories ==> Cursor(t, updates, 0) <= id;
    assert DoomedBelow(t.memories, Cursor(t, updates, 0), opts, exp) == {};
    assert t.memories - {} == t.memories && t.fts - {} == t.fts && t.embeddings - {} == t.embeddings;
  }

  lemma CursorGap(t: Tables, updates: seq<Verdict>, i: nat, opts: DecayOptions, exp: real -> real)
    requires Inv(t) && IsScan(t.memories, updates, opts, exp) && i < |updates|
    ensures updates[i].id + 1 <= Cursor(t, updates, i + 1)
    ensures forall id :: id in t.memories ==> id < updates[i].id + 1 || Cursor(t, updates, i + 1) <= id
  {
    forall id ensures id in t.memories ==> id < updates[i].id + 1 || Cursor(t, updates, i + 1) <= id {
      if id in t.memories {
        var j :| 0 <= j < |updates| && updates[j].id == id;
        assert j <= i || i + 1 <= j;
      }
    }
  }

  /** One verdict takes the tables from one cursor to the next. */
  lemma ApplyBelow(t: Tables, u: Verdict, opts: DecayOptions, exp: real -> real)
    requires Inv(t) && IsVerdict(t.memories, u, opts, exp)
    ensures var before := DecayedBelow(t, u.id, opts, exp);
      && u.id in before.memories && before.embeddings.Keys <= before.memories.Keys
      && Applied(before, u) == DecayedBelow(t, u.id + 1, opts, exp)
    ensures DoomedBelow(t.memories, u.id + 1, opts, exp)
      == DoomedBelow(t.memories, u.id, opts, exp) + if u.delete then {u.id} else {}
  {
    hide Dies, DecayedImportance, Refers;
    var gone, gone' := DoomedBelow(t.memories, u.id, opts, exp), DoomedBelow(t.memories, u.id + 1, opts, exp);
    assert gone' == gone + if u.delete then {u.id} else {};
    var before, after := DecayedBelow(t, u.id, opts, exp), DecayedBelow(t, u.id + 1, opts, exp);
    assert Applied(before, u).memories == after.memories;
    assert Applied(before, u).fts == after.fts;
    assert Applied(before, u).embeddings == after.embeddings;
  }

  /** The delete is refused exactly when some referrer is not doomed or comes later. */
  lemma HeldByLaterRow(t: Tables, u: Verdict, opts: DecayOptions, exp: real -> real)
    requires Inv(t) && IsVerdict(t.memories, u, opts, exp) && AllowedBelow(t.memories, u.id, opts, exp)
    ensures var before := DecayedBelow(t, u.id, opts, exp);
      && (u.delete && Held(before.memories, u.id) ==> !DecayAllowed(t.memories, opts, exp))
      && (!(u.delete && Held(before.memories, u.id)) ==> AllowedBelow(t.memories, u.id + 1, opts, exp))
  {
    hide Dies, DecayedImportance;
    var before := DecayedBelow(t, u.id, opts, exp);
    forall x ensures Refers(before.memories, x, u.id)
      <==> Refers(t.memories, x, u.id) && x !in DoomedBelow(t.memories, u.id, opts, exp) {
    }
    assert u.delete ==> u.id in Doomed(t.memories, opts, exp);
    assert forall x :: x in Doomed(t.memories, opts, exp) && x < u.id ==> x in DoomedBelow(t.memories, u.id, opts, exp);
    assert DoomedBelow(t.memories, u.id + 1, opts, exp)
      == DoomedBelow(t.memories, u.id, opts, exp) + if u.delete then {u.id} else {};
  }

  lemma DecayStep(t: Tables, updates: seq<Verdict>, i: nat, opts: DecayOptions, exp: real -> real)
    requires Inv(t) && IsScan(t.memories, updates, opts, exp) && i < |updates|
    requires AllowedBelow(t.memories, Cursor(t, updates, i), opts, exp)
    ensures var u, c, c' := updates[i], Cursor(t, updates, i), Cursor(t, updates, i + 1);
      var before := DecayedBelow(t, c, opts, exp);
      && u.id in before.memories && before.embeddings.Keys <= before.memories.Keys
      && Applied(before, u) == DecayedBelow(t, c', opts, exp)
      && |DoomedBelow(t.memories, c', opts, exp)|
           == |DoomedBelow(t.memories, c, opts, exp)| + (if u.delete then 1 else 0)
      && (u.delete && Held(before.memories, u.id) ==> !DecayAllowed(t.memories, opts, exp))
      && (!(u.delete && Held(before.memories, u.id)) ==> AllowedBelow(t.memories, c', opts, exp))
  {
    var u := updates[i];
    assert IsVerdict(t.memories, u, opts, exp);
    assert u.id !in DoomedBelow(t.memories, u.id, opts, exp);
    hide DecayedBelow, DoomedBelow, AllowedBelow, IsScan, Inv, Held, Dies, DecayAllowed, Applied;
    CursorGap(t, updates, i, opts, exp);
    ApplyBelow(t, u, opts, exp);
    HeldByLaterRow(t, u, opts, exp);
    SameBounds(t, u.id + 1, Cursor(t, updates, i + 1), opts, exp);
  }

  lemma RefusedDecay(t: Tables, opts: DecayOptions, exp: real -> real)
    requires !DecayAllowed(t.memories, opts, exp)
    ensures AfterDecay(t, opts, exp) == t
  {
  }

  /** After the whole scan the tables are the decayed ones. */
  lemma {:induction false} WholeScan(t: Tables, opts: DecayOptions, exp: real -> real)
    requires Inv(t) && AllowedBelow(t.memories, t.lastId + 1, opts, exp)
    ensures DecayAllowed(t.memories, opts, exp)
    ensures DoomedBelow(t.memories, t.lastId + 1, opts, exp) == Doomed(t.memories, opts, exp)
    ensures DecayedBelow(t, t.lastId + 1, opts, exp) == AfterDecay(t, opts, exp)
  {
    hide Dies, DecayedImportance;
    assert DoomedBelow(t.memories, t.lastId + 1, opts, exp) == Doomed(t.memories, opts, exp);
    assert DecayedBelow(t, t.lastId + 1, opts, exp).memories == Decayed(t.memories, opts, exp);
  }

  // ---------------------------------------------------------------- multi-delete

  function DeletedOne(t: Tables, id: int): Tables {
    Without(t, {id}).(audit := if id in t.memories then t.audit + [AuditEvent(0, Deleted, id)] else t.audit)
  }

  lemma RefusedDelete(t: Tables, ids: seq<int>)
    requires !ReferrersFirst(t.memories, ids)
    ensures AfterDelete(t, ids) == t
  {
  }

  lemma DeleteNothing(t: Tables, none: seq<int>)
    requires none == []
    ensures ReferrersFirst(t.memories, none) && AfterDelete(t, none) == t
    ensures |t.memories.Keys * IdSet(none)| == 0
  {
    assert IdSet(none) == {};
    assert t.memories.Keys * IdSet(none) == {};
    assert t.memories - {} == t.memories && t.fts - {} == t.fts && t.embeddings - {} == t.embeddings;
    assert t.audit + [] == t.audit;
  }

  /** One more listed id: refused exactly when the order is wrong, otherwise one step on. */
  lemma DeleteStep(saved: Tables, t: Tables, ids: seq<int>, i: nat)
    requires Inv(saved) && i < |ids| && ReferrersFirst(saved.memories, ids[..i])
    requires t == AfterDelete(saved, ids[..i])
    ensures t.embeddings.Keys <= t.memories.Keys
    ensures ids[i] in t.memories <==> ids[i] in saved.memories && ids[i] !in ids[..i]
    ensures ids[i] in t.memories && Held(t.memories, ids[i]) <==> !ReferrersFirst(saved.memories, ids[..i + 1])
    ensures ReferrersFirst(saved.memories, ids[..i + 1]) ==> DeletedOne(t, ids[i]) == AfterDelete(saved, ids[..i + 1])
  {
    LastReferrers(saved, ids, i);
    hide ReferrersFirst, Held;
    var before, upTo := ids[..i], ids[..i + 1];
    assert upTo == before + [ids[i]] && upTo[..i] == before;
    assert IdSet(upTo) == IdSet(before) + {ids[i]};
    var a, b := IdSet(before), IdSet(upTo);
    assert saved.memories - a - {ids[i]} == saved.memories - b;
    assert saved.fts - a - {ids[i]} == saved.fts - b;
    assert saved.embeddings - a - {ids[i]} == saved.embeddings - b;
  }

  lemma DeleteCount(keys: set<int>, ids: seq<int>, i: nat)
    requires i < |ids|
    ensures |keys * IdSet(ids[..i + 1])|
      == |keys * IdSet(ids[..i])| + if ids[i] in keys && ids[i] !in ids[..i] then 1 else 0
  {
    var before, upTo := ids[..i], ids[..i + 1];
    assert upTo == before + [ids[i]];
    assert keys * IdSet(upTo) == keys * IdSet(before) + if ids[i] in keys && ids[i] !in before then {ids[i]} else {};
  }

  lemma PrefixReferrers(memories: map<int, Memory>, ids: seq<int>, n: nat)
    requires n <= |ids|
    ensures ReferrersFirst(memories, ids) ==> ReferrersFirst(memories, ids[..n])
  {
    assert forall k :: 0 <= k < n ==> ids[..n][k] == ids[k] && ids[..n][..k] == ids[..k];
  }

  lemma LastReferrers(saved: Tables, ids: seq<int>, i: nat)
    requires Inv(saved) && i < |ids| && ReferrersFirst(saved.memories, ids[..i])
    ensures var left := saved.memories - IdSet(ids[..i]);
      ids[i] in left && Held(left, ids[i]) <==> !ReferrersFirst(saved.memories, ids[..i + 1])
  {
    var before, upTo := ids[..i], ids[..i + 1];
    var id, left := ids[i], saved.memories - IdSet(before);
    assert upTo[i] == id && upTo[..i] == before;
    assert forall k :: 0 <= k < i ==> upTo[k] == before[k] && upTo[..k] == before[..k];
    assert forall r :: Refers(left, r, id) <==> Refers(saved.memories, r, id) && r !in before;
    if id in before {
      var k :| 0 <= k < i && before[k] == id;
      assert forall r :: Refers(saved.memories, r, id) ==> r in before[..k];
    }
    if ids[i] in left && Held(left, id) {
      var r :| Refers(left, r, id) && r != id;
      assert Refers(saved.memories, r, upTo[i]) && r !in upTo[..i];
    }
    if !ReferrersFirst(saved.memories, upTo) {
      var k, r :| 0 <= k < |upTo| && Refers(saved.memories, r, upTo[k]) && r !in upTo[..k];
      assert k == i;
      assert Refers(left, r, id);
    }
  }
}
