/** Whole histories of the memory store: what every run of operations keeps, including the
    operations that fail and roll back. */
module MemoryStoreRuns {
  import opened MemoryStore
  import opened Outcomes

  datatype Op =
    | OpenSession(session: string)
    | Add(input: MemoryInput)
    | Update(update: MemoryUpdate)
    | Supersede(oldId: int, newId: int)
    | Delete(ids: seq<int>)
    | Decay(opts: DecayOptions)
    | Touch(touched: seq<int>, at: int)
    | Embed(id: int, embedding: Embedding)
    | DropEmbeddings(project: string, model: string)

  ghost function Apply(t: Tables, op: Op, exp: real -> real): Tables {
    match op
    case OpenSession(session) => t.(sessions := t.sessions + {session})
    case Add(input) => AfterAdd(t, input)
    case Update(u) => AfterUpdate(t, u)
    case Supersede(oldId, newId) => AfterSupersede(t, oldId, newId)
    case Delete(ids) => AfterDelete(t, ids)
    case Decay(opts) => AfterDecay(t, opts, exp)
    case Touch(ids, at) => t.(memories := Touched(t.memories, ids, at))
    case Embed(id, e) => AfterEmbedding(t, id, e)
    case DropEmbeddings(project, model) => AfterDrop(t, project, model)
  }

  /** What a decay pass reports; nothing for the other operations. */
  ghost function Evicted(t: Tables, op: Op, exp: real -> real): nat {
    if op.Decay? && DecayAllowed(t.memories, op.opts, exp) then |Doomed(t.memories, op.opts, exp)| else 0
  }

  const EMPTY := Tables(map[], map[], map[], [], {}, 0)

  ghost function RunFrom(t: Tables, ops: seq<Op>, exp: real -> real): Tables
    decreases |ops|
  {
    if ops == [] then t else Apply(RunFrom(t, ops[..|ops| - 1], exp), ops[|ops| - 1], exp)
  }

  ghost function Run(ops: seq<Op>, exp: real -> real): Tables {
    RunFrom(EMPTY, ops, exp)
  }

  ghost function TotalEvicted(ops: seq<Op>, exp: real -> real): nat
    decreases |ops|
  {
    if ops == [] then 0 else
      var n := |ops| - 1;
      TotalEvicted(ops[..n], exp) + Evicted(Run(ops[..n], exp), ops[n], exp)
  }

  // ---------------------------------------------------------------- referential integrity

  lemma {:induction false} TouchedKeeps(memories: map<int, Memory>, ids: seq<int>, at: int)
    ensures var m := Touched(memories, ids, at);
      && m.Keys == memories.Keys
      && forall id :: id in memories ==>
           m[id].text == memories[id].text && m[id].supersededBy == memories[id].supersededBy
  {
    if ids != [] { TouchedKeeps(memories, ids[..|ids| - 1], at); }
  }

  lemma TouchKeepsInv(t: Tables, ids: seq<int>, at: int)
    requires Inv(t)
    ensures Inv(t.(memories := Touched(t.memories, ids, at)))
  {
    hide Touched;
    TouchedKeeps(t.memories, ids, at);
    var m := Touched(t.memories, ids, at);
    assert forall id :: id in m <==> id in t.memories;
    assert forall id :: id in m ==>
      m[id].text == t.memories[id].text && m[id].supersededBy == t.memories[id].supersededBy;
    assert Texts(m) == Texts(t.memories);
    assert forall r, id :: Refers(m, r, id) <==> Refers(t.memories, r, id);
  }

  lemma AddKeepsInv(t: Tables, input: MemoryInput)
    requires Inv(t)
    ensures Inv(AfterAdd(t, input))
  {
    var t' := AfterAdd(t, input);
    assert forall r, id :: Refers(t'.memories, r, id) ==> Refers(t.memories, r, id);
  }

  lemma UpdateKeepsInv(t: Tables, u: MemoryUpdate)
    requires Inv(t)
    ensures Inv(AfterUpdate(t, u))
  {
    var t' := AfterUpdate(t, u);
    assert forall r, id :: Refers(t'.memories, r, id) ==> Refers(t.memories, r, id);
  }

  lemma SupersedeKeepsInv(t: Tables, oldId: int, newId: int)
    requires Inv(t)
    ensures Inv(AfterSupersede(t, oldId, newId))
  {
    var t' := AfterSupersede(t, oldId, newId);
    assert forall r, id :: Refers(t'.memories, r, id) ==> Refers(t.memories, r, id) || (r == oldId && id == newId);
  }

  /** Deleting a set of memories that takes all referrers along keeps the tables consistent. */
  lemma WithoutKeepsInv(t: Tables, gone: set<int>, audit: seq<AuditEvent>)
    requires Inv(t)
    requires forall id, r :: id in gone && Refers(t.memories, r, id) ==> r in gone
    ensures Inv(Without(t, gone).(audit := audit))
  {
    var t' := Without(t, gone);
    assert Texts(t'.memories) == t'.fts;
    assert forall r, id :: Refers(t'.memories, r, id) ==> Refers(t.memories, r, id) && r !in gone;
  }

  lemma DeleteKeepsInv(t: Tables, ids: seq<int>)
    requires Inv(t)
    ensures Inv(AfterDelete(t, ids))
  {
    if ReferrersFirst(t.memories, ids) {
      forall id, r | id in IdSet(ids) && Refers(t.memories, r, id) ensures r in IdSet(ids) {
        var i :| 0 <= i < |ids| && ids[i] == id;
        assert r in ids[..i];
      }
      WithoutKeepsInv(t, IdSet(ids), t.audit + DeleteEvents(t.memories.Keys, ids));
    }
  }

  lemma DecayKeepsInv(t: Tables, opts: DecayOptions, exp: real -> real)
    requires Inv(t)
    ensures Inv(AfterDecay(t, opts, exp))
  {
    hide Dies, DecayedImportance;
    if DecayAllowed(t.memories, opts, exp) {
      var gone := Doomed(t.memories, opts, exp);
      WithoutKeepsInv(t, gone, t.audit);
      var t', u := AfterDecay(t, opts, exp), Without(t, gone);
      assert t'.memories.Keys == u.memories.Keys;
      assert Texts(t'.memories) == Texts(u.memories);
      assert forall r, id :: Refers(t'.memories, r, id) ==> Refers(u.memories, r, id);
    }
  }

  lemma ApplyKeepsInv(t: Tables, op: Op, exp: real -> real)
    requires Inv(t)
    ensures Inv(Apply(t, op, exp))
  {
    hide AfterAdd, AfterUpdate, AfterSupersede, AfterDelete, AfterDecay;
    match op {
      case OpenSession(_) =>
      case Add(input) => AddKeepsInv(t, input);
      case Update(u) => UpdateKeepsInv(t, u);
      case Supersede(oldId, newId) => SupersedeKeepsInv(t, oldId, newId);
      case Delete(ids) => DeleteKeepsInv(t, ids);
      case Decay(opts) => DecayKeepsInv(t, opts, exp);
      case Touch(ids, at) => TouchKeepsInv(t, ids, at);
      case Embed(_, _) =>
      case DropEmbeddings(_, _) =>
    }
  }

  /** After every run: the full-text rows are exactly the texts of the memories, embeddings
      belong to memories, superseded_by names a live other memory, ids are in range. */
  lemma {:induction false} RunKeepsInv(ops: seq<Op>, exp: real -> real)
    ensures Inv(Run(ops, exp))
    decreases |ops|
  {
    if ops != [] {
      hide Apply, Inv;
      RunKeepsInv(ops[..|ops| - 1], exp);
      ApplyKeepsInv(Run(ops[..|ops| - 1], exp), ops[|ops| - 1], exp);
    }
  }

  // ---------------------------------------------------------------- the ledger

  function Logged(audit: seq<AuditEvent>, action: Action): nat {
    if audit == [] then 0 else
      Logged(audit[..|audit| - 1], action) + if audit[|audit| - 1].action == action then 1 else 0
  }

  lemma {:induction false} LoggedAppend(a: seq<AuditEvent>, b: seq<AuditEvent>, action: Action)
    ensures Logged(a + b, action) == Logged(a, action) + Logged(b, action)
  {
    if b == [] {
      assert a + b == a;
    } else {
      var n := |b| - 1;
      LoggedAppend(a, b[..n], action);
      assert (a + b)[..|a + b| - 1] == a + b[..n];
    }
  }

  lemma LoggedOne(a: seq<AuditEvent>, e: AuditEvent, action: Action)
    ensures Logged(a + [e], action) == Logged(a, action) + if e.action == action then 1 else 0
  {
    assert (a + [e])[..|a|] == a;
  }

  lemma {:induction false} DeleteEventsCount(existing: set<int>, ids: seq<int>)
    ensures Logged(DeleteEvents(existing, ids), Deleted) == |existing * IdSet(ids)|
    ensures Logged(DeleteEvents(existing, ids), Created) == 0
  {
    if ids == [] {
      assert existing * IdSet(ids) == {};
    } else {
      hide IdSet;
      var n := |ids| - 1;
      DeleteEventsCount(existing, ids[..n]);
      DeleteCount(existing, ids, n);
      assert ids[..n + 1] == ids;
      var e := AuditEvent(0, Deleted, ids[n]);
      LoggedOne(DeleteEvents(existing, ids[..n]), e, Deleted);
      LoggedOne(DeleteEvents(existing, ids[..n]), e, Created);
      assert DeleteEvents(existing, ids[..n]) + [] == DeleteEvents(existing, ids[..n]);
    }
  }

  /** Live memories against what the log says was created and deleted. */
  function Balance(t: Tables): int {
    |t.memories| - Logged(t.audit, Created) + Logged(t.audit, Deleted)
  }

  lemma SizeWithout(memories: map<int, Memory>, gone: set<int>)
    ensures |memories - gone| == |memories| - |memories.Keys * gone|
  {
    assert (memories - gone).Keys == memories.Keys - gone;
    assert memories.Keys == (memories.Keys - gone) + (memories.Keys * gone);
  }

  lemma SizeOverwrite(memories: map<int, Memory>, id: int, m: Memory)
    ensures |memories[id := m]| == |memories| + if id in memories then 0 else 1
  {
    assert memories[id := m].Keys == memories.Keys + {id};
  }

  lemma DeleteBalance(t: Tables, ids: seq<int>)
    ensures Balance(AfterDelete(t, ids)) == Balance(t)
  {
    hide Logged, DeleteEvents, IdSet;
    if ReferrersFirst(t.memories, ids) {
      var events := DeleteEvents(t.memories.Keys, ids);
      DeleteEventsCount(t.memories.Keys, ids);
      LoggedAppend(t.audit, events, Created);
      LoggedAppend(t.audit, events, Deleted);
      SizeWithout(t.memories, IdSet(ids));
    }
  }

  lemma DecayBalance(t: Tables, opts: DecayOptions, exp: real -> real)
    ensures Balance(AfterDecay(t, opts, exp)) == Balance(t) - Evicted(t, Decay(opts), exp)
  {
    hide Dies, DecayedImportance, Logged;
    if DecayAllowed(t.memories, opts, exp) {
      var gone := Doomed(t.memories, opts, exp);
      SizeWithout(t.memories, gone);
      assert t.memories.Keys * gone == gone;
      assert Decayed(t.memories, opts, exp).Keys == (t.memories - gone).Keys;
      assert |Decayed(t.memories, opts, exp)| == |t.memories - gone|;
    }
  }

  lemma RowBalance(t: Tables, op: Op, exp: real -> real)
    requires Inv(t) && (op.Add? || op.Update? || op.Supersede? || op.Touch?)
    ensures Balance(Apply(t, op, exp)) == Balance(t)
  {
    hide Logged, Touched, Inv;
    match op {
      case Add(input) =>
        NewIdFree(t);
        SizeOverwrite(t.memories, t.lastId + 1, NewRow(input));
        LoggedOne(t.audit, AuditEvent(input.createdAt, Created, t.lastId + 1), Created);
        LoggedOne(t.audit, AuditEvent(input.createdAt, Created, t.lastId + 1), Deleted);
      case Update(u) =>
        if UpdateAllowed(t, u) && Touches(u) {
          SizeOverwrite(t.memories, u.id, Edited(t.memories[u.id], u));
          LoggedOne(t.audit, AuditEvent(u.updatedAt, Updated, u.id), Created);
          LoggedOne(t.audit, AuditEvent(u.updatedAt, Updated, u.id), Deleted);
        }
      case Supersede(oldId, newId) =>
        if SupersedeAllowed(t, oldId, newId) {
          SizeOverwrite(t.memories, oldId, t.memories[oldId].(supersededBy := Some(newId)));
          LoggedOne(t.audit, AuditEvent(0, Superseded, oldId), Created);
          LoggedOne(t.audit, AuditEvent(0, Superseded, oldId), Deleted);
        }
      case Touch(ids, at) =>
        TouchedKeeps(t.memories, ids, at);
        assert |Touched(t.memories, ids, at).Keys| == |t.memories.Keys|;
        assert |Touched(t.memories, ids, at)| == |Touched(t.memories, ids, at).Keys|;
    }
  }

  lemma NewIdFree(t: Tables)
    requires Inv(t)
    ensures t.lastId + 1 !in t.memories
  {
  }

  lemma ApplyBalance(t: Tables, op: Op, exp: real -> real)
    requires Inv(t)
    ensures Balance(Apply(t, op, exp)) == Balance(t) - Evicted(t, op, exp)
  {
    hide AfterAdd, AfterUpdate, AfterSupersede, AfterDelete, AfterDecay, Balance;
    match op {
      case OpenSession(session) => SameBalance(t, Apply(t, op, exp));
      case Delete(ids) => DeleteBalance(t, ids);
      case Decay(opts) => DecayBalance(t, opts, exp);
      case Embed(_, _) => SameBalance(t, Apply(t, op, exp));
      case DropEmbeddings(_, _) => SameBalance(t, Apply(t, op, exp));
      case _ => RowBalance(t, op, exp);
    }
  }

  lemma SameBalance(t: Tables, t': Tables)
    requires t'.memories == t.memories && t'.audit == t.audit
    ensures Balance(t') == Balance(t)
  {
  }

  /** Conservation: live memories are the logged creations minus the logged deletions minus
      everything the decay passes reported. */
  lemma {:induction false} LedgerBalances(ops: seq<Op>, exp: real -> real)
    ensures var t := Run(ops, exp);
      |t.memories| == Logged(t.audit, Created) - Logged(t.audit, Deleted) - TotalEvicted(ops, exp)
    decreases |ops|
  {
    if ops != [] {
      hide Apply, Evicted, Logged;
      var n := |ops| - 1;
      LedgerBalances(ops[..n], exp);
      RunKeepsInv(ops[..n], exp);
      ApplyBalance(Run(ops[..n], exp), ops[n], exp);
    }
  }
}
