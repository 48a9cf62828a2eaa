/** Histories in which live capture, session starts and transcript imports write one database
    (internal/server/server.go:182-199, internal/mcp/server.go:352-362,
    internal/admin/import_jsonl.go:94-145). */
module CaptureHistories {
  import opened Capture
  import opened Outcomes
  import opened TranscriptImport

  datatype Op =
    | Observe(input: Input, windowSeconds: int)
    | Start(agent: string, externalId: string, project: string, ts: int)
    | Import(src: Source, lines: seq<Line>, now: int)

  const EMPTY := Database(State(map[], []), map[])

  /** Starting a session: the row is inserted when its pair is new, and refused on a taken id. */
  function AfterStart(s: State, agent: string, externalId: string, project: string, ts: int): State {
    if Collides(s, agent, externalId) then s else Ensured(s, agent, externalId, project, ts)
  }

  /** A start inserts the session's row, with no observations yet, unless its id is taken. */
  lemma StartInserts(s: State, agent: string, externalId: string, project: string, ts: int)
    ensures var t, id := AfterStart(s, agent, externalId, project, ts), agent + ":" + externalId;
      && t.observations == s.observations
      && t.sessions == if id in s.sessions then s.sessions
                       else s.sessions[id := Session(agent, externalId, project, ts, 0)]
  {
  }

  function Apply(db: Database, op: Op): Database {
    match op
    case Observe(input, windowSeconds) => db.(store := AfterInsert(db.store, input, windowSeconds))
    case Start(agent, externalId, project, ts) => db.(store := AfterStart(db.store, agent, externalId, project, ts))
    case Import(src, lines, now) => ScanAll(src, db, lines, At(now)).db
  }

  function ApplyAll(db: Database, ops: seq<Op>): Database
    decreases |ops|
  {
    if ops == [] then db else Apply(ApplyAll(db, ops[..|ops| - 1]), ops[|ops| - 1])
  }

  function History(ops: seq<Op>): Database {
    ApplyAll(EMPTY, ops)
  }

  /** What the callers pass: live hashes, and agents that are a constant without a colon or the
      part of a session id before its first colon. */
  predicate Wellformed(op: Op) {
    match op
    case Observe(input, _) => input.hash.Live? && ':' !in input.agent
    case Start(agent, _, _, _) => ':' !in agent
    case Import(_, _, _) => true
  }

  predicate AllWellformed(ops: seq<Op>) {
    forall k :: 0 <= k < |ops| ==> Wellformed(ops[k])
  }

  /** The two halves of a session id split at its first colon, as starting a session from an id
      does; None when a half would be empty. */
  function SplitId(id: string, i: nat): (r: Option<(string, string)>)
    requires i <= |id| && ':' !in id[..i]
    ensures r.Some? ==> ':' !in r.value.0 && r.value.0 != "" && r.value.1 != "" && SessionId(r.value.0, r.value.1) == id
    decreases |id| - i
  {
    if i == |id| then None
    else if id[i] != ':' then SplitId(id, i + 1)
    else if i == 0 || i + 1 == |id| then None
    else
      assert id[..i] + [id[i]] + id[i + 1..] == id;
      Some((id[..i], id[i + 1..]))
  }

  // ---------------------------------------------------------------- no collisions

  /** Every session row carries the id of its pair, and its agent has no colon. */
  ghost predicate ColonFree(s: State) {
    forall id :: id in s.sessions ==>
      ':' !in s.sessions[id].agent && id == SessionId(s.sessions[id].agent, s.sessions[id].externalId)
  }

  lemma NeverCollides(s: State, agent: string, externalId: string)
    requires ColonFree(s) && ':' !in agent
    ensures !Collides(s, agent, externalId)
  {
    var id := SessionId(agent, externalId);
    if id in s.sessions {
      ColonFreeAgents(agent, externalId, s.sessions[id].agent, s.sessions[id].externalId);
    }
  }

  lemma InsertKeepsColonFree(s: State, input: Input, windowSeconds: int)
    requires ColonFree(s) && ':' !in input.agent
    ensures ColonFree(AfterInsert(s, input, windowSeconds))
  {
    hide SessionId, Seen;
  }

  /** What holds in every history: no collisions can occur, and each recorded event is stored
      exactly once. */
  ghost predicate Sane(db: Database) {
    && ColonFree(db.store)
    && (forall i :: 0 <= i < |db.store.observations| ==> IsRecorded(db, db.store.observations[i].hash))
    && (forall key :: key in db.recorded ==> Kept(db.store.observations, key))
    && (forall i, j :: 0 <= i < j < |db.store.observations| && db.store.observations[i].hash.Imported? ==>
         db.store.observations[i].hash != db.store.observations[j].hash)
  }

  predicate Kept(observations: seq<Observation>, key: (string, string)) {
    exists i :: 0 <= i < |observations| && observations[i].hash == Imported(key.0, key.1)
  }

  lemma KeptSnoc(observations: seq<Observation>, o: Observation, key: (string, string))
    ensures Kept(observations + [o], key) <==> Kept(observations, key) || o.hash == Imported(key.0, key.1)
  {
    var more := observations + [o];
    assert more[|observations|] == o && forall i :: 0 <= i < |observations| ==> more[i] == observations[i];
  }

  lemma SaneIsSound(db: Database)
    requires Sane(db)
    ensures Sound(db)
  {
    forall externalId ensures !Collides(db.store, AGENT, externalId) {
      NeverCollides(db.store, AGENT, externalId);
    }
  }

  lemma ObserveKeepsSane(db: Database, input: Input, windowSeconds: int)
    requires Sane(db) && input.hash.Live? && ':' !in input.agent
    ensures Sane(db.(store := AfterInsert(db.store, input, windowSeconds)))
  {
    InsertKeepsColonFree(db.store, input, windowSeconds);
    var after := AfterInsert(db.store, input, windowSeconds);
    forall key | key in db.recorded ensures Kept(after.observations, key) {
      KeptSnoc(db.store.observations, Stored(input), key);
    }
    hide ColonFree, SessionId, Seen, Kept;
  }

  lemma StartKeepsSane(db: Database, agent: string, externalId: string, project: string, ts: int)
    requires Sane(db) && ':' !in agent
    ensures Sane(db.(store := AfterStart(db.store, agent, externalId, project, ts)))
  {
    hide SessionId, Kept;
  }

  /** In a sane database a new event is inserted, whatever captures came before. */
  lemma NewEventInserted(db: Database, src: Source, line: Line, lineNo: nat, now: int)
    requires Sane(db) && line.Entry? && (src.path, EventId(line, lineNo)) !in db.recorded
    ensures var input := Parse(src, line, lineNo, now);
      && !Collides(db.store, AGENT, input.externalId)
      && Accepted(db.store, input, 0)
      && AfterInsert(db.store, input, 0).observations == db.store.observations + [Stored(input)]
  {
    SaneIsSound(db);
    FreshEventAccepted(src, db, line, lineNo, now);
  }

  lemma ScanKeepsSane(src: Source, p: Progress, line: Line, lineNo: nat, now: int)
    requires Sane(p.db)
    ensures Sane(Scan(src, p, line, lineNo, now).db)
  {
    if !p.failed && line.Entry? && (src.path, EventId(line, lineNo)) !in p.db.recorded {
      var input, q := Parse(src, line, lineNo, now), Scan(src, p, line, lineNo, now);
      NewEventInserted(p.db, src, line, lineNo, now);
      InsertKeepsColonFree(p.db.store, input, 0);
      forall key | key in q.db.recorded ensures Kept(q.db.store.observations, key) {
        KeptSnoc(p.db.store.observations, Stored(input), key);
      }
      hide ColonFree, Kept, AfterInsert, Accepted, EventId;
    }
  }

  lemma {:induction false} ImportKeepsSane(src: Source, db: Database, lines: seq<Line>, clock: nat -> int)
    requires Sane(db)
    ensures Sane(ScanAll(src, db, lines, clock).db)
    decreases |lines|
  {
    if lines != [] {
      hide Sane, Scan;
      var n := |lines| - 1;
      ImportKeepsSane(src, db, lines[..n], clock);
      ScanKeepsSane(src, ScanAll(src, db, lines[..n], clock), lines[n], n + 1, clock(n + 1));
    }
  }

  lemma ApplyKeepsSane(db: Database, op: Op)
    requires Sane(db) && Wellformed(op)
    ensures Sane(Apply(db, op))
  {
    hide Sane, AfterInsert, AfterStart, ScanAll;
    match op
    case Observe(input, windowSeconds) => ObserveKeepsSane(db, input, windowSeconds);
    case Start(agent, externalId, project, ts) => StartKeepsSane(db, agent, externalId, project, ts);
    case Import(src, lines, now) => ImportKeepsSane(src, db, lines, At(now));
  }

  lemma {:induction false} RunKeepsSane(db: Database, ops: seq<Op>)
    requires Sane(db) && AllWellformed(ops)
    ensures Sane(ApplyAll(db, ops))
    decreases |ops|
  {
    if ops != [] {
      hide Sane, Apply;
      RunKeepsSane(db, ops[..|ops| - 1]);
      ApplyKeepsSane(ApplyAll(db, ops[..|ops| - 1]), ops[|ops| - 1]);
    }
  }

  /** In every history of captures, session starts and imports: no colon-free agent ever
      collides, the import theorems' hypothesis holds, and each recorded event has exactly one
      row. */
  lemma HistoriesAreSane(ops: seq<Op>)
    requires AllWellformed(ops)
    ensures Sane(History(ops)) && Sound(History(ops))
    ensures forall agent, externalId :: ':' !in agent ==> !Collides(History(ops).store, agent, externalId)
  {
    hide ApplyAll, Apply, Sound, Collides;
    RunKeepsSane(EMPTY, ops);
    SaneIsSound(History(ops));
    forall agent, externalId | ':' !in agent ensures !Collides(History(ops).store, agent, externalId) {
      NeverCollides(History(ops).store, agent, externalId);
    }
  }

  // ---------------------------------------------------------------- captures and imports do not interfere

  function ImportedRows(observations: seq<Observation>): seq<Observation> {
    if observations == [] then [] else
      var n := |observations| - 1;
      ImportedRows(observations[..n]) + if observations[n].hash.Imported? then [observations[n]] else []
  }

  lemma ImportedSnoc(observations: seq<Observation>, o: Observation)
    ensures ImportedRows(observations + [o]) == ImportedRows(observations) + if o.hash.Imported? then [o] else []
  {
    assert (observations + [o])[..|observations|] == observations;
  }

  /** The same recorded events and the same imported observations, in the same order. */
  predicate SameImports(a: Database, b: Database) {
    a.recorded == b.recorded && ImportedRows(a.store.observations) == ImportedRows(b.store.observations)
  }

  /** A live capture or a session start leaves the imports alone. */
  lemma CaptureKeepsImports(db: Database, op: Op)
    requires Wellformed(op) && !op.Import?
    ensures SameImports(Apply(db, op), db)
  {
    hide SessionId, Seen, ImportedRows;
    if op.Observe? { ImportedSnoc(db.store.observations, Stored(op.input)); }
  }

  lemma {:induction false} CapturesKeepImports(db: Database, ops: seq<Op>)
    requires AllWellformed(ops) && forall k :: 0 <= k < |ops| ==> !ops[k].Import?
    ensures SameImports(ApplyAll(db, ops), db)
    decreases |ops|
  {
    if ops != [] {
      hide Apply, ImportedRows;
      CapturesKeepImports(db, ops[..|ops| - 1]);
      CaptureKeepsImports(ApplyAll(db, ops[..|ops| - 1]), ops[|ops| - 1]);
    }
  }

  /** Two scans agree on the imports, the counts and failure. */
  predicate SameProgress(p: Progress, q: Progress) {
    p.failed == q.failed && p.stats == q.stats && SameImports(p.db, q.db)
  }

  lemma ScanSeesImportsOnly(src: Source, p: Progress, q: Progress, line: Line, lineNo: nat, now: int)
    requires Sane(p.db) && Sane(q.db) && SameProgress(p, q)
    ensures SameProgress(Scan(src, p, line, lineNo, now), Scan(src, q, line, lineNo, now))
  {
    hide Sane, ImportedRows;
    if !p.failed && line.Entry? && (src.path, EventId(line, lineNo)) !in p.db.recorded {
      NewEventInserted(p.db, src, line, lineNo, now);
      NewEventInserted(q.db, src, line, lineNo, now);
      ImportedSnoc(p.db.store.observations, Stored(Parse(src, line, lineNo, now)));
      ImportedSnoc(q.db.store.observations, Stored(Parse(src, line, lineNo, now)));
      hide AfterInsert, Accepted, Collides, EventId;
    }
  }

  /** An import decides by the imports alone: captures made before it change neither what it
      imports nor what it reports. */
  lemma {:induction false} ImportSeesImportsOnly(src: Source, a: Database, b: Database, lines: seq<Line>,
      clock: nat -> int)
    requires Sane(a) && Sane(b) && SameImports(a, b)
    ensures SameProgress(ScanAll(src, a, lines, clock), ScanAll(src, b, lines, clock))
    decreases |lines|
  {
    if lines != [] {
      hide Sane, Scan, SameImports;
      var n := |lines| - 1;
      ImportSeesImportsOnly(src, a, b, lines[..n], clock);
      ImportKeepsSane(src, a, lines[..n], clock);
      ImportKeepsSane(src, b, lines[..n], clock);
      ScanSeesImportsOnly(src, ScanAll(src, a, lines[..n], clock), ScanAll(src, b, lines[..n], clock), lines[n], n + 1,
        clock(n + 1));
    }
  }

  /** Importing F, capturing anything, then importing F ++ G, after any history: the recorded
      events, the imported observations and the counts are those of one import of F ++ G in which
      the lines of F fall back to the first clock. */
  lemma {:induction false} MixedImportIsIncremental(ops: seq<Op>, src: Source, f: seq<Line>, g: seq<Line>,
      between: seq<Op>, first: int, second: int)
    requires AllWellformed(ops) && AllWellformed(between) && Clean(f)
    requires forall k :: 0 <= k < |between| ==> !between[k].Import?
    ensures var db := History(ops);
      var one := ScanAll(src, db, f, At(first));
      var two := ScanAll(src, ApplyAll(one.db, between), f + g, At(second));
      var whole := ScanAll(src, db, f + g, Spliced(|f|, first, second));
      && !one.failed && two.failed == whole.failed && SameImports(two.db, whole.db)
      && one.stats.imported + two.stats.imported == whole.stats.imported
  {
    hide Sane, Sound, ScanAll, ApplyAll, Clean, At, Spliced, ImportedRows;
    var db := History(ops);
    HistoriesAreSane(ops);
    ImportIsIncremental(src, db, f, g, first, second);
    var one := ScanAll(src, db, f, At(first));
    ImportKeepsSane(src, db, f, At(first));
    RunKeepsSane(one.db, between);
    CapturesKeepImports(one.db, between);
    ImportSeesImportsOnly(src, ApplyAll(one.db, between), one.db, f + g, At(second));
  }

  // ---------------------------------------------------------------- counters

  lemma {:induction false} ImportKeepsConsistent(src: Source, db: Database, lines: seq<Line>, clock: nat -> int)
    requires Consistent(db.store)
    ensures Consistent(ScanAll(src, db, lines, clock).db.store)
    decreases |lines|
  {
    if lines != [] {
      hide Consistent, AfterInsert, Accepted;
      var n := |lines| - 1;
      ImportKeepsConsistent(src, db, lines[..n], clock);
      var p, line := ScanAll(src, db, lines[..n], clock), lines[n];
      if line.Entry? { InsertKeepsConsistent(p.db.store, Parse(src, line, n + 1, clock(n + 1)), 0); }
    }
  }

  /** The counter of every session equals its rows, live and imported together. */
  lemma {:induction false} HistoriesCount(ops: seq<Op>)
    ensures Consistent(History(ops).store)
    decreases |ops|
  {
    if ops != [] {
      var n := |ops| - 1;
      HistoriesCount(ops[..n]);
      var db := History(ops[..n]);
      hide AfterInsert, ScanAll, RowsOf, SessionId;
      match ops[n]
      case Observe(input, windowSeconds) => InsertKeepsConsistent(db.store, input, windowSeconds);
      case Start(_, _, _, _) =>
      case Import(src, lines, now) => ImportKeepsConsistent(src, db, lines, At(now));
    }
  }
}
