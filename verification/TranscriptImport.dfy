/** Incremental import of transcripts (internal/admin/import_jsonl.go, internal/store/imports.go). */
module TranscriptImport {
  import opened Capture
  import opened Outcomes

  /** A transcript line after JSON decoding. Empty strings stand for absent fields. `Bad` is a
      line on which the scan stops with an error: malformed JSON or longer than the buffer. */
  datatype Line =
    | Blank
    | Bad
    | Entry(eventId: string, sessionId: string, cwd: string, ts: Option<int>, kind: string, tool: string,
        payload: string)

  /** Absolute path, the file name without its extension, and the project given on the
      command line. */
  datatype Source = Source(path: string, baseName: string, defaultProject: string)

  /** The observation tables and the imported_events table. */
  datatype Database = Database(store: State, recorded: map<(string, string), int>)

  datatype Stats = Stats(imported: nat, skipped: nat)

  /** Where a scan stands: the database, the counts, and whether a line failed. */
  datatype Progress = Progress(db: Database, stats: Stats, failed: bool)

  const AGENT := "claude-code"

  // ---------------------------------------------------------------- parsing

  function Decimal(n: nat): string {
    if n < 10 then [('0' as int + n) as char] else Decimal(n / 10) + [('0' as int + n % 10) as char]
  }

  function EventId(line: Line, lineNo: nat): string
    requires line.Entry?
  {
    if line.eventId != "" then line.eventId else "line:" + Decimal(lineNo)
  }

  function Parse(src: Source, line: Line, lineNo: nat, fallback: int): Input
    requires line.Entry?
  {
    Input(AGENT,
          if line.sessionId != "" then line.sessionId else src.baseName,
          if line.cwd != "" then line.cwd else src.defaultProject,
          if line.ts.Some? then line.ts.value else fallback,
          line.kind, line.tool, line.payload,
          Imported(src.path, EventId(line, lineNo)))
  }

  // ---------------------------------------------------------------- the scan

  /** One line: skip it when its event is recorded, otherwise insert with window 0, then
      record. Insert and record are separate statements. */
  function Scan(src: Source, p: Progress, line: Line, lineNo: nat, importedAt: int): Progress {
    if p.failed || line.Blank? then p
    else if line.Bad? then p.(failed := true)
    else
      var key := (src.path, EventId(line, lineNo));
      var input := Parse(src, line, lineNo, importedAt);
      if key in p.db.recorded then p.(stats := p.stats.(skipped := p.stats.skipped + 1))
      else if Collides(p.db.store, AGENT, input.externalId) then p.(failed := true)
      else
        var inserted := Accepted(p.db.store, input, 0);
        Progress(Database(AfterInsert(p.db.store, input, 0), p.db.recorded[key := importedAt]),
                 if inserted then Stats(p.stats.imported + 1, p.stats.skipped)
                 else Stats(p.stats.imported, p.stats.skipped + 1),
                 false)
  }

  /** The whole scan. The clock may depend on the line, which lets one scan stand for several. */
  function ScanAll(src: Source, db: Database, lines: seq<Line>, clock: nat -> int): Progress
    decreases |lines|
  {
    if lines == [] then Progress(db, Stats(0, 0), false)
    else
      var n := |lines| - 1;
      Scan(src, ScanAll(src, db, lines[..n], clock), lines[n], n + 1, clock(n + 1))
  }

  /** One import run reads the clock once. */
  function At(now: int): nat -> int {
    lineNo => now
  }

  class Importer {
    const store: Observations
    var recorded: map<(string, string), int>

    ghost function Model(): Database
      reads this, store
    {
      Database(store.Model(), recorded)
    }

    constructor (store: Observations)
      ensures this.store == store && recorded == map[]
    {
      this.store := store;
      recorded := map[];
    }

    method RecordImportedEvent(path: string, eventId: string, importedAt: int) returns (added: bool)
      modifies this`recorded
      ensures added == ((path, eventId) !in old(recorded))
      ensures recorded == if added then old(recorded)[(path, eventId) := importedAt] else old(recorded)
    {
      added := (path, eventId) !in recorded;
      if added {
        recorded := recorded[(path, eventId) := importedAt];
      }
    }

    /** On an error the lines before it stay imported; the counts are returned only on success. */
    method ImportFile(src: Source, lines: seq<Line>, importedAt: int) returns (r: Result<Stats>)
      modifies this, store
      ensures Model() == ScanAll(src, old(Model()), lines, At(importedAt)).db
      ensures r.Err? <==> ScanAll(src, old(Model()), lines, At(importedAt)).failed
      ensures r.Ok? ==> r.value == ScanAll(src, old(Model()), lines, At(importedAt)).stats
    {
      var stats := Stats(0, 0);
      ghost var start := Model();
      for i := 0 to |lines|
        invariant Progress(Model(), stats, false) == ScanAll(src, start, lines[..i], At(importedAt))
      {
        var line, lineNo := lines[i], i + 1;
        ScanSnoc(src, start, lines, i, At(importedAt));
        if line.Blank? {
          continue;
        }
        if line.Bad? {
          ScanFailed(src, start, lines, i + 1, At(importedAt));
          return Err("parse error");
        }
        var input := Parse(src, line, lineNo, importedAt);
        var eventId := EventId(line, lineNo);
        if (src.path, eventId) in recorded {
          stats := stats.(skipped := stats.skipped + 1);
          continue;
        }
        var inserted := store.InsertObservation(input, 0);
        if inserted.Err? {
          ScanFailed(src, start, lines, i + 1, At(importedAt));
          return Err(inserted.reason);
        }
        var added := RecordImportedEvent(src.path, eventId, importedAt);
        if inserted.value && added {
          stats := stats.(imported := stats.imported + 1);
        } else {
          stats := stats.(skipped := stats.skipped + 1);
        }
      }
      assert lines[..|lines|] == lines;
      return Ok(stats);
    }
  }

  lemma ScanSnoc(src: Source, db: Database, lines: seq<Line>, i: nat, clock: nat -> int)
    requires i < |lines|
    ensures ScanAll(src, db, lines[..i + 1], clock)
      == Scan(src, ScanAll(src, db, lines[..i], clock), lines[i], i + 1, clock(i + 1))
  {
    assert lines[..i + 1][..i] == lines[..i];
  }

  /** A failed scan stays where it failed. */
  lemma {:induction false} ScanFailed(src: Source, db: Database, lines: seq<Line>, n: nat, clock: nat -> int)
    requires n <= |lines| && ScanAll(src, db, lines[..n], clock).failed
    ensures ScanAll(src, db, lines, clock) == ScanAll(src, db, lines[..n], clock)
    decreases |lines| - n
  {
    if n < |lines| {
      ScanSnoc(src, db, lines, n, clock);
      ScanFailed(src, db, lines, n + 1, clock);
    } else {
      assert lines[..n] == lines;
    }
  }

  // ---------------------------------------------------------------- incremental import

  /** Every stored import observation is recorded, and no session row shadows a transcript
      session. Holds in every history of captures and imports; see CaptureHistories. */
  ghost predicate Sound(db: Database) {
    && (forall i :: 0 <= i < |db.store.observations| ==> IsRecorded(db, db.store.observations[i].hash))
    && (forall externalId :: !Collides(db.store, AGENT, externalId))
  }

  predicate IsRecorded(db: Database, hash: Hash) {
    hash.Imported? ==> (hash.path, hash.eventId) in db.recorded
  }

  lemma ScanKeepsSound(src: Source, p: Progress, line: Line, lineNo: nat, importedAt: int)
    requires Sound(p.db)
    ensures Sound(Scan(src, p, line, lineNo, importedAt).db)
  {
    if !p.failed && line.Entry? && (src.path, EventId(line, lineNo)) !in p.db.recorded {
      var q := Scan(src, p, line, lineNo, importedAt);
      var input := Parse(src, line, lineNo, importedAt);
      assert forall h :: IsRecorded(p.db, h) ==> IsRecorded(q.db, h);
      assert IsRecorded(q.db, input.hash);
      forall externalId ensures !Collides(q.db.store, AGENT, externalId) {
        assert !Collides(p.db.store, AGENT, externalId);
        SameTranscriptSession(externalId, input.externalId);
      }
    }
  }

  lemma SameTranscriptSession(a: string, b: string)
    ensures SessionId(AGENT, a) == SessionId(AGENT, b) ==> a == b
  {
    if SessionId(AGENT, a) == SessionId(AGENT, b) { ColonFreeAgents(AGENT, a, AGENT, b); }
  }

  lemma {:induction false} ScanAllSound(src: Source, db: Database, lines: seq<Line>, clock: nat -> int)
    requires Sound(db)
    ensures Sound(ScanAll(src, db, lines, clock).db)
    decreases |lines|
  {
    if lines != [] {
      hide Sound, Scan;
      var n := |lines| - 1;
      ScanAllSound(src, db, lines[..n], clock);
      ScanKeepsSound(src, ScanAll(src, db, lines[..n], clock), lines[n], n + 1, clock(n + 1));
    }
  }

  /** In a sound database an unrecorded event is always inserted. */
  lemma FreshEventAccepted(src: Source, db: Database, line: Line, lineNo: nat, importedAt: int)
    requires Sound(db) && line.Entry? && (src.path, EventId(line, lineNo)) !in db.recorded
    ensures Accepted(db.store, Parse(src, line, lineNo, importedAt), 0)
  {
  }

  /** The event of one line, if it has one. */
  function EventOf(src: Source, line: Line, lineNo: nat): set<(string, string)> {
    if line.Entry? then {(src.path, EventId(line, lineNo))} else {}
  }

  /** The events of a transcript. */
  ghost function Events(src: Source, lines: seq<Line>): set<(string, string)>
    decreases |lines|
  {
    if lines == [] then {} else
      var n := |lines| - 1;
      Events(src, lines[..n]) + EventOf(src, lines[n], n + 1)
  }

  predicate Clean(lines: seq<Line>) {
    forall i :: 0 <= i < |lines| ==> !lines[i].Bad?
  }

  /** A scan of clean lines succeeds, records exactly the events of the lines, imports each
      distinct new event once, and stores one observation per imported event. */
  lemma {:induction false} ScanCounts(src: Source, db: Database, lines: seq<Line>, clock: nat -> int)
    requires Sound(db) && Clean(lines)
    ensures var p := ScanAll(src, db, lines, clock);
      && !p.failed
      && p.db.recorded.Keys == db.recorded.Keys + Events(src, lines)
      && p.stats.imported == |Events(src, lines) - db.recorded.Keys|
      && |p.db.store.observations| == |db.store.observations| + p.stats.imported
    decreases |lines|
  {
    hide Scan, Sound, Clean, EventOf;
    if lines == [] {
      assert Events(src, lines) - db.recorded.Keys == {};
    } else {
      var n := |lines| - 1;
      CleanPrefix(lines);
      ScanCounts(src, db, lines[..n], clock);
      ScanAllSound(src, db, lines[..n], clock);
      CountStep(src, ScanAll(src, db, lines[..n], clock), lines[n], n + 1, clock(n + 1));
      NewEvents(Events(src, lines[..n]), EventOf(src, lines[n], n + 1), db.recorded.Keys);
    }
  }

  lemma CleanPrefix(lines: seq<Line>)
    requires Clean(lines) && lines != []
    ensures Clean(lines[..|lines| - 1]) && !lines[|lines| - 1].Bad?
  {
  }

  lemma NewEvents<T>(earlier: set<T>, more: set<T>, known: set<T>)
    ensures |(earlier + more) - known| == |earlier - known| + |more - (known + earlier)|
  {
    assert (earlier + more) - known == (earlier - known) + (more - (known + earlier));
  }

  lemma CountStep(src: Source, p: Progress, line: Line, lineNo: nat, importedAt: int)
    requires Sound(p.db) && !p.failed && !line.Bad?
    ensures var q := Scan(src, p, line, lineNo, importedAt);
      var events := EventOf(src, line, lineNo);
      && !q.failed
      && q.db.recorded.Keys == p.db.recorded.Keys + events
      && q.stats.imported == p.stats.imported + |events - p.db.recorded.Keys|
      && |q.db.store.observations| == |p.db.store.observations| + |events - p.db.recorded.Keys|
  {
    if line.Entry? {
      var key := (src.path, EventId(line, lineNo));
      if key in p.db.recorded {
        assert {key} - p.db.recorded.Keys == {};
      } else {
        assert {key} - p.db.recorded.Keys == {key};
        FreshEventAccepted(src, p.db, line, lineNo, importedAt);
      }
    }
  }

  /** Lines whose events are all recorded change nothing, whatever the clock. */
  lemma {:induction false} RecordedLinesSkip(src: Source, db: Database, lines: seq<Line>, clock: nat -> int)
    requires Clean(lines) && Events(src, lines) <= db.recorded.Keys
    ensures var p := ScanAll(src, db, lines, clock);
      p.db == db && !p.failed && p.stats.imported == 0
    decreases |lines|
  {
    if lines != [] {
      var n := |lines| - 1;
      RecordedLinesSkip(src, db, lines[..n], clock);
    }
  }

  /** The clock of two runs in one: lines up to `n` at the first run's time. */
  function Spliced(n: nat, first: int, second: int): nat -> int {
    lineNo => if lineNo <= n then first else second
  }

  lemma {:induction false} SameClock(src: Source, db: Database, lines: seq<Line>, a: nat -> int, b: nat -> int)
    requires forall i: nat :: i <= |lines| ==> a(i) == b(i)
    ensures ScanAll(src, db, lines, a) == ScanAll(src, db, lines, b)
    decreases |lines|
  {
    if lines != [] { SameClock(src, db, lines[..|lines| - 1], a, b); }
  }

  /** Importing F and then F ++ G leaves exactly the database of one import of F ++ G in which
      the lines of F fall back to the first run's clock: same recorded events, counters and
      observations, and the two runs' import counts add up. */
  lemma ImportIsIncremental(src: Source, db: Database, f: seq<Line>, g: seq<Line>, first: int, second: int)
    requires Sound(db) && Clean(f)
    ensures var one := ScanAll(src, db, f, At(first));
      var two := ScanAll(src, one.db, f + g, At(second));
      var whole := ScanAll(src, db, f + g, Spliced(|f|, first, second));
      && !one.failed
      && two.db == whole.db && two.failed == whole.failed
      && one.stats.imported + two.stats.imported == whole.stats.imported
  {
    hide Sound, Scan, Clean, Events, Spliced, At, ScanAll;
    var one := ScanAll(src, db, f, At(first));
    ScanCounts(src, db, f, At(first));
    RecordedLinesSkip(src, one.db, f, At(second));
    SplicedPrefix(|f|, first, second);
    SameClock(src, db, f, At(first), Spliced(|f|, first, second));
    SplicedSuffix(|f|, first, second);
    ContinueAlike(src, one.db, db, f, g, At(second), Spliced(|f|, first, second), one.stats.imported);
  }

  /** Two scans agree on the database and on failure, and `b` is `offset` imports ahead. */
  predicate Alike(a: Progress, b: Progress, offset: nat) {
    a.db == b.db && a.failed == b.failed && offset + a.stats.imported == b.stats.imported
  }

  /** Scans that agree after `f` agree after any extension on which their clocks agree. */
  lemma {:induction false} ContinueAlike(src: Source, db1: Database, db2: Database, f: seq<Line>, g: seq<Line>,
      clock1: nat -> int, clock2: nat -> int, offset: nat)
    requires Alike(ScanAll(src, db1, f, clock1), ScanAll(src, db2, f, clock2), offset)
    requires forall i: nat :: |f| < i ==> clock1(i) == clock2(i)
    ensures Alike(ScanAll(src, db1, f + g, clock1), ScanAll(src, db2, f + g, clock2), offset)
    decreases |g|
  {
    hide ScanAll, Scan, Alike;
    if g == [] {
      assert f + g == f;
    } else {
      var shorter, line := f + g[..|g| - 1], g[|g| - 1];
      assert f + g == shorter + [line];
      ContinueAlike(src, db1, db2, f, g[..|g| - 1], clock1, clock2, offset);
      ScanOneMore(src, db1, shorter, line, clock1);
      ScanOneMore(src, db2, shorter, line, clock2);
      SameStep(src, ScanAll(src, db1, shorter, clock1), ScanAll(src, db2, shorter, clock2), line,
        |shorter| + 1, clock1(|shorter| + 1), offset);
    }
  }

  lemma SplicedPrefix(n: nat, first: int, second: int)
    ensures forall i: nat :: i <= n ==> At(first)(i) == Spliced(n, first, second)(i)
  {
  }

  lemma SplicedSuffix(n: nat, first: int, second: int)
    ensures forall i: nat :: n < i ==> At(second)(i) == Spliced(n, first, second)(i)
  {
  }

  lemma ScanOneMore(src: Source, db: Database, lines: seq<Line>, line: Line, clock: nat -> int)
    ensures ScanAll(src, db, lines + [line], clock)
      == Scan(src, ScanAll(src, db, lines, clock), line, |lines| + 1, clock(|lines| + 1))
  {
    assert (lines + [line])[..|lines|] == lines;
  }

  /** The scan of a line depends on the database and on whether a line failed, and its effect
      on the import count does not depend on the counts so far. */
  lemma SameStep(src: Source, a: Progress, b: Progress, line: Line, lineNo: nat, importedAt: int, offset: nat)
    requires Alike(a, b, offset)
    ensures Alike(Scan(src, a, line, lineNo, importedAt), Scan(src, b, line, lineNo, importedAt), offset)
  {
  }

  /** With one clock reading, the two runs and the single run agree exactly. */
  lemma ImportTwiceIsImportOnce(src: Source, db: Database, f: seq<Line>, g: seq<Line>, now: int)
    requires Sound(db) && Clean(f)
    ensures ScanAll(src, ScanAll(src, db, f, At(now)).db, f + g, At(now)).db == ScanAll(src, db, f + g, At(now)).db
  {
    ImportIsIncremental(src, db, f, g, now, now);
    SameClock(src, db, f + g, Spliced(|f|, now, now), At(now));
  }

  /** A rerun imports nothing and changes nothing. */
  lemma RerunImportsNothing(src: Source, db: Database, f: seq<Line>, first: int, second: int)
    requires Sound(db) && Clean(f)
    ensures var one := ScanAll(src, db, f, At(first));
      var two := ScanAll(src, one.db, f, At(second));
      two.db == one.db && !two.failed && two.stats.imported == 0
  {
    ScanCounts(src, db, f, At(first));
    RecordedLinesSkip(src, ScanAll(src, db, f, At(first)).db, f, At(second));
  }

  /** An import that stops at a bad line has imported exactly the lines before it, so a retry
      on any repaired transcript that keeps those lines duplicates nothing: it ends where one
      import of the repaired transcript would. */
  lemma RetryAfterError(src: Source, db: Database, f: seq<Line>, rest: seq<Line>, repaired: seq<Line>, first: int,
      second: int)
    requires Sound(db) && Clean(f)
    ensures var failed := ScanAll(src, db, f + [Bad] + rest, At(first));
      var retry := ScanAll(src, failed.db, f + repaired, At(second));
      var whole := ScanAll(src, db, f + repaired, Spliced(|f|, first, second));
      && failed.failed && failed.db == ScanAll(src, db, f, At(first)).db
      && retry.db == whole.db && retry.failed == whole.failed
  {
    var broken := f + [Bad] + rest;
    assert broken[..|f|] == f && broken[|f|] == Bad;
    ScanCounts(src, db, f, At(first));
    ScanSnoc(src, db, broken, |f|, At(first));
    ScanFailed(src, db, broken, |f| + 1, At(first));
    ImportIsIncremental(src, db, f, repaired, first, second);
  }

  // ---------------------------------------------------------------- the gap between two statements

  /** The database after a crash between the insert and the record of a line. */
  function Crashed(src: Source, db: Database, line: Line, lineNo: nat, importedAt: int): Database
    requires line.Entry?
  {
    db.(store := AfterInsert(db.store, Parse(src, line, lineNo, importedAt), 0))
  }

  /** Insert and record are not atomic: after a crash between them the retry stores the event
      a second time iff its timestamp is not before the stored one. */
  lemma CrashDuplicates(src: Source, db: Database, line: Line, lineNo: nat, first: int, second: int)
    requires Sound(db) && line.Entry? && (src.path, EventId(line, lineNo)) !in db.recorded
    ensures var crashed := Crashed(src, db, line, lineNo, first);
      var retried := Scan(src, Progress(crashed, Stats(0, 0), false), line, lineNo, second);
      && |crashed.store.observations| == |db.store.observations| + 1
      && |retried.db.store.observations| == |crashed.store.observations|
           + if line.ts.Some? || first <= second then 1 else 0
  {
    var input, again := Parse(src, line, lineNo, first), Parse(src, line, lineNo, second);
    FreshEventAccepted(src, db, line, lineNo, first);
    FreshEventAccepted(src, db, line, lineNo, second);
    SeenSnoc(db.store.observations, Stored(input), input.hash, again.ts);
    var crashed := Crashed(src, db, line, lineNo, first);
    assert crashed.store.observations == db.store.observations + [Stored(input)];
    assert !Collides(db.store, AGENT, input.externalId);
  }
}
