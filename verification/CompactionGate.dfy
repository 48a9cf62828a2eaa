/** The compaction gate: when a stop hook may block an agent with a compaction prompt
    (internal/server/server.go, internal/store/compaction.go, internal/mcp/server.go). */
module CompactionGate {
  import opened Outcomes

  datatype Options = Options(mode: string, minObservations: int, maxBlockAttempts: int, attemptTTLSeconds: int)

  datatype Status = Requested | Completed | Failed | Skipped

  /** A row of compaction_attempts; its id is its position in the table. */
  datatype Attempt = Attempt(session: string, status: Status, reason: string, attemptedAt: int,
      completedAt: Option<int>)

  datatype Session = Session(startedAt: int, endedAt: Option<int>, summary: string, nObs: nat)

  /** The two columns of a memory the gate looks at. */
  datatype SavedMemory = SavedMemory(session: string, createdAt: int)

  datatype State = State(sessions: map<string, Session>, attempts: seq<Attempt>, memories: seq<SavedMemory>)

  // ---------------------------------------------------------------- configuration

  function Normalize(cfg: Options): (r: Options)
    ensures r.mode != "" && r.minObservations > 0 && r.maxBlockAttempts > 0 && r.attemptTTLSeconds > 0
    ensures r.mode == if cfg.mode != "" then cfg.mode else "subagent"
    ensures r.minObservations == if cfg.minObservations > 0 then cfg.minObservations else 5
    ensures r.maxBlockAttempts == if cfg.maxBlockAttempts > 0 then cfg.maxBlockAttempts else 2
    ensures r.attemptTTLSeconds == if cfg.attemptTTLSeconds > 0 then cfg.attemptTTLSeconds else 600
  {
    Options(if cfg.mode == "" then "subagent" else cfg.mode,
            if cfg.minObservations <= 0 then 5 else cfg.minObservations,
            if cfg.maxBlockAttempts <= 0 then 2 else cfg.maxBlockAttempts,
            if cfg.attemptTTLSeconds <= 0 then 600 else cfg.attemptTTLSeconds)
  }

  /** The retention window in milliseconds. */
  function Window(cfg: Options): int {
    cfg.attemptTTLSeconds * 1000
  }

  predicate Enabled(cfg: Options) {
    cfg.mode != "disabled" && cfg.mode != "manual"
  }

  // ---------------------------------------------------------------- tables

  predicate IsRequested(a: Attempt, sid: string) {
    a.session == sid && a.status == Requested
  }

  /** Positions of the session's outstanding attempts. */
  ghost function Outstanding(attempts: seq<Attempt>, sid: string): set<nat> {
    set i | 0 <= i < |attempts| && attempts[i].session == sid && attempts[i].status == Requested
  }

  /** Positions of the outstanding attempts made at `since` or later. */
  ghost function Fresh(attempts: seq<Attempt>, sid: string, since: int): set<nat> {
    set i | 0 <= i < |attempts| && IsRequested(attempts[i], sid) && attempts[i].attemptedAt >= since
  }

  function FreshCount(attempts: seq<Attempt>, sid: string, since: int): nat {
    if attempts == [] then 0 else
      var n := |attempts| - 1;
      FreshCount(attempts[..n], sid, since)
      + if IsRequested(attempts[n], sid) && attempts[n].attemptedAt >= since then 1 else 0
  }

  lemma {:induction false} FreshCountIsSize(attempts: seq<Attempt>, sid: string, since: int)
    ensures FreshCount(attempts, sid, since) == |Fresh(attempts, sid, since)|
  {
    if attempts != [] {
      hide IsRequested;
      var n := |attempts| - 1;
      FreshCountIsSize(attempts[..n], sid, since);
      assert Fresh(attempts, sid, since) == Fresh(attempts[..n], sid, since)
        + if IsRequested(attempts[n], sid) && attempts[n].attemptedAt >= since then {n} else {};
    }
  }

  function ExpireRow(a: Attempt, sid: string, before: int): Attempt {
    if IsRequested(a, sid) && a.attemptedAt < before then a.(status := Failed, reason := "ttl expired") else a
  }

  function Expire(attempts: seq<Attempt>, sid: string, before: int): (r: seq<Attempt>)
    ensures |r| == |attempts|
    ensures forall i :: 0 <= i < |r| ==> r[i] == ExpireRow(attempts[i], sid, before)
  {
    seq(|attempts|, i requires 0 <= i < |attempts| => ExpireRow(attempts[i], sid, before))
  }

  /** Row `i` is outstanding, and no outstanding row is newer; of equally new ones it has the
      highest id. */
  ghost predicate IsLatest(attempts: seq<Attempt>, sid: string, i: nat) {
    && i < |attempts| && attempts[i].session == sid && attempts[i].status == Requested
    && forall j :: 0 <= j < |attempts| && attempts[j].session == sid && attempts[j].status == Requested ==>
         || attempts[j].attemptedAt < attempts[i].attemptedAt
         || (attempts[j].attemptedAt == attempts[i].attemptedAt && j <= i)
  }

  /** Position of the session's newest outstanding attempt, ties broken by the higher id. */
  function Latest(attempts: seq<Attempt>, sid: string): (r: Option<nat>)
    ensures r.None? ==> forall i :: 0 <= i < |attempts| ==> !IsRequested(attempts[i], sid)
    ensures r.Some? ==> IsLatest(attempts, sid, r.value)
  {
    if attempts == [] then None else
      var n := |attempts| - 1;
      var rest := attempts[..n];
      var earlier := Latest(rest, sid);
      assert forall i :: 0 <= i < n ==> rest[i] == attempts[i];
      if IsRequested(attempts[n], sid)
         && (earlier.None? || attempts[n].attemptedAt >= attempts[earlier.value].attemptedAt)
      then Some(n) else earlier
  }

  function Completion(a: Attempt, completedAt: int): Attempt {
    a.(status := Completed, completedAt := Some(completedAt))
  }

  function MarkCompleted(attempts: seq<Attempt>, sid: string, completedAt: int): seq<Attempt> {
    match Latest(attempts, sid)
    case None => attempts
    case Some(i) => attempts[i := Completion(attempts[i], completedAt)]
  }

  /** What completion does to a table, in terms of the one row it concerns. */
  lemma CompletionEffect(attempts: seq<Attempt>, sid: string, completedAt: int)
    ensures forall i: nat :: IsLatest(attempts, sid, i) ==>
      MarkCompleted(attempts, sid, completedAt)
      == attempts[i := attempts[i].(status := Completed, completedAt := Some(completedAt))]
    ensures Outstanding(attempts, sid) == {} ==> MarkCompleted(attempts, sid, completedAt) == attempts
    ensures Outstanding(attempts, sid) != {} ==> exists i: nat :: IsLatest(attempts, sid, i)
  {
    var latest := Latest(attempts, sid);
    if latest.Some? {
      assert latest.value in Outstanding(attempts, sid);
      assert IsLatest(attempts, sid, latest.value);
    }
  }

  function Ensured(s: State, sid: string, now: int): State {
    if sid in s.sessions then s else s.(sessions := s.sessions[sid := Session(now, None, "", 0)])
  }

  function Ended(s: State, sid: string, now: int): State {
    if sid in s.sessions then s.(sessions := s.sessions[sid := s.sessions[sid].(endedAt := Some(now))]) else s
  }

  /** Some memory of the session dates from after its start. */
  predicate HasMemory(memories: seq<SavedMemory>, sid: string, startedAt: int) {
    exists i :: 0 <= i < |memories| && memories[i].session == sid && memories[i].createdAt >= startedAt
  }

  /** The session was compacted: a summary or a memory of it is stored. */
  predicate Compacted(s: State, sid: string) {
    sid in s.sessions &&
    (s.sessions[sid].summary != "" || HasMemory(s.memories, sid, s.sessions[sid].startedAt))
  }

  predicate NeedsCompaction(s: State, sid: string, minObservations: int) {
    sid in s.sessions && s.sessions[sid].nObs >= minObservations && !Compacted(s, sid)
  }

  /** The stop hook's answer in terms of the state it finds. */
  ghost predicate Prompts(cfg: Options, s: State, sid: string, active: bool, now: int) {
    && active && Enabled(cfg)
    && NeedsCompaction(Ensured(s, sid, now), sid, cfg.minObservations)
    && |Fresh(s.attempts, sid, now - Window(cfg))| < cfg.maxBlockAttempts
  }

  /** The attempts table after a stop hook. */
  ghost function AttemptsAfterStop(cfg: Options, s: State, sid: string, active: bool, now: int): seq<Attempt> {
    if !active || !Enabled(cfg) || !NeedsCompaction(Ensured(s, sid, now), sid, cfg.minObservations) then s.attempts
    else
      Expire(s.attempts, sid, now - Window(cfg)) +
      [if Prompts(cfg, s, sid, active, now) then Attempt(sid, Requested, "", now, None)
       else Attempt(sid, Skipped, "max attempts", now, None)]
  }

  ghost function AfterStop(cfg: Options, s: State, sid: string, active: bool, now: int): State {
    Ended(Ensured(s, sid, now), sid, now).(attempts := AttemptsAfterStop(cfg, s, sid, active, now))
  }

  // ---------------------------------------------------------------- completion

  predicate IsSpace(c: char) {
    || '\t' <= c <= '\r' || c == ' ' || c == '\U{85}' || c == '\U{A0}' || c == '\U{1680}'
    || '\U{2000}' <= c <= '\U{200A}' || c == '\U{2028}' || c == '\U{2029}' || c == '\U{202F}'
    || c == '\U{205F}' || c == '\U{3000}'
  }

  predicate Blank(text: string) {
    forall i :: 0 <= i < |text| ==> IsSpace(text[i])
  }

  /** Length of the UTF-8 encoding. */
  function Utf8Size(text: string): nat {
    if text == "" then 0 else
      var c := text[|text| - 1];
      Utf8Size(text[..|text| - 1])
      + if c < '\U{80}' then 1 else if c < '\U{800}' then 2 else if c < '\U{10000}' then 3 else 4
  }

  /** `agent:external_id` with both parts non-empty. */
  predicate NormalizedId(id: string) {
    exists i :: 0 < i < |id| - 1 && id[i] == ':' && ':' !in id[..i]
  }

  predicate SummaryAccepted(sid: string, summary: string) {
    sid != "" && !Blank(summary) && Utf8Size(summary) <= 800
  }

  function AfterSummary(s: State, sid: string, summary: string, now: int): State {
    if !SummaryAccepted(sid, summary) then s else
      var ended := (old': Session) => if old'.endedAt.None? then Some(now) else old'.endedAt;
      var sessions := if sid in s.sessions
        then s.sessions[sid := s.sessions[sid].(summary := summary, endedAt := ended(s.sessions[sid]))]
        else s.sessions;
      State(sessions, MarkCompleted(s.attempts, sid, now), s.memories)
  }

  predicate MemoryAccepted(sid: string, text: string, importance: real) {
    !Blank(text) && 0.0 <= importance <= 1.0 && (sid == "" || NormalizedId(sid))
  }

  /** Saving a memory reads the clock three times: for the session, the row, the completion. */
  function AfterMemory(s: State, sid: string, text: string, importance: real, ensuredAt: int, createdAt: int,
      completedAt: int): State {
    if !MemoryAccepted(sid, text, importance) then s
    else if sid == "" then s.(memories := s.memories + [SavedMemory("", createdAt)])
    else
      var t := Ensured(s, sid, ensuredAt);
      State(t.sessions, MarkCompleted(t.attempts, sid, completedAt), t.memories + [SavedMemory(sid, createdAt)])
  }

  function AfterObservation(s: State, sid: string, ts: int): State {
    var t := Ensured(s, sid, ts);
    t.(sessions := t.sessions[sid := t.sessions[sid].(nObs := t.sessions[sid].nObs + 1)])
  }

  /** One memory row disappears (forget or decay). */
  function AfterForget(s: State, i: nat): State {
    if i < |s.memories| then s.(memories := s.memories[..i] + s.memories[i + 1..]) else s
  }

  // ---------------------------------------------------------------- the service

  class Gate {
    var sessions: map<string, Session>
    var attempts: seq<Attempt>
    var memories: seq<SavedMemory>

    ghost function Model(): State
      reads this
    {
      State(sessions, attempts, memories)
    }

    constructor ()
      ensures Model() == State(map[], [], [])
    {
      sessions, attempts, memories := map[], [], [];
    }

    method EnsureSession(sid: string, now: int)
      modifies this`sessions
      ensures Model() == Ensured(old(Model()), sid, now)
    {
      if sid !in sessions {
        sessions := sessions[sid := Session(now, None, "", 0)];
      }
    }

    method EndSession(sid: string, now: int)
      modifies this`sessions
      ensures Model() == Ended(old(Model()), sid, now)
    {
      if sid in sessions {
        sessions := sessions[sid := sessions[sid].(endedAt := Some(now))];
      }
    }

    method SessionNeedsCompaction(sid: string, minObservations: int) returns (needs: bool)
      requires sid in sessions
      ensures needs == NeedsCompaction(Model(), sid, minObservations)
    {
      var session := sessions[sid];
      if session.nObs < minObservations || session.summary != "" {
        return false;
      }
      var memoryCount := 0;
      for i := 0 to |memories|
        invariant memoryCount == 0 <==> !HasMemory(memories[..i], sid, session.startedAt)
        invariant memoryCount >= 0
      {
        HasMemorySnoc(memories, i, sid, session.startedAt);
        if memories[i].session == sid && memories[i].createdAt >= session.startedAt {
          memoryCount := memoryCount + 1;
        }
      }
      assert memories[..|memories|] == memories;
      return memoryCount == 0;
    }

    method InsertAttempt(sid: string, status: Status, reason: string, now: int)
      requires sid in sessions
      modifies this`attempts
      ensures attempts == old(attempts) + [Attempt(sid, status, reason, now, None)]
    {
      attempts := attempts + [Attempt(sid, status, reason, now, None)];
    }

    method FreshRequested(sid: string, since: int) returns (count: nat)
      ensures count == |Fresh(attempts, sid, since)|
    {
      count := 0;
      for i := 0 to |attempts|
        invariant count == FreshCount(attempts[..i], sid, since)
      {
        assert attempts[..i + 1][..i] == attempts[..i];
        if IsRequested(attempts[i], sid) && attempts[i].attemptedAt >= since {
          count := count + 1;
        }
      }
      assert attempts[..|attempts|] == attempts;
      FreshCountIsSize(attempts, sid, since);
    }

    /** Expire, count and insert are three statements; here one request runs whole. */
    method RequestCompaction(sid: string, stopHookActive: bool, cfg: Options, now: int) returns (prompt: bool)
      requires sid in sessions && cfg == Normalize(cfg)
      modifies this
      ensures Model() == AfterStop(cfg, old(Model()), sid, !stopHookActive, now)
      ensures prompt == Prompts(cfg, old(Model()), sid, !stopHookActive, now)
    {
      EndSession(sid, now);
      if stopHookActive || cfg.mode == "disabled" || cfg.mode == "manual" {
        return false;
      }
      var needs := SessionNeedsCompaction(sid, cfg.minObservations);
      if !needs {
        return false;
      }
      var cutoff := now - cfg.attemptTTLSeconds * 1000;
      ExpireKeepsFresh(attempts, sid, cutoff);
      attempts := Expire(attempts, sid, cutoff);
      var outstanding := FreshRequested(sid, cutoff);
      if outstanding >= cfg.maxBlockAttempts {
        InsertAttempt(sid, Skipped, "max attempts", now);
        return false;
      }
      InsertAttempt(sid, Requested, "", now);
      return true;
    }

    /** The stop hook: make sure the session exists, then ask the gate. */
    method Stop(sid: string, stopHookActive: bool, cfg: Options, now: int) returns (block: bool)
      requires cfg == Normalize(cfg)
      modifies this
      ensures Model() == AfterStop(cfg, old(Model()), sid, !stopHookActive, now)
      ensures block == Prompts(cfg, old(Model()), sid, !stopHookActive, now)
    {
      EnsureSession(sid, now);
      block := RequestCompaction(sid, stopHookActive, cfg, now);
    }

    /** The subquery looks for the session's newest outstanding attempt; its row is completed and
        every other row stays. Nothing changes iff no attempt is outstanding. */
    method MarkCompactionCompleted(sid: string, completedAt: int)
      modifies this`attempts
      ensures forall i: nat :: IsLatest(old(attempts), sid, i) ==>
        attempts == old(attempts)[i := old(attempts)[i].(status := Completed, completedAt := Some(completedAt))]
      ensures attempts == old(attempts) <==> Outstanding(old(attempts), sid) == {}
    {
      var latest: Option<nat> := None;
      for i := 0 to |attempts|
        invariant latest.None? ==> forall j :: 0 <= j < i ==> !IsRequested(attempts[j], sid)
        invariant latest.Some? ==> IsLatest(attempts[..i], sid, latest.value)
      {
        if IsRequested(attempts[i], sid)
           && (latest.None? || attempts[i].attemptedAt >= attempts[latest.value].attemptedAt) {
          latest := Some(i);
        }
      }
      assert attempts[..|attempts|] == attempts;
      if latest.Some? {
        assert latest.value in Outstanding(attempts, sid);
        attempts := attempts[latest.value := Completion(attempts[latest.value], completedAt)];
      }
    }

    method MemorySessionSummarySave(sid: string, summary: string, now: int) returns (updated: bool)
      modifies this
      ensures updated == SummaryAccepted(sid, summary)
      ensures Model() == AfterSummary(old(Model()), sid, summary, now)
    {
      if sid == "" || Blank(summary) {
        return false;
      }
      if Utf8Size(summary) > 800 {
        return false;
      }
      if sid in sessions {
        var session := sessions[sid];
        var endedAt := if session.endedAt.None? then Some(now) else session.endedAt;
        sessions := sessions[sid := session.(summary := summary, endedAt := endedAt)];
      }
      MarkCompactionCompleted(sid, now);
      return true;
    }

    method MemorySave(sid: string, text: string, importance: real, ensuredAt: int, createdAt: int, completedAt: int)
      returns (saved: bool)
      modifies this
      ensures saved == MemoryAccepted(sid, text, importance)
      ensures Model() == AfterMemory(old(Model()), sid, text, importance, ensuredAt, createdAt, completedAt)
    {
      if Blank(text) || importance < 0.0 || importance > 1.0 {
        return false;
      }
      if sid != "" {
        if !NormalizedId(sid) {
          return false;
        }
        EnsureSession(sid, ensuredAt);
      }
      memories := memories + [SavedMemory(sid, createdAt)];
      if sid != "" {
        MarkCompactionCompleted(sid, completedAt);
      }
      return true;
    }
  }

  lemma HasMemorySnoc(memories: seq<SavedMemory>, i: nat, sid: string, startedAt: int)
    requires i < |memories|
    ensures HasMemory(memories[..i + 1], sid, startedAt)
      <==> || HasMemory(memories[..i], sid, startedAt)
           || (memories[i].session == sid && memories[i].createdAt >= startedAt)
  {
    var shorter, longer := memories[..i], memories[..i + 1];
    assert forall j :: 0 <= j < i ==> shorter[j] == longer[j];
    assert longer[i] == memories[i];
  }

  /** Expiring never touches an attempt at or after the cutoff. */
  lemma ExpireKeepsFresh(attempts: seq<Attempt>, sid: string, cutoff: int)
    ensures Fresh(Expire(attempts, sid, cutoff), sid, cutoff) == Fresh(attempts, sid, cutoff)
  {
    assert forall i :: 0 <= i < |attempts| ==> Expire(attempts, sid, cutoff)[i] == ExpireRow(attempts[i], sid, cutoff);
  }
}
