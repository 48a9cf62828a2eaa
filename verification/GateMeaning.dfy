/** What the stop hook decides, in terms of the events before it and the columns it finds: which
    sessions are prompted, which are not, and what a request leaves behind
    (internal/server/server.go:300-343, internal/store/compaction.go:26-83). */
module GateMeaning {
  import opened CompactionGate
  import opened CompactionRuns
  import opened Outcomes
  import Sets

  const NOTHING := State(map[], [], [])

  // ---------------------------------------------------------------- one request

  /** The columns that make a session due: enough observations, no summary, and no memory of it
      that dates from its start. */
  ghost predicate IsDue(s: State, sid: string, minObservations: int) {
    && sid in s.sessions && s.sessions[sid].nObs >= minObservations && s.sessions[sid].summary == ""
    && forall i :: 0 <= i < |s.memories| && s.memories[i].session == sid ==>
         s.memories[i].createdAt < s.sessions[sid].startedAt
  }

  /** The request gets as far as the attempts table. */
  ghost predicate Considered(cfg: Options, s: State, sid: string, active: bool) {
    active && cfg.mode !in {"disabled", "manual"} && IsDue(s, sid, cfg.minObservations)
  }

  /** Attempts of the session that wait for an answer, made in the last `attemptTTLSeconds`. */
  ghost function Waiting(cfg: Options, s: State, sid: string, now: int): set<nat> {
    set i | && 0 <= i < |s.attempts| && s.attempts[i].session == sid && s.attempts[i].status == Requested
            && s.attempts[i].attemptedAt >= now - cfg.attemptTTLSeconds * 1000
  }

  /** When a stop hook is answered with a prompt; an unknown session is created by the hook and
      has no observations yet. */
  lemma PromptsIff(cfg: Options, s: State, sid: string, active: bool, now: int)
    requires cfg == Normalize(cfg)
    ensures Prompts(cfg, s, sid, active, now)
      <==> Considered(cfg, s, sid, active) && |Waiting(cfg, s, sid, now)| < cfg.maxBlockAttempts
  {
    assert Fresh(s.attempts, sid, now - cfg.attemptTTLSeconds * 1000) == Waiting(cfg, s, sid, now);
  }

  /** What a stop hook leaves: the session ended now, stale attempts of it expired, one new row
      that says whether the agent was prompted, and everything else as it was. */
  lemma StopLeaves(cfg: Options, s: State, sid: string, active: bool, now: int)
    requires cfg == Normalize(cfg)
    ensures var t, considered := AfterStop(cfg, s, sid, active, now), Considered(cfg, s, sid, active);
      && t.memories == s.memories
      && t.sessions == s.sessions[sid := if sid in s.sessions then s.sessions[sid].(endedAt := Some(now))
                                         else Session(now, Some(now), "", 0)]
      && |t.attempts| == |s.attempts| + (if considered then 1 else 0)
      && (forall i :: 0 <= i < |s.attempts| ==>
           var row := s.attempts[i];
           t.attempts[i]
           == if considered && row.session == sid && row.status == Requested
                 && row.attemptedAt < now - cfg.attemptTTLSeconds * 1000
              then Attempt(sid, Failed, "ttl expired", row.attemptedAt, row.completedAt) else row)
      && (considered ==>
            t.attempts[|s.attempts|]
            == if Prompts(cfg, s, sid, active, now) then Attempt(sid, Requested, "", now, None)
               else Attempt(sid, Skipped, "max attempts", now, None))
  {
    hide Fresh;
    var expired := Expire(s.attempts, sid, now - cfg.attemptTTLSeconds * 1000);
    assert forall i :: 0 <= i < |s.attempts| ==>
      expired[i] == ExpireRow(s.attempts[i], sid, now - cfg.attemptTTLSeconds * 1000);
  }

  // ---------------------------------------------------------------- whole runs

  /** The observations of the session among the first `k` events. */
  ghost function Observations(events: seq<Event>, sid: string, k: nat): set<nat>
    requires k <= |events|
  {
    set j | 0 <= j < k && events[j].Observe? && events[j].session == sid
  }

  function Counted(s: State, sid: string): nat {
    if sid in s.sessions then s.sessions[sid].nObs else 0
  }

  lemma StepCounts(cfg: Options, s: State, e: Event, sid: string)
    ensures Counted(Step(cfg, s, e), sid) == Counted(s, sid) + if e.Observe? && e.session == sid then 1 else 0
  {
  }

  lemma {:induction false} RunCounts(cfg: Options, events: seq<Event>, k: nat, sid: string)
    requires k <= |events|
    ensures Counted(StateAt(cfg, NOTHING, events, k), sid) == |Observations(events, sid, k)|
    decreases k
  {
    hide *;
    if k == 0 {
      NoneCounted(cfg, events, sid);
    } else {
      RunCounts(cfg, events, k - 1, sid);
      NextState(cfg, NOTHING, events, k - 1);
      StepCounts(cfg, StateAt(cfg, NOTHING, events, k - 1), events[k - 1], sid);
      NextObservation(events, k - 1, sid);
    }
  }

  lemma NoneCounted(cfg: Options, events: seq<Event>, sid: string)
    ensures Counted(StateAt(cfg, NOTHING, events, 0), sid) == |Observations(events, sid, 0)|
  {
    assert Observations(events, sid, 0) == {};
  }

  lemma NextObservation(events: seq<Event>, k: nat, sid: string)
    requires k < |events|
    ensures |Observations(events, sid, k + 1)|
      == |Observations(events, sid, k)| + if events[k].Observe? && events[k].session == sid then 1 else 0
  {
    assert Observations(events, sid, k + 1) == Observations(events, sid, k)
      + if events[k].Observe? && events[k].session == sid then {k} else {};
  }

  /** Nobody is asked about a session that was not observed often enough before. */
  lemma PromptsAreEarned(cfg: Options, events: seq<Event>, k: nat, sid: string)
    requires cfg == Normalize(cfg) && k < |events| && PromptAt(cfg, NOTHING, events, k, sid)
    ensures |Observations(events, sid, k)| >= cfg.minObservations
    ensures events[k].active && cfg.mode !in {"disabled", "manual"}
  {
    hide StateAt, Observations;
    RunCounts(cfg, events, k, sid);
    PromptsIff(cfg, StateAt(cfg, NOTHING, events, k), sid, events[k].active, events[k].now);
  }

  /** A save that names the session. */
  predicate Saves(e: Event, sid: string) {
    (e.SaveSummary? || e.SaveMemory?) && e.session == sid
  }

  /** No summary and no memory of the session is stored. */
  ghost predicate Unsaved(s: State, sid: string) {
    && (sid in s.sessions ==> s.sessions[sid].summary == "")
    && forall i :: 0 <= i < |s.memories| ==> s.memories[i].session != sid
  }

  lemma StepUnsaved(cfg: Options, s: State, e: Event, sid: string)
    requires Unsaved(s, sid) && !Saves(e, sid)
    ensures Unsaved(Step(cfg, s, e), sid)
  {
  }

  lemma {:induction false} RunUnsaved(cfg: Options, events: seq<Event>, k: nat, sid: string)
    requires k <= |events| && forall j :: 0 <= j < k ==> !Saves(events[j], sid)
    ensures Unsaved(StateAt(cfg, NOTHING, events, k), sid)
    decreases k
  {
    if k > 0 {
      hide Step, Unsaved, Saves;
      RunUnsaved(cfg, events, k - 1, sid);
      StepUnsaved(cfg, StateAt(cfg, NOTHING, events, k - 1), events[k - 1], sid);
    }
  }

  /** Earlier prompts of the session at clock readings from `since` on. */
  ghost function PromptsSince(cfg: Options, events: seq<Event>, sid: string, since: int, k: nat): set<nat>
    requires k <= |events|
  {
    set j | 0 <= j < k && PromptAt(cfg, NOTHING, events, j, sid) && events[j].now >= since
  }

  lemma ExpireLoses(attempts: seq<Attempt>, other: string, before: int, sid: string, since: int)
    ensures |Fresh(Expire(attempts, other, before), sid, since)| <= |Fresh(attempts, sid, since)|
  {
    assert forall i :: 0 <= i < |attempts| ==>
      Expire(attempts, other, before)[i] == ExpireRow(attempts[i], other, before);
    Sets.SubsetSize(Fresh(Expire(attempts, other, before), sid, since), Fresh(attempts, sid, since));
  }

  lemma CompleteLoses(attempts: seq<Attempt>, other: string, at: int, sid: string, since: int)
    ensures |Fresh(MarkCompleted(attempts, other, at), sid, since)| <= |Fresh(attempts, sid, since)|
  {
    Sets.SubsetSize(Fresh(MarkCompleted(attempts, other, at), sid, since), Fresh(attempts, sid, since));
  }

  lemma AppendFresh(attempts: seq<Attempt>, a: Attempt, sid: string, since: int)
    ensures |Fresh(attempts + [a], sid, since)| == |Fresh(attempts, sid, since)|
      + if IsRequested(a, sid) && a.attemptedAt >= since then 1 else 0
  {
    hide IsRequested;
    assert Fresh(attempts + [a], sid, since) == Fresh(attempts, sid, since)
      + if IsRequested(a, sid) && a.attemptedAt >= since then {|attempts|} else {};
  }

  lemma StopFresh(cfg: Options, s: State, other: string, active: bool, now: int, sid: string, since: int)
    ensures |Fresh(AttemptsAfterStop(cfg, s, other, active, now), sid, since)| <= |Fresh(s.attempts, sid, since)|
      + if other == sid && Prompts(cfg, s, other, active, now) && now >= since then 1 else 0
  {
    hide Prompts, Fresh, Expire, NeedsCompaction;
    var expired := Expire(s.attempts, other, now - Window(cfg));
    ExpireLoses(s.attempts, other, now - Window(cfg), sid, since);
    AppendFresh(expired, Attempt(other, Requested, "", now, None), sid, since);
    AppendFresh(expired, Attempt(other, Skipped, "max attempts", now, None), sid, since);
  }

  /** Only a prompt adds an attempt that waits for an answer. */
  lemma StepFresh(cfg: Options, s: State, e: Event, sid: string, since: int)
    ensures |Fresh(Step(cfg, s, e).attempts, sid, since)| <= |Fresh(s.attempts, sid, since)|
      + if e.Stop? && e.session == sid && Prompts(cfg, s, sid, e.active, e.now) && e.now >= since then 1 else 0
  {
    hide AttemptsAfterStop, MarkCompleted, Fresh, Prompts;
    match e {
      case Observe(_, _, _) =>
      case Stop(t, active, now) => StopFresh(cfg, s, t, active, now, sid, since);
      case SaveSummary(t, _, now) => CompleteLoses(s.attempts, t, now, sid, since);
      case SaveMemory(t, _, _, _, _, now) => CompleteLoses(s.attempts, t, now, sid, since);
      case Forget(_, _) =>
    }
  }

  lemma EventFresh(cfg: Options, events: seq<Event>, k: nat, sid: string, since: int)
    requires k < |events|
    ensures |Fresh(StateAt(cfg, NOTHING, events, k + 1).attempts, sid, since)|
      <= |Fresh(StateAt(cfg, NOTHING, events, k).attempts, sid, since)|
         + if PromptAt(cfg, NOTHING, events, k, sid) && events[k].now >= since then 1 else 0
  {
    hide StateAt, Step, Fresh, Prompts;
    NextState(cfg, NOTHING, events, k);
    StepFresh(cfg, StateAt(cfg, NOTHING, events, k), events[k], sid, since);
  }

  lemma NoneFresh(cfg: Options, events: seq<Event>, sid: string, since: int)
    ensures |Fresh(StateAt(cfg, NOTHING, events, 0).attempts, sid, since)| == 0
  {
    EmptyHasNoFresh(sid, since);
  }

  lemma NextPrompt(cfg: Options, events: seq<Event>, k: nat, sid: string, since: int)
    requires k < |events|
    ensures |PromptsSince(cfg, events, sid, since, k + 1)| == |PromptsSince(cfg, events, sid, since, k)|
      + if PromptAt(cfg, NOTHING, events, k, sid) && events[k].now >= since then 1 else 0
  {
    hide PromptAt;
    assert PromptsSince(cfg, events, sid, since, k + 1) == PromptsSince(cfg, events, sid, since, k)
      + if PromptAt(cfg, NOTHING, events, k, sid) && events[k].now >= since then {k} else {};
  }

  lemma {:induction false} RunFresh(cfg: Options, events: seq<Event>, k: nat, sid: string, since: int)
    requires k <= |events|
    ensures |Fresh(StateAt(cfg, NOTHING, events, k).attempts, sid, since)|
      <= |PromptsSince(cfg, events, sid, since, k)|
    decreases k
  {
    hide *;
    if k == 0 {
      NoneFresh(cfg, events, sid, since);
    } else {
      RunFresh(cfg, events, k - 1, sid, since);
      EventFresh(cfg, events, k - 1, sid, since);
      NextPrompt(cfg, events, k - 1, sid, since);
    }
  }

  /** Whoever was observed often enough, saved nothing and was not just asked is asked: the hook
      is active, the mode allows it, and fewer than `maxBlockAttempts` prompts fall into the last
      `attemptTTLSeconds`. */
  lemma DueIsPrompted(cfg: Options, events: seq<Event>, k: nat, sid: string)
    requires cfg == Normalize(cfg) && k < |events| && events[k].Stop? && events[k].session == sid
    requires events[k].active && cfg.mode !in {"disabled", "manual"}
    requires |Observations(events, sid, k)| >= cfg.minObservations
    requires forall j :: 0 <= j < k ==> !Saves(events[j], sid)
    requires |PromptsSince(cfg, events, sid, events[k].now - cfg.attemptTTLSeconds * 1000, k)| < cfg.maxBlockAttempts
    ensures PromptAt(cfg, NOTHING, events, k, sid)
  {
    hide StateAt, Observations, PromptsSince;
    var s, now := StateAt(cfg, NOTHING, events, k), events[k].now;
    RunCounts(cfg, events, k, sid);
    RunUnsaved(cfg, events, k, sid);
    RunFresh(cfg, events, k, sid, now - cfg.attemptTTLSeconds * 1000);
    assert Fresh(s.attempts, sid, now - cfg.attemptTTLSeconds * 1000) == Waiting(cfg, s, sid, now);
    PromptsIff(cfg, s, sid, true, now);
  }

  // ---------------------------------------------------------------- what a save must look like

  /** A session id is an agent and an external id around its first colon, neither empty. */
  lemma NormalizedIdIff(id: string)
    ensures NormalizedId(id)
      <==> exists agent: string, external: string ::
             agent != "" && external != "" && ':' !in agent && id == agent + ":" + external
  {
    if NormalizedId(id) {
      var i :| 0 < i < |id| - 1 && id[i] == ':' && ':' !in id[..i];
      assert id == id[..i] + ":" + id[i + 1..];
    }
    if agent: string, external: string
      :| agent != "" && external != "" && ':' !in agent && id == agent + ":" + external
    {
      assert id[..|agent|] == agent && id[|agent|] == ':';
    }
  }

  /** Every character takes `width` bytes. */
  predicate OfWidth(text: string, width: nat) {
    forall i :: 0 <= i < |text| ==> Takes(text[i], width)
  }

  /** The four ranges of UTF-8. */
  predicate Takes(c: char, width: nat) {
    || (width == 1 && c < '\U{80}')
    || (width == 2 && '\U{80}' <= c < '\U{800}')
    || (width == 3 && '\U{800}' <= c < '\U{10000}')
    || (width == 4 && '\U{10000}' <= c)
  }

  lemma {:induction false} SizeOfWidth(text: string, width: nat)
    requires OfWidth(text, width)
    ensures Utf8Size(text) == width * |text|
  {
    if text != "" {
      var rest := text[..|text| - 1];
      assert forall i :: 0 <= i < |rest| ==> rest[i] == text[i];
      SizeOfWidth(rest, width);
    }
  }

  /** A summary is stored iff a session is named and the text is not blank and takes at most 800
      bytes: 800 characters of one byte each, 400 of two, 266 of three, 200 of four. */
  lemma SummaryLimit(sid: string, summary: string, width: nat)
    requires OfWidth(summary, width)
    ensures SummaryAccepted(sid, summary)
      <==> sid != "" && width * |summary| <= 800 && exists i :: 0 <= i < |summary| && !IsSpace(summary[i])
  {
    SizeOfWidth(summary, width);
  }

  /** The newest outstanding attempt of the session is answered, if there is one; of equally new
      ones the last. No other row changes. */
  ghost predicate Answers(before: seq<Attempt>, after: seq<Attempt>, sid: string, now: int) {
    && (forall i: nat :: IsLatest(before, sid, i) ==>
         after == before[i := before[i].(status := Completed, completedAt := Some(now))])
    && (after == before || exists i: nat :: IsLatest(before, sid, i))
  }

  lemma CompletionAnswers(attempts: seq<Attempt>, sid: string, now: int)
    ensures Answers(attempts, MarkCompleted(attempts, sid, now), sid, now)
  {
    CompletionEffect(attempts, sid, now);
  }

  /** An accepted summary is stored in the session's row, ends the session unless it had ended, and
      answers its newest attempt; a refused one changes nothing. */
  lemma SummaryStores(s: State, sid: string, summary: string, now: int)
    ensures var t := AfterSummary(s, sid, summary, now);
      if !SummaryAccepted(sid, summary) then t == s else
        && t.memories == s.memories && Answers(s.attempts, t.attempts, sid, now)
        && t.sessions.Keys == s.sessions.Keys
        && forall id :: id in s.sessions ==>
             var row := s.sessions[id];
             t.sessions[id] == if id != sid then row
                               else Session(row.startedAt, if row.endedAt == None then Some(now) else row.endedAt,
                                            summary, row.nObs)
  {
    CompletionAnswers(s.attempts, sid, now);
    hide MarkCompleted, Answers;
  }

  /** A memory is stored iff its text is not blank, its importance lies in [0, 1], and it names no
      session or one by a proper id; it creates the session it names and answers its newest
      attempt, and a refused one changes nothing. */
  lemma MemoryStores(s: State, sid: string, text: string, importance: real, ensuredAt: int, createdAt: int,
      completedAt: int)
    ensures var t := AfterMemory(s, sid, text, importance, ensuredAt, createdAt, completedAt);
      if !(&& (exists i :: 0 <= i < |text| && !IsSpace(text[i])) && importance >= 0.0 && importance <= 1.0
           && (sid == "" || NormalizedId(sid)))
      then t == s && !MemoryAccepted(sid, text, importance) else
        && MemoryAccepted(sid, text, importance)
        && t.memories == s.memories + [SavedMemory(sid, createdAt)]
        && t.sessions == (if sid == "" || sid in s.sessions then s.sessions
                          else s.sessions[sid := Session(ensuredAt, None, "", 0)])
        && if sid == "" then t.attempts == s.attempts else Answers(s.attempts, t.attempts, sid, completedAt)
  {
    CompletionAnswers(s.attempts, sid, completedAt);
    hide MarkCompleted, Answers, NormalizedId, IsSpace;
  }

  /** Of the characters of one byte, space, tab, line feed, vertical tab, form feed and carriage
      return are blank. */
  lemma AsciiSpaces(c: char)
    requires c < '\U{80}'
    ensures IsSpace(c) <==> c in {' ', '\t', '\n', '\U{B}', '\U{C}', '\r'}
  {
  }
}
