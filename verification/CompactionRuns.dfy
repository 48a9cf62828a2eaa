/** Whole runs of the compaction gate, each request run whole: how often an agent can be
    blocked, and when it may be blocked again. */
module CompactionRuns {
  import opened CompactionGate
  import opened Outcomes
  import opened Sets

  datatype Event =
    | Observe(session: string, startedAt: int, now: int)
    | Stop(session: string, active: bool, now: int)
    | SaveSummary(session: string, summary: string, now: int)
    | SaveMemory(session: string, text: string, importance: real, ensuredAt: int, createdAt: int, now: int)
    | Forget(row: nat, now: int)

  ghost function Step(cfg: Options, s: State, e: Event): State {
    match e
    case Observe(sid, startedAt, _) => AfterObservation(s, sid, startedAt)
    case Stop(sid, active, now) => AfterStop(cfg, s, sid, active, now)
    case SaveSummary(sid, summary, now) => AfterSummary(s, sid, summary, now)
    case SaveMemory(sid, text, importance, ensuredAt, createdAt, now) =>
      AfterMemory(s, sid, text, importance, ensuredAt, createdAt, now)
    case Forget(row, _) => AfterForget(s, row)
  }

  /** The state after the first `k` events. */
  ghost function StateAt(cfg: Options, s: State, events: seq<Event>, k: nat): State
    requires k <= |events|
    decreases k
  {
    if k == 0 then s else Step(cfg, StateAt(cfg, s, events, k - 1), events[k - 1])
  }

  lemma NextState(cfg: Options, s: State, events: seq<Event>, k: nat)
    requires k < |events|
    ensures StateAt(cfg, s, events, k + 1) == Step(cfg, StateAt(cfg, s, events, k), events[k])
  {
  }

  /** Event `k` answers a stop hook of the session with a compaction prompt. */
  ghost predicate PromptAt(cfg: Options, s: State, events: seq<Event>, k: nat, sid: string)
    requires k < |events|
  {
    && events[k].Stop? && events[k].session == sid
    && Prompts(cfg, StateAt(cfg, s, events, k), sid, events[k].active, events[k].now)
  }

  // ---------------------------------------------------------------- clock-free safety

  /** No session has more outstanding attempts than the gate allows. */
  ghost predicate Bounded(cfg: Options, s: State) {
    forall sid :: |Outstanding(s.attempts, sid)| <= cfg.maxBlockAttempts
  }

  /** Expire and count share one cutoff, so the count sees every outstanding attempt. */
  lemma ExpiredLeavesOnlyFresh(attempts: seq<Attempt>, sid: string, cutoff: int)
    ensures Outstanding(Expire(attempts, sid, cutoff), sid) == Fresh(attempts, sid, cutoff)
  {
    assert forall i :: 0 <= i < |attempts| ==> Expire(attempts, sid, cutoff)[i] == ExpireRow(attempts[i], sid, cutoff);
  }

  lemma OutstandingSnoc(attempts: seq<Attempt>, a: Attempt, sid: string)
    ensures |Outstanding(attempts + [a], sid)| == |Outstanding(attempts, sid)| + if IsRequested(a, sid) then 1 else 0
  {
    assert Outstanding(attempts + [a], sid)
      == Outstanding(attempts, sid) + if IsRequested(a, sid) then {|attempts|} else {};
  }

  lemma ExpireShrinks(attempts: seq<Attempt>, sid: string, cutoff: int, other: string)
    ensures |Outstanding(Expire(attempts, sid, cutoff), other)| <= |Outstanding(attempts, other)|
  {
    assert forall i :: 0 <= i < |attempts| ==> Expire(attempts, sid, cutoff)[i] == ExpireRow(attempts[i], sid, cutoff);
    SubsetSize(Outstanding(Expire(attempts, sid, cutoff), other), Outstanding(attempts, other));
  }

  lemma CompleteShrinks(attempts: seq<Attempt>, sid: string, at: int, other: string)
    ensures |Outstanding(MarkCompleted(attempts, sid, at), other)| <= |Outstanding(attempts, other)|
  {
    SubsetSize(Outstanding(MarkCompleted(attempts, sid, at), other), Outstanding(attempts, other));
  }

  lemma StopKeepsBound(cfg: Options, s: State, sid: string, active: bool, now: int, other: string)
    requires cfg == Normalize(cfg) && |Outstanding(s.attempts, other)| <= cfg.maxBlockAttempts
    ensures |Outstanding(AttemptsAfterStop(cfg, s, sid, active, now), other)| <= cfg.maxBlockAttempts
  {
    hide Prompts, Outstanding, Fresh, Expire;
    var cutoff := now - cfg.attemptTTLSeconds * 1000;
    var expired := Expire(s.attempts, sid, cutoff);
    var prompt := Prompts(cfg, s, sid, active, now);
    var a := if prompt then Attempt(sid, Requested, "", now, None)
             else Attempt(sid, Skipped, "max attempts", now, None);
    OutstandingSnoc(expired, a, other);
    ExpireShrinks(s.attempts, sid, cutoff, other);
    ExpiredLeavesOnlyFresh(s.attempts, sid, cutoff);
    PromptMeansRoom(cfg, s, sid, active, now);
  }

  lemma PromptMeansRoom(cfg: Options, s: State, sid: string, active: bool, now: int)
    ensures Prompts(cfg, s, sid, active, now) ==>
      |Fresh(s.attempts, sid, now - cfg.attemptTTLSeconds * 1000)| < cfg.maxBlockAttempts
  {
  }

  lemma StepKeepsBound(cfg: Options, s: State, e: Event)
    requires cfg == Normalize(cfg) && Bounded(cfg, s)
    ensures Bounded(cfg, Step(cfg, s, e))
  {
    forall sid ensures |Outstanding(Step(cfg, s, e).attempts, sid)| <= cfg.maxBlockAttempts {
      hide AttemptsAfterStop, MarkCompleted, Outstanding;
      assert |Outstanding(s.attempts, sid)| <= cfg.maxBlockAttempts;
      match e {
        case Observe(_, _, _) =>
        case Stop(t, active, now) => StopKeepsBound(cfg, s, t, active, now, sid);
        case SaveSummary(t, _, now) => CompleteShrinks(s.attempts, t, now, sid);
        case SaveMemory(t, _, _, ensuredAt, _, now) => CompleteShrinks(s.attempts, t, now, sid);
        case Forget(_, _) =>
      }
    }
  }

  /** Whatever the clock does, a session never has more than `maxBlockAttempts` attempts in
      status requested. */
  lemma {:induction false} RequestedBounded(cfg: Options, events: seq<Event>, k: nat)
    requires cfg == Normalize(cfg) && k <= |events|
    ensures Bounded(cfg, StateAt(cfg, State(map[], [], []), events, k))
    decreases k
  {
    if k == 0 {
      assert forall sid :: Outstanding([], sid) == {};
    } else {
      hide Step, Bounded;
      RequestedBounded(cfg, events, k - 1);
      StepKeepsBound(cfg, StateAt(cfg, State(map[], [], []), events, k - 1), events[k - 1]);
    }
  }

  /** Retry: if compaction is still needed and every outstanding attempt is older than the
      cutoff, the next active request prompts. */
  lemma StaleAttemptsAllowRetry(cfg: Options, s: State, sid: string, now: int)
    requires cfg == Normalize(cfg) && cfg.mode !in {"disabled", "manual"}
    requires sid in s.sessions && s.sessions[sid].nObs >= cfg.minObservations && s.sessions[sid].summary == ""
    requires forall i :: 0 <= i < |s.memories| && s.memories[i].session == sid ==>
      s.memories[i].createdAt < s.sessions[sid].startedAt
    requires forall i :: i in Outstanding(s.attempts, sid) ==>
      s.attempts[i].attemptedAt < now - cfg.attemptTTLSeconds * 1000
    ensures Prompts(cfg, s, sid, true, now)
  {
    assert Fresh(s.attempts, sid, now - cfg.attemptTTLSeconds * 1000) <= Outstanding(s.attempts, sid);
    assert Fresh(s.attempts, sid, now - cfg.attemptTTLSeconds * 1000) == {};
  }

  ghost predicate Summarised(s: State, sid: string) {
    sid in s.sessions && s.sessions[sid].summary != ""
  }

  lemma StepKeepsSummary(cfg: Options, s: State, e: Event, sid: string)
    requires Summarised(s, sid)
    ensures Summarised(Step(cfg, s, e), sid)
  {
  }

  /** A saved summary closes the gate for good: no later request on the session prompts. */
  lemma {:induction false} SummaryClosesGate(cfg: Options, s: State, events: seq<Event>, k: nat, sid: string)
    requires Summarised(s, sid) && k <= |events|
    ensures Summarised(StateAt(cfg, s, events, k), sid)
    ensures k < |events| ==> !PromptAt(cfg, s, events, k, sid)
    decreases k
  {
    if k > 0 {
      hide Step;
      SummaryClosesGate(cfg, s, events, k - 1, sid);
      StepKeepsSummary(cfg, StateAt(cfg, s, events, k - 1), events[k - 1], sid);
    }
  }

  /** The save that closes it: an accepted summary, if the session exists; for an unknown id the
      save is accepted and nothing is stored. */
  lemma AcceptedSummaryCloses(s: State, sid: string, summary: string, now: int)
    ensures Summarised(AfterSummary(s, sid, summary, now), sid)
      <==> (sid in s.sessions && SummaryAccepted(sid, summary)) || Summarised(s, sid)
    ensures sid !in s.sessions ==> AfterSummary(s, sid, summary, now).sessions == s.sessions
  {
  }

  // ---------------------------------------------------------------- the time window

  /** The first and last clock readings of an event. */
  function Began(e: Event): int {
    if e.SaveMemory? then e.ensuredAt else e.now
  }

  /** The clock never runs backwards, within an event or between events, and no event
      backdates a session into the future. */
  ghost predicate ClockForward(events: seq<Event>) {
    && (forall k :: 0 <= k < |events| && events[k].SaveMemory? ==>
         events[k].ensuredAt <= events[k].createdAt <= events[k].now)
    && (forall k :: 0 <= k < |events| && events[k].Observe? ==> events[k].startedAt <= events[k].now)
    && forall j, k :: 0 <= j < k < |events| ==> events[j].now <= Began(events[k])
  }

  /** No deletion undoes the compaction of the session: none takes the last memory dated from
      its start while there is no summary. */
  ghost predicate KeepsCompaction(cfg: Options, s: State, events: seq<Event>, sid: string) {
    forall k :: 0 <= k < |events| && events[k].Forget? ==> ForgetKeeps(StateAt(cfg, s, events, k), events[k].row, sid)
  }

  predicate ForgetKeeps(s: State, row: nat, sid: string) {
    Compacted(s, sid) ==> Compacted(AfterForget(s, row), sid)
  }

  /** No session of the state starts after `now`. */
  ghost predicate StartedBy(s: State, now: int) {
    forall sid :: sid in s.sessions ==> s.sessions[sid].startedAt <= now
  }

  lemma StepStartedBy(cfg: Options, s: State, e: Event)
    requires StartedBy(s, Began(e))
    requires e.SaveMemory? ==> e.ensuredAt <= e.now
    requires e.Observe? ==> e.startedAt <= e.now
    ensures StartedBy(Step(cfg, s, e), e.now)
  {
  }

  lemma {:induction false} RunStartedBy(cfg: Options, s: State, events: seq<Event>, k: nat)
    requires ClockForward(events) && k < |events|
    requires StartedBy(s, Began(events[0]))
    ensures StartedBy(StateAt(cfg, s, events, k), Began(events[k]))
    decreases k
  {
    if k > 0 {
      hide Step, StartedBy;
      RunStartedBy(cfg, s, events, k - 1);
      NextState(cfg, s, events, k - 1);
      StepStartedBy(cfg, StateAt(cfg, s, events, k - 1), events[k - 1]);
    }
  }

  lemma HasMemoryGrows(memories: seq<SavedMemory>, m: SavedMemory, sid: string, startedAt: int)
    ensures HasMemory(memories, sid, startedAt) ==> HasMemory(memories + [m], sid, startedAt)
    ensures m.session == sid && m.createdAt >= startedAt ==> HasMemory(memories + [m], sid, startedAt)
  {
    var more := memories + [m];
    assert forall i :: 0 <= i < |memories| ==> more[i] == memories[i];
    assert more[|memories|] == m;
  }

  predicate IsEvidence(m: SavedMemory, sid: string, startedAt: int) {
    m.session == sid && m.createdAt >= startedAt
  }

  /** Deleting a memory of another session, or one of several, undoes nothing. */
  lemma HasMemoryWithout(memories: seq<SavedMemory>, row: nat, sid: string, startedAt: int)
    requires row < |memories|
    ensures HasMemory(memories[..row] + memories[row + 1..], sid, startedAt)
      <==> exists i :: 0 <= i < |memories| && i != row && IsEvidence(memories[i], sid, startedAt)
  {
    var fewer := memories[..row] + memories[row + 1..];
    if i :| 0 <= i < |memories| && i != row && IsEvidence(memories[i], sid, startedAt) {
      var j := if i < row then i else i - 1;
      assert fewer[j] == memories[i];
      assert HasMemory(fewer, sid, startedAt);
    }
    if HasMemory(fewer, sid, startedAt) {
      var j :| 0 <= j < |fewer| && fewer[j].session == sid && fewer[j].createdAt >= startedAt;
      var i := if j < row then j else j + 1;
      assert fewer[j] == memories[i];
      assert IsEvidence(memories[i], sid, startedAt);
    }
  }

  /** What the condition asks of a deletion. */
  lemma {:induction false} ForgetKeepsIff(s: State, row: nat, sid: string)
    requires row < |s.memories| && Compacted(s, sid)
    ensures ForgetKeeps(s, row, sid) <==>
      || s.sessions[sid].summary != ""
      || exists i :: 0 <= i < |s.memories| && i != row && IsEvidence(s.memories[i], sid, s.sessions[sid].startedAt)
  {
    HasMemoryWithout(s.memories, row, sid, s.sessions[sid].startedAt);
  }

  /** Once compacted, a session stays compacted until a deletion undoes it. */
  lemma StepKeepsCompacted(cfg: Options, s: State, e: Event, sid: string)
    requires Compacted(s, sid)
    requires e.Forget? ==> ForgetKeeps(s, e.row, sid)
    ensures Compacted(Step(cfg, s, e), sid)
  {
    var startedAt := s.sessions[sid].startedAt;
    match e {
      case SaveMemory(t, _, _, _, createdAt, _) =>
        HasMemoryGrows(s.memories, SavedMemory(t, createdAt), sid, startedAt);
        HasMemoryGrows(s.memories, SavedMemory("", createdAt), sid, startedAt);
      case _ =>
    }
  }

  /** The attempt at position `i` is the one made for `sid` at time `at`, and it is either
      outstanding, or completed by a save that compacted the session. */
  ghost predicate Pending(s: State, i: nat, sid: string, at: int) {
    && i < |s.attempts| && s.attempts[i].session == sid && s.attempts[i].attemptedAt == at
    && (s.attempts[i].status == Requested || Compacted(s, sid))
  }

  /** No step loses a pending attempt, as long as its cutoff is not past it. */
  lemma StepKeepsPending(cfg: Options, s: State, e: Event, i: nat, sid: string, at: int)
    requires Pending(s, i, sid, at) && sid in s.sessions
    requires e.Forget? ==> ForgetKeeps(s, e.row, sid)
    requires StartedBy(s, Began(e)) && (e.SaveMemory? ==> e.ensuredAt <= e.createdAt)
    requires e.now - cfg.attemptTTLSeconds * 1000 <= at
    ensures Pending(Step(cfg, s, e), i, sid, at)
  {
    if Compacted(s, sid) {
      StepKeepsCompacted(cfg, s, e, sid);
    }
    match e {
      case Stop(t, active, now) =>
        var cutoff := now - cfg.attemptTTLSeconds * 1000;
        assert forall j :: 0 <= j < |s.attempts| ==>
          Expire(s.attempts, t, cutoff)[j] == ExpireRow(s.attempts[j], t, cutoff);
      case SaveMemory(t, _, _, _, createdAt, _) =>
        HasMemoryGrows(s.memories, SavedMemory(t, createdAt), sid, s.sessions[sid].startedAt);
      case _ =>
    }
  }

  lemma PromptAppends(cfg: Options, s: State, sid: string, active: bool, now: int)
    requires Prompts(cfg, s, sid, active, now)
    ensures var t := AfterStop(cfg, s, sid, active, now);
      Pending(t, |s.attempts|, sid, now) && |t.attempts| == |s.attempts| + 1 && sid in t.sessions
  {
  }

  lemma AttemptsOnlyGrow(cfg: Options, s: State, e: Event)
    ensures |Step(cfg, s, e).attempts| >= |s.attempts|
  {
  }

  lemma SessionsOnlyGrow(cfg: Options, s: State, e: Event)
    ensures s.sessions.Keys <= Step(cfg, s, e).sessions.Keys
  {
  }

  /** How many attempt rows there are before event `k`: the row a prompt at `k` inserts. */
  ghost function RowOf(cfg: Options, s: State, events: seq<Event>, k: nat): nat
    requires k <= |events|
  {
    |StateAt(cfg, s, events, k).attempts|
  }

  lemma EventGrows(cfg: Options, s: State, events: seq<Event>, k: nat)
    requires k < |events|
    ensures RowOf(cfg, s, events, k) <= RowOf(cfg, s, events, k + 1)
  {
    hide StateAt, Step;
    NextState(cfg, s, events, k);
    AttemptsOnlyGrow(cfg, StateAt(cfg, s, events, k), events[k]);
  }

  lemma {:induction false} RunGrows(cfg: Options, s: State, events: seq<Event>, j: nat, k: nat)
    requires j <= k <= |events|
    ensures RowOf(cfg, s, events, j) <= RowOf(cfg, s, events, k)
    decreases k
  {
    hide RowOf;
    if j < k {
      RunGrows(cfg, s, events, j, k - 1);
      EventGrows(cfg, s, events, k - 1);
    }
  }

  /** The attempt behind a prompt is pending right after it. */
  lemma PromptPends(cfg: Options, s: State, events: seq<Event>, sid: string, j: nat)
    requires j < |events| && PromptAt(cfg, s, events, j, sid)
    ensures Pending(StateAt(cfg, s, events, j + 1), RowOf(cfg, s, events, j), sid, events[j].now)
    ensures sid in StateAt(cfg, s, events, j + 1).sessions
  {
    hide Pending, Prompts, Step, AfterStop;
    var before := StateAt(cfg, s, events, j);
    NextState(cfg, s, events, j);
    StopStep(cfg, before, events[j]);
    PromptAppends(cfg, before, sid, events[j].active, events[j].now);
  }

  /** Event `k` of a run loses no attempt made inside its window. */
  lemma EventKeepsPending(cfg: Options, s: State, events: seq<Event>, sid: string, k: nat, i: nat, at: int)
    requires ClockForward(events) && KeepsCompaction(cfg, s, events, sid)
    requires k < |events| && StartedBy(s, Began(events[0])) && events[k].now - cfg.attemptTTLSeconds * 1000 <= at
    requires var before := StateAt(cfg, s, events, k);
      Pending(before, i, sid, at) && sid in before.sessions
    ensures var after := StateAt(cfg, s, events, k + 1);
      Pending(after, i, sid, at) && sid in after.sessions
  {
    hide Pending, Step, StartedBy, ForgetKeeps;
    var before := StateAt(cfg, s, events, k);
    NextState(cfg, s, events, k);
    RunStartedBy(cfg, s, events, k);
    StepKeepsPending(cfg, before, events[k], i, sid, at);
    SessionsOnlyGrow(cfg, before, events[k]);
  }

  /** The attempt behind a prompt is still pending at a later event within the window. */
  lemma {:induction false} PromptStaysPending(cfg: Options, s: State, events: seq<Event>, sid: string,
      j: nat, k: nat, last: nat)
    requires ClockForward(events) && KeepsCompaction(cfg, s, events, sid)
    requires j < k <= last < |events| && StartedBy(s, Began(events[0]))
    requires PromptAt(cfg, s, events, j, sid)
    requires events[last].now - cfg.attemptTTLSeconds * 1000 <= events[j].now
    ensures Pending(StateAt(cfg, s, events, k), RowOf(cfg, s, events, j), sid, events[j].now)
    ensures sid in StateAt(cfg, s, events, k).sessions
    decreases k
  {
    hide Pending, PromptAt, StateAt, KeepsCompaction, StartedBy, RowOf;
    if j == k - 1 {
      PromptPends(cfg, s, events, sid, j);
    } else {
      PromptStaysPending(cfg, s, events, sid, j, k - 1, last);
      NotLater(events, k - 1, last);
      EventKeepsPending(cfg, s, events, sid, k - 1, RowOf(cfg, s, events, j), events[j].now);
    }
  }

  lemma StopStep(cfg: Options, s: State, e: Event)
    requires e.Stop?
    ensures Step(cfg, s, e) == AfterStop(cfg, s, e.session, e.active, e.now)
  {
  }

  lemma NotLater(events: seq<Event>, j: nat, k: nat)
    requires ClockForward(events) && j <= k < |events|
    ensures events[j].now <= events[k].now
  {
    if j < k {
      assert events[j].now <= Began(events[k]);
    }
  }

  /** The prompts of the session with clock readings in the closed window from `w`. */
  ghost function PromptsIn(cfg: Options, s: State, events: seq<Event>, sid: string, w: int, n: nat): set<nat>
    requires n <= |events|
  {
    set k | 0 <= k < n && PromptAt(cfg, s, events, k, sid) && w <= events[k].now <= w + cfg.attemptTTLSeconds * 1000
  }

  lemma EarlierPromptIsFresh(cfg: Options, s: State, events: seq<Event>, sid: string, w: int, j: nat, last: nat)
    requires cfg == Normalize(cfg) && ClockForward(events) && KeepsCompaction(cfg, s, events, sid)
    requires j < last < |events| && StartedBy(s, Began(events[0]))
    requires PromptAt(cfg, s, events, j, sid) && PromptAt(cfg, s, events, last, sid)
    requires w <= events[j].now && events[last].now <= w + cfg.attemptTTLSeconds * 1000
    ensures RowOf(cfg, s, events, j)
      in Fresh(StateAt(cfg, s, events, last).attempts, sid, events[last].now - cfg.attemptTTLSeconds * 1000)
  {
    hide StateAt;
    PromptStaysPending(cfg, s, events, sid, j, last, last);
  }

  lemma DistinctRows(cfg: Options, s: State, events: seq<Event>, sid: string, j: nat, k: nat)
    requires j < k < |events| && PromptAt(cfg, s, events, j, sid)
    ensures RowOf(cfg, s, events, j) < RowOf(cfg, s, events, k)
  {
    var before := StateAt(cfg, s, events, j);
    PromptAppends(cfg, before, sid, events[j].active, events[j].now);
    RunGrows(cfg, s, events, j + 1, k);
  }

  /** Any closed window as long as the attempt TTL holds at most `maxBlockAttempts` prompts
      for a session, when the clock runs forward, no session starts in the future, requests
      run whole, and no deletion undoes the session's compaction. */
  lemma {:induction false} WindowBound(cfg: Options, s: State, events: seq<Event>, sid: string, w: int, n: nat)
    requires cfg == Normalize(cfg) && ClockForward(events) && KeepsCompaction(cfg, s, events, sid)
    requires n <= |events| && (|events| > 0 ==> StartedBy(s, Began(events[0])))
    ensures |PromptsIn(cfg, s, events, sid, w, n)| <= cfg.maxBlockAttempts
    decreases n
  {
    hide *;
    PromptsInNone(cfg, s, events, sid, w);
    if n > 0 {
      var last := n - 1;
      PromptsInSnoc(cfg, s, events, sid, w, last);
      if PromptAt(cfg, s, events, last, sid) && w <= events[last].now <= w + cfg.attemptTTLSeconds * 1000 {
        LastPromptHasRoom(cfg, s, events, sid, w, last);
      } else {
        WindowBound(cfg, s, events, sid, w, last);
      }
    }
  }

  lemma PromptsInNone(cfg: Options, s: State, events: seq<Event>, sid: string, w: int)
    ensures |PromptsIn(cfg, s, events, sid, w, 0)| == 0
  {
    hide PromptAt;
    assert PromptsIn(cfg, s, events, sid, w, 0) == {};
  }

  lemma PromptsInSnoc(cfg: Options, s: State, events: seq<Event>, sid: string, w: int, n: nat)
    requires n < |events|
    ensures |PromptsIn(cfg, s, events, sid, w, n + 1)| == |PromptsIn(cfg, s, events, sid, w, n)|
      + if PromptAt(cfg, s, events, n, sid) && w <= events[n].now <= w + cfg.attemptTTLSeconds * 1000 then 1 else 0
  {
    hide PromptAt;
    assert PromptsIn(cfg, s, events, sid, w, n + 1) == PromptsIn(cfg, s, events, sid, w, n)
      + if PromptAt(cfg, s, events, n, sid) && w <= events[n].now <= w + cfg.attemptTTLSeconds * 1000 then {n} else {};
  }

  lemma LastPromptHasRoom(cfg: Options, s: State, events: seq<Event>, sid: string, w: int, last: nat)
    requires cfg == Normalize(cfg) && ClockForward(events) && KeepsCompaction(cfg, s, events, sid)
    requires last < |events| && StartedBy(s, Began(events[0]))
    requires PromptAt(cfg, s, events, last, sid) && w <= events[last].now <= w + cfg.attemptTTLSeconds * 1000
    ensures |PromptsIn(cfg, s, events, sid, w, last)| < cfg.maxBlockAttempts
  {
    hide StateAt, Prompts;
    var earlier := PromptsIn(cfg, s, events, sid, w, last);
    var row := map j | j in earlier :: RowOf(cfg, s, events, j);
    var open := Fresh(StateAt(cfg, s, events, last).attempts, sid, events[last].now - cfg.attemptTTLSeconds * 1000);
    forall j | j in earlier ensures j in row && row[j] in open {
      EarlierPromptIsFresh(cfg, s, events, sid, w, j, last);
    }
    forall j, k | j in earlier && k in earlier && row[j] == row[k] ensures j == k {
      if j < k { DistinctRows(cfg, s, events, sid, j, k); }
      if k < j { DistinctRows(cfg, s, events, sid, k, j); }
    }
    EmbeddedSize(earlier, row, open);
    PromptMeansRoom(cfg, StateAt(cfg, s, events, last), sid, events[last].active, events[last].now);
  }

  // ---------------------------------------------------------------- deletions break the bound

  /** Completing exchanges one fresh outstanding attempt for the one just made. */
  lemma CompletedRoom(attempts: seq<Attempt>, sid: string, now: int, since: int)
    requires since <= now
    ensures var asked := attempts + [Attempt(sid, Requested, "", now, None)];
      |Fresh(MarkCompleted(asked, sid, now), sid, since)| == |Fresh(attempts, sid, since)|
  {
    var n := |attempts|;
    var asked := attempts + [Attempt(sid, Requested, "", now, None)];
    assert IsRequested(asked[n], sid);
    var i := Latest(asked, sid).value;
    var done := MarkCompleted(asked, sid, now);
    assert Fresh(asked, sid, since) == Fresh(attempts, sid, since) + {n};
    assert Fresh(done, sid, since) == Fresh(asked, sid, since) - {i};
    assert i in Fresh(asked, sid, since);
  }

  /** The state after a prompt, a memory that answers it, and the deletion of that memory. */
  ghost function Forgotten(cfg: Options, s: State, sid: string, text: string, importance: real, now: int): State {
    AfterForget(AfterMemory(AfterStop(cfg, s, sid, true, now), sid, text, importance, now, now, now), |s.memories|)
  }

  lemma ForgottenState(cfg: Options, s: State, sid: string, text: string, importance: real, now: int)
    requires cfg == Normalize(cfg) && sid != "" && sid in s.sessions && Prompts(cfg, s, sid, true, now)
    requires MemoryAccepted(sid, text, importance)
    ensures var c, cutoff := Forgotten(cfg, s, sid, text, importance, now), now - cfg.attemptTTLSeconds * 1000;
      && c.memories == s.memories
      && c.sessions == s.sessions[sid := s.sessions[sid].(endedAt := Some(now))]
      && |Fresh(c.attempts, sid, cutoff)| == |Fresh(s.attempts, sid, cutoff)|
  {
    hide Expire, MarkCompleted, Fresh, MemoryAccepted, NeedsCompaction;
    var cutoff := now - cfg.attemptTTLSeconds * 1000;
    ExpireKeepsFresh(s.attempts, sid, cutoff);
    CompletedRoom(Expire(s.attempts, sid, cutoff), sid, now, cutoff);
    var b := AfterMemory(AfterStop(cfg, s, sid, true, now), sid, text, importance, now, now, now);
    assert b.memories == s.memories + [SavedMemory(sid, now)];
  }

  /** A prompt, a memory that answers it, and the deletion of that memory, at one instant. */
  function Round(sid: string, text: string, importance: real, now: int, row: nat): seq<Event> {
    [Stop(sid, true, now), SaveMemory(sid, text, importance, now, now, now), Forget(row, now)]
  }

  /** Every clock reading of the event is `now`. */
  predicate AllAt(e: Event, now: int) {
    e.now == now && Began(e) == now && !e.Observe? && (e.SaveMemory? ==> e.createdAt == now)
  }

  function Rounds(sid: string, text: string, importance: real, now: int, row: nat, n: nat): (r: seq<Event>)
    ensures |r| == 3 * n
    ensures forall k :: 0 <= k < |r| ==> AllAt(r[k], now)
  {
    if n == 0 then [] else Rounds(sid, text, importance, now, row, n - 1) + Round(sid, text, importance, now, row)
  }

  /** The state at `k` depends on the first `k` events. */
  lemma {:induction false} SameStart(cfg: Options, s: State, a: seq<Event>, b: seq<Event>, k: nat)
    requires k <= |a| && k <= |b| && a[..k] == b[..k]
    ensures StateAt(cfg, s, a, k) == StateAt(cfg, s, b, k)
    decreases k
  {
    if k > 0 {
      hide Step;
      assert a[k - 1] == a[..k][k - 1] == b[k - 1];
      assert a[..k - 1] == a[..k][..k - 1] == b[..k - 1];
      SameStart(cfg, s, a, b, k - 1);
    }
  }

  lemma SamePrompts(cfg: Options, s: State, a: seq<Event>, b: seq<Event>, sid: string, w: int, n: nat)
    requires n <= |a| && n <= |b| && a[..n] == b[..n]
    ensures PromptsIn(cfg, s, a, sid, w, n) == PromptsIn(cfg, s, b, sid, w, n)
  {
    hide Prompts, StateAt;
    forall k | 0 <= k < n ensures a[k] == b[k] && StateAt(cfg, s, a, k) == StateAt(cfg, s, b, k) {
      assert a[k] == a[..n][k] == b[k];
      assert a[..k] == a[..n][..k] == b[..k];
      SameStart(cfg, s, a, b, k);
    }
  }

  /** After a round the gate prompts as it did before. */
  lemma ForgettingReopens(cfg: Options, s: State, sid: string, text: string, importance: real, now: int)
    requires cfg == Normalize(cfg) && sid != "" && sid in s.sessions && Prompts(cfg, s, sid, true, now)
    requires MemoryAccepted(sid, text, importance)
    ensures var c := Forgotten(cfg, s, sid, text, importance, now);
      sid in c.sessions && |c.memories| == |s.memories| && Prompts(cfg, c, sid, true, now)
  {
    hide Forgotten, Fresh;
    ForgottenState(cfg, s, sid, text, importance, now);
  }

  /** The last round of a run of rounds, seen from the state it starts in. */
  lemma LastRound(cfg: Options, s: State, sid: string, text: string, importance: real, now: int, n: nat)
    requires n > 0
    ensures var row, events := |s.memories|, Rounds(sid, text, importance, now, |s.memories|, n);
      var before := StateAt(cfg, s, events, 3 * n - 3);
      && events[..3 * n - 3] == Rounds(sid, text, importance, now, row, n - 1)
      && events[3 * n - 3] == Stop(sid, true, now)
      && (|before.memories| == row ==>
            StateAt(cfg, s, events, 3 * n) == Forgotten(cfg, before, sid, text, importance, now))
  {
    hide AfterStop, AfterMemory, AfterForget;
    var row, events := |s.memories|, Rounds(sid, text, importance, now, |s.memories|, n);
    var last := Round(sid, text, importance, now, row);
    assert events == Rounds(sid, text, importance, now, row, n - 1) + last;
    assert events[3 * n - 3] == last[0] && events[3 * n - 2] == last[1] && events[3 * n - 1] == last[2];
    NextState(cfg, s, events, 3 * n - 3);
    NextState(cfg, s, events, 3 * n - 2);
    NextState(cfg, s, events, 3 * n - 1);
  }

  /** Where the rounds stand: the gate would prompt once more, and has prompted `n` times. */
  ghost predicate Prompted(cfg: Options, s: State, sid: string, now: int, events: seq<Event>, n: nat) {
    var t := StateAt(cfg, s, events, |events|);
    && sid in t.sessions && |t.memories| == |s.memories| && Prompts(cfg, t, sid, true, now)
    && |PromptsIn(cfg, s, events, sid, now, |events|)| >= n
  }

  lemma CountLastRound(cfg: Options, s: State, events: seq<Event>, sid: string, now: int, m: nat)
    requires cfg == Normalize(cfg) && |events| == m + 3 && events[m] == Stop(sid, true, now)
    requires Prompts(cfg, StateAt(cfg, s, events, m), sid, true, now)
    ensures |PromptsIn(cfg, s, events, sid, now, m + 3)| >= |PromptsIn(cfg, s, events, sid, now, m)| + 1
  {
    hide Prompts, PromptsIn, StateAt;
    PromptsInSnoc(cfg, s, events, sid, now, m);
    hide PromptAt;
    PromptsInSnoc(cfg, s, events, sid, now, m + 1);
    PromptsInSnoc(cfg, s, events, sid, now, m + 2);
  }

  /** The last round starts where the rounds before it end. */
  lemma LastRoundStarts(cfg: Options, s: State, sid: string, text: string, importance: real, now: int, n: nat)
    requires n > 0 && Prompted(cfg, s, sid, now, Rounds(sid, text, importance, now, |s.memories|, n - 1), n - 1)
    ensures var events, m := Rounds(sid, text, importance, now, |s.memories|, n), 3 * n - 3;
      var before := StateAt(cfg, s, events, m);
      && sid in before.sessions && |before.memories| == |s.memories| && Prompts(cfg, before, sid, true, now)
      && |PromptsIn(cfg, s, events, sid, now, m)| >= n - 1
  {
    hide Rounds, Prompts, PromptsIn, StateAt;
    var events := Rounds(sid, text, importance, now, |s.memories|, n);
    var shorter := Rounds(sid, text, importance, now, |s.memories|, n - 1);
    var m := 3 * n - 3;
    LastRound(cfg, s, sid, text, importance, now, n);
    assert shorter[..m] == shorter;
    SameStart(cfg, s, events, shorter, m);
    SamePrompts(cfg, s, events, shorter, sid, now, m);
  }

  lemma NextRound(cfg: Options, s: State, sid: string, text: string, importance: real, now: int, n: nat)
    requires cfg == Normalize(cfg) && sid != "" && MemoryAccepted(sid, text, importance)
    requires n > 0 && Prompted(cfg, s, sid, now, Rounds(sid, text, importance, now, |s.memories|, n - 1), n - 1)
    ensures Prompted(cfg, s, sid, now, Rounds(sid, text, importance, now, |s.memories|, n), n)
  {
    hide Rounds, Forgotten, Prompts, PromptsIn, MemoryAccepted, StateAt, Normalize, Step, Round, PromptAt;
    LastRoundStarts(cfg, s, sid, text, importance, now, n);
    var events, m := Rounds(sid, text, importance, now, |s.memories|, n), 3 * n - 3;
    LastRound(cfg, s, sid, text, importance, now, n);
    ForgettingReopens(cfg, StateAt(cfg, s, events, m), sid, text, importance, now);
    CountLastRound(cfg, s, events, sid, now, m);
  }

  /** `n` rounds hold `n` prompts at one instant. */
  lemma {:induction false} RoundsPrompt(cfg: Options, s: State, sid: string, text: string, importance: real,
      now: int, n: nat)
    requires cfg == Normalize(cfg) && sid != "" && sid in s.sessions && Prompts(cfg, s, sid, true, now)
    requires MemoryAccepted(sid, text, importance)
    ensures Prompted(cfg, s, sid, now, Rounds(sid, text, importance, now, |s.memories|, n), n)
    decreases n
  {
    hide Prompts, MemoryAccepted, Normalize, PromptsIn;
    if n > 0 {
      hide *;
      RoundsPrompt(cfg, s, sid, text, importance, now, n - 1);
      NextRound(cfg, s, sid, text, importance, now, n);
    }
  }

  /** A session due for compaction, in an otherwise empty store. */
  function Due(cfg: Options, sid: string, now: int): State
    requires cfg.minObservations > 0
  {
    State(map[sid := Session(now, None, "", cfg.minObservations)], [], [])
  }

  /** Without KeepsCompaction there is no bound at all: for every `n` some run on a forward
      clock holds `n` prompts of one session at one instant. */
  lemma DeletionsBreakBound(cfg: Options, sid: string, now: int, n: nat) returns (s: State, events: seq<Event>)
    requires cfg == Normalize(cfg) && cfg.mode !in {"disabled", "manual"} && NormalizedId(sid)
    ensures ClockForward(events) && StartedBy(s, now) && (|events| > 0 ==> Began(events[0]) == now)
    ensures |PromptsIn(cfg, s, events, sid, now, |events|)| >= n
  {
    hide Rounds, PromptsIn, StateAt;
    s := Due(cfg, sid, now);
    events := Rounds(sid, "m", 1.0, now, 0, n);
    assert Prompts(cfg, s, sid, true, now) by { EmptyHasNoFresh(sid, now - cfg.attemptTTLSeconds * 1000); }
    assert !IsSpace("m"[0]);
    hide Prompts;
    RoundsPrompt(cfg, s, sid, "m", 1.0, now, n);
  }

  lemma EmptyHasNoFresh(sid: string, since: int)
    ensures Fresh([], sid, since) == {}
  {
  }
}
