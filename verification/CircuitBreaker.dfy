/** The circuit breaker in front of the embedding service (internal/embed/ollama.go), and
    what it guarantees to callers that check, embed and record. Times are in nanoseconds. */
module CircuitBreaker {
  /** The zero time.Time, which the code reads as "not open". */
  const ZERO: int := 0

  datatype Config = Config(threshold: int, cooldown: int)

  datatype State = State(failures: nat, openedAt: int)

  const CLOSED := State(0, ZERO)

  predicate Valid(cfg: Config) {
    cfg.threshold > 0 && cfg.cooldown > 0
  }

  predicate IsOpen(cfg: Config, s: State, now: int) {
    s.openedAt != ZERO && now - s.openedAt < cfg.cooldown
  }

  /** Asking may itself reset the breaker, once the cooldown has passed. */
  function AfterOpen(cfg: Config, s: State, now: int): State {
    if s.openedAt != ZERO && !IsOpen(cfg, s, now) then CLOSED else s
  }

  function AfterFailure(cfg: Config, s: State, now: int): State {
    State(s.failures + 1, if s.failures + 1 >= cfg.threshold then now else s.openedAt)
  }

  class Breaker {
    const cfg: Config
    var failures: nat
    var openedAt: int

    ghost function Model(): State
      reads this
    {
      State(failures, openedAt)
    }

    constructor (threshold: int, cooldown: int)
      ensures Valid(cfg) && Model() == CLOSED
      ensures cfg.threshold == (if threshold <= 0 then 3 else threshold)
      ensures cfg.cooldown == (if cooldown <= 0 then 120_000_000_000 else cooldown)
    {
      cfg := Config(if threshold <= 0 then 3 else threshold, if cooldown <= 0 then 120_000_000_000 else cooldown);
      failures, openedAt := 0, ZERO;
    }

    method Open(now: int) returns (open: bool)
      modifies this
      ensures open == IsOpen(cfg, old(Model()), now)
      ensures Model() == AfterOpen(cfg, old(Model()), now)
    {
      if openedAt == ZERO {
        return false;
      }
      if now - openedAt >= cfg.cooldown {
        failures := 0;
        openedAt := ZERO;
        return false;
      }
      return true;
    }

    method RecordFailure(now: int)
      modifies this
      ensures Model() == AfterFailure(cfg, old(Model()), now)
    {
      failures := failures + 1;
      if failures >= cfg.threshold {
        openedAt := now;
      }
    }

    method RecordSuccess()
      modifies this
      ensures Model() == CLOSED
    {
      failures := 0;
      openedAt := ZERO;
    }
  }

  // ---------------------------------------------------------------- any call history

  datatype Call = Ask(now: int) | Failed(now: int) | Succeeded

  ghost function Run(cfg: Config, calls: seq<Call>): State
    decreases |calls|
  {
    if calls == [] then CLOSED else
      var s := Run(cfg, calls[..|calls| - 1]);
      match calls[|calls| - 1]
      case Ask(now) => AfterOpen(cfg, s, now)
      case Failed(now) => AfterFailure(cfg, s, now)
      case Succeeded => CLOSED
  }

  /** Enough failures in a row, and the last of them less than a cooldown ago. */
  predicate Tripped(cfg: Config, recent: seq<int>, now: int) {
    |recent| >= cfg.threshold && |recent| > 0 && now - recent[|recent| - 1] < cfg.cooldown
  }

  /** The failures since the last success or reset; a question resets when enough failures
      are all a cooldown old. */
  function Recent(cfg: Config, calls: seq<Call>): seq<int>
    decreases |calls|
  {
    if calls == [] then [] else
      var recent := Recent(cfg, calls[..|calls| - 1]);
      match calls[|calls| - 1]
      case Ask(now) => if |recent| >= cfg.threshold && !Tripped(cfg, recent, now) then [] else recent
      case Failed(now) => recent + [now]
      case Succeeded => []
  }

  ghost predicate ClockNeverZero(calls: seq<Call>) {
    forall i :: 0 <= i < |calls| && calls[i].Failed? ==> calls[i].now != ZERO
  }

  lemma {:induction false} StateIsRecentFailures(cfg: Config, calls: seq<Call>)
    requires Valid(cfg) && ClockNeverZero(calls)
    ensures var s, recent := Run(cfg, calls), Recent(cfg, calls);
      && s.failures == |recent|
      && s.openedAt == (if |recent| >= cfg.threshold then recent[|recent| - 1] else ZERO)
      && (|recent| > 0 ==> recent[|recent| - 1] != ZERO)
    decreases |calls|
  {
    if calls != [] {
      var rest := calls[..|calls| - 1];
      StateIsRecentFailures(cfg, rest);
    }
  }

  /** After any history `Open` is a function of the failures since the last success or reset. */
  lemma OpenIsTripped(cfg: Config, calls: seq<Call>, now: int)
    requires Valid(cfg) && ClockNeverZero(calls)
    ensures IsOpen(cfg, Run(cfg, calls), now) <==> Tripped(cfg, Recent(cfg, calls), now)
  {
    StateIsRecentFailures(cfg, calls);
  }

  function Failures(times: seq<int>): seq<Call> {
    seq(|times|, i requires 0 <= i < |times| => Failed(times[i]))
  }

  /** A new breaker that only saw failures is open iff there were enough of them and the last one
      is less than a cooldown old; asking it after that starts over. */
  lemma FailuresTrip(cfg: Config, times: seq<int>, now: int)
    requires Valid(cfg) && forall i :: 0 <= i < |times| ==> times[i] != ZERO
    ensures IsOpen(cfg, Run(cfg, Failures(times)), now)
      <==> |times| >= cfg.threshold && now < times[|times| - 1] + cfg.cooldown
    ensures |times| >= cfg.threshold && now >= times[|times| - 1] + cfg.cooldown ==>
      Run(cfg, Failures(times) + [Ask(now)]) == CLOSED
  {
    RecentOfFailures(cfg, times);
    OpenIsTripped(cfg, Failures(times), now);
    StateIsRecentFailures(cfg, Failures(times));
    var calls := Failures(times) + [Ask(now)];
    assert calls[..|calls| - 1] == Failures(times);
  }

  lemma {:induction false} RecentOfFailures(cfg: Config, times: seq<int>)
    ensures Recent(cfg, Failures(times)) == times
    decreases |times|
  {
    if times != [] {
      var n := |times| - 1;
      RecentOfFailures(cfg, times[..n]);
      assert Failures(times)[..n] == Failures(times[..n]);
    }
  }

  // ---------------------------------------------------------------- rounds

  /** A caller's round: ask, and if not open embed and record the outcome. */
  datatype Round = Round(askedAt: int, recordedAt: int, success: bool)

  function AfterRound(cfg: Config, s: State, r: Round): State {
    var asked := AfterOpen(cfg, s, r.askedAt);
    if IsOpen(cfg, s, r.askedAt) then asked
    else if r.success then CLOSED
    else AfterFailure(cfg, asked, r.recordedAt)
  }

  ghost function StateAt(cfg: Config, rounds: seq<Round>, k: nat): State
    requires k <= |rounds|
    decreases k
  {
    if k == 0 then CLOSED else AfterRound(cfg, StateAt(cfg, rounds, k - 1), rounds[k - 1])
  }

  /** Round `k` calls the embedding service. */
  ghost predicate Embeds(cfg: Config, rounds: seq<Round>, k: nat)
    requires k < |rounds|
  {
    !IsOpen(cfg, StateAt(cfg, rounds, k), rounds[k].askedAt)
  }

  /** Rounds follow one another on a clock that never reads zero. */
  ghost predicate Ordered(rounds: seq<Round>) {
    && (forall k :: 0 <= k < |rounds| ==> rounds[k].askedAt <= rounds[k].recordedAt && rounds[k].recordedAt != ZERO)
    && forall j, k :: 0 <= j < k < |rounds| ==> rounds[j].recordedAt <= rounds[k].askedAt
  }

  predicate Within(cfg: Config, from: int, t: int) {
    from <= t < from + cfg.cooldown
  }

  /** No embed call reports success inside the window. */
  ghost predicate NoSuccess(cfg: Config, rounds: seq<Round>, from: int) {
    forall k :: 0 <= k < |rounds| && Embeds(cfg, rounds, k) && rounds[k].success ==>
      !Within(cfg, from, rounds[k].recordedAt)
  }

  /** The embed calls of the first `n` rounds made in the half-open window from `from`. */
  ghost function EmbedsIn(cfg: Config, rounds: seq<Round>, from: int, n: nat): set<nat>
    requires n <= |rounds|
  {
    set k | 0 <= k < n && Embeds(cfg, rounds, k) && Within(cfg, from, rounds[k].askedAt)
  }

  lemma EmbedsInSnoc(cfg: Config, rounds: seq<Round>, from: int, n: nat)
    requires n < |rounds|
    ensures |EmbedsIn(cfg, rounds, from, n + 1)| == |EmbedsIn(cfg, rounds, from, n)|
      + if Embeds(cfg, rounds, n) && Within(cfg, from, rounds[n].askedAt) then 1 else 0
  {
    hide Embeds;
    assert EmbedsIn(cfg, rounds, from, n + 1) == EmbedsIn(cfg, rounds, from, n)
      + if Embeds(cfg, rounds, n) && Within(cfg, from, rounds[n].askedAt) then {n} else {};
  }
}
