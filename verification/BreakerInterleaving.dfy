/** The circuit breaker shared by overlapping callers (internal/search/hybrid.go:110-122,
    internal/mcp/server.go:316-350): asking, embedding and recording are three steps, and the
    steps of different callers interleave. */
module BreakerInterleaving {
  import opened CircuitBreaker
  import opened Outcomes
  import opened Sets

  /** A caller that found the breaker closed: about to embed, or waiting for the embedding. */
  datatype Phase = Asked | Embedding

  datatype System = System(breaker: State, inFlight: map<nat, Phase>)

  datatype Action =
    | Ask(id: nat, now: int)
    | Embed(id: nat, now: int)
    | Record(id: nat, now: int, success: bool)

  const START := System(CLOSED, map[])

  predicate At(s: System, id: nat, phase: Phase) {
    id in s.inFlight && s.inFlight[id] == phase
  }

  /** One step; None when it is not enabled. At most `overlap` callers are in flight. */
  function Step(cfg: Config, overlap: nat, s: System, a: Action): Option<System> {
    match a
    case Ask(id, now) =>
      if id in s.inFlight || |s.inFlight| >= overlap then None
      else Some(System(AfterOpen(cfg, s.breaker, now),
                       if IsOpen(cfg, s.breaker, now) then s.inFlight else s.inFlight[id := Asked]))
    case Embed(id, _) =>
      if At(s, id, Asked) then Some(s.(inFlight := s.inFlight[id := Embedding])) else None
    case Record(id, now, success) =>
      if !At(s, id, Embedding) then None
      else Some(System(if success then CLOSED else AfterFailure(cfg, s.breaker, now), s.inFlight - {id}))
  }

  /** The system a sequence of actions leads to, if every action is enabled. */
  function RunAll(cfg: Config, overlap: nat, actions: seq<Action>): Option<System>
    decreases |actions|
  {
    if actions == [] then Some(START) else
      var n := |actions| - 1;
      match RunAll(cfg, overlap, actions[..n])
      case None => None
      case Some(s) => Step(cfg, overlap, s, actions[n])
  }

  /** The clock runs forward, and what is recorded never reads zero. */
  ghost predicate InOrder(actions: seq<Action>) {
    && (forall i :: 0 < i < |actions| ==> actions[i - 1].now <= actions[i].now)
    && forall i :: 0 <= i < |actions| && actions[i].Record? ==> actions[i].now != ZERO
  }

  /** No embed call reports success inside the window. */
  ghost predicate NoneSucceeds(cfg: Config, actions: seq<Action>, from: int) {
    forall i :: 0 <= i < |actions| && actions[i].Record? && actions[i].success ==> !Within(cfg, from, actions[i].now)
  }

  function Unit(b: bool): nat {
    if b then 1 else 0
  }

  /** The embed calls made in the half-open window from `from`. */
  function Embeds(cfg: Config, actions: seq<Action>, from: int): nat {
    if actions == [] then 0 else
      var n := |actions| - 1;
      Embeds(cfg, actions[..n], from) + Unit(actions[n].Embed? && Within(cfg, from, actions[n].now))
  }

  /** The outcomes recorded in the window. */
  function Records(cfg: Config, actions: seq<Action>, from: int): nat {
    if actions == [] then 0 else
      var n := |actions| - 1;
      Records(cfg, actions[..n], from) + Unit(actions[n].Record? && Within(cfg, from, actions[n].now))
  }

  function Calling(inFlight: map<nat, Phase>): set<nat> {
    set id | id in inFlight && inFlight[id] == Embedding
  }

  // ---------------------------------------------------------------- the bound

  /** The breaker opened inside the window. */
  predicate OpenedWithin(s: State, from: int) {
    s.openedAt != ZERO && s.openedAt >= from
  }

  /** While the window lasts: a counted embed call is still waiting or was recorded; before the
      breaker opens every record raised its counter, and from then on nobody joins. */
  ghost predicate Limited(cfg: Config, overlap: nat, s: System, embeds: nat, records: nat, from: int) {
    && (s.breaker.openedAt != ZERO <==> s.breaker.failures >= cfg.threshold)
    && embeds <= records + |Calling(s.inFlight)|
    && |s.inFlight| <= overlap
    && (if OpenedWithin(s.breaker, from) then records + |s.inFlight| <= cfg.threshold - 1 + overlap
        else records <= s.breaker.failures && (s.breaker.openedAt != ZERO ==> records == 0))
  }

  lemma CallingFits(inFlight: map<nat, Phase>)
    ensures |Calling(inFlight)| <= |inFlight|
  {
    SubsetSize(Calling(inFlight), inFlight.Keys);
    assert |inFlight.Keys| == |inFlight|;
  }

  lemma LimitedBound(cfg: Config, overlap: nat, s: System, embeds: nat, records: nat, from: int)
    requires Valid(cfg) && Limited(cfg, overlap, s, embeds, records, from)
    ensures embeds <= cfg.threshold + overlap - 1
  {
    CallingFits(s.inFlight);
  }

  /** How each step changes who is in flight and who is calling. */
  lemma Joins(inFlight: map<nat, Phase>, id: nat)
    requires id !in inFlight
    ensures |inFlight[id := Asked]| == |inFlight| + 1 && Calling(inFlight[id := Asked]) == Calling(inFlight)
  {
    assert inFlight[id := Asked].Keys == inFlight.Keys + {id};
  }

  lemma Calls(inFlight: map<nat, Phase>, id: nat)
    requires id in inFlight && inFlight[id] == Asked
    ensures |inFlight[id := Embedding]| == |inFlight|
    ensures |Calling(inFlight[id := Embedding])| == |Calling(inFlight)| + 1
  {
    assert inFlight[id := Embedding].Keys == inFlight.Keys;
    assert Calling(inFlight[id := Embedding]) == Calling(inFlight) + {id};
  }

  lemma Leaves(inFlight: map<nat, Phase>, id: nat)
    requires id in inFlight && inFlight[id] == Embedding
    ensures |inFlight - {id}| == |inFlight| - 1 && |Calling(inFlight - {id})| == |Calling(inFlight)| - 1
  {
    assert (inFlight - {id}).Keys == inFlight.Keys - {id};
    assert Calling(inFlight - {id}) == Calling(inFlight) - {id};
  }

  lemma StepKeepsLimit(cfg: Config, overlap: nat, s: System, embeds: nat, records: nat, from: int, a: Action)
    requires Valid(cfg) && Limited(cfg, overlap, s, embeds, records, from)
    requires Step(cfg, overlap, s, a).Some? && a.now < from + cfg.cooldown
    requires a.Record? ==> a.now != ZERO && (a.success ==> a.now < from)
    requires a.now < from ==> embeds == 0 && records == 0
    ensures Limited(cfg, overlap, Step(cfg, overlap, s, a).value,
      embeds + Unit(a.Embed? && Within(cfg, from, a.now)), records + Unit(a.Record? && Within(cfg, from, a.now)), from)
  {
    hide Calling;
    match a
    case Ask(id, _) => Joins(s.inFlight, id);
    case Embed(id, _) => Calls(s.inFlight, id);
    case Record(id, _, _) => Leaves(s.inFlight, id);
  }

  lemma {:induction false} NothingBefore(cfg: Config, actions: seq<Action>, from: int)
    requires InOrder(actions) && (actions != [] ==> actions[|actions| - 1].now < from)
    ensures Embeds(cfg, actions, from) == 0 && Records(cfg, actions, from) == 0
    decreases |actions|
  {
    if actions != [] { NothingBefore(cfg, actions[..|actions| - 1], from); }
  }

  /** The invariant after every action inside or before the window. */
  lemma {:induction false} RunKeepsLimit(cfg: Config, overlap: nat, actions: seq<Action>, from: int)
    requires Valid(cfg) && RunAll(cfg, overlap, actions).Some?
    requires InOrder(actions) && NoneSucceeds(cfg, actions, from)
    requires actions != [] ==> actions[|actions| - 1].now < from + cfg.cooldown
    ensures Limited(cfg, overlap, RunAll(cfg, overlap, actions).value,
      Embeds(cfg, actions, from), Records(cfg, actions, from), from)
    decreases |actions|
  {
    if actions != [] {
      hide Limited, Step;
      var n := |actions| - 1;
      var rest, last := actions[..n], actions[n];
      RunKeepsLimit(cfg, overlap, rest, from);
      if last.now < from { NothingBefore(cfg, rest, from); }
      StepKeepsLimit(cfg, overlap, RunAll(cfg, overlap, rest).value,
        Embeds(cfg, rest, from), Records(cfg, rest, from), from, last);
    }
  }

  /** In every interleaving of at most `overlap` callers, a half-open window one cooldown long
      that contains no success holds at most threshold + overlap - 1 embed calls. */
  lemma {:induction false} OverlapLimit(cfg: Config, overlap: nat, actions: seq<Action>, from: int)
    requires Valid(cfg) && overlap > 0 && RunAll(cfg, overlap, actions).Some?
    requires InOrder(actions) && NoneSucceeds(cfg, actions, from)
    ensures Embeds(cfg, actions, from) <= cfg.threshold + overlap - 1
    decreases |actions|
  {
    if actions != [] {
      hide Limited, Step;
      var n := |actions| - 1;
      if actions[n].now < from + cfg.cooldown {
        RunKeepsLimit(cfg, overlap, actions, from);
        LimitedBound(cfg, overlap, RunAll(cfg, overlap, actions).value,
          Embeds(cfg, actions, from), Records(cfg, actions, from), from);
      } else {
        OverlapLimit(cfg, overlap, actions[..n], from);
      }
    }
  }

  // ---------------------------------------------------------------- the bound is reached

  /** `actions` lead to `s`, all at time `at`, without a success, making `embeds` calls. */
  ghost predicate Makes(cfg: Config, overlap: nat, actions: seq<Action>, at: int, s: System, embeds: nat) {
    && RunAll(cfg, overlap, actions) == Some(s)
    && (forall i :: 0 <= i < |actions| ==> actions[i].now == at && (actions[i].Record? ==> !actions[i].success))
    && Embeds(cfg, actions, at) == embeds
  }

  lemma Extend(cfg: Config, overlap: nat, actions: seq<Action>, at: int, s: System, embeds: nat, a: Action)
      returns (longer: seq<Action>)
    requires Valid(cfg) && Makes(cfg, overlap, actions, at, s, embeds)
    requires Step(cfg, overlap, s, a).Some? && a.now == at && (a.Record? ==> !a.success)
    ensures Makes(cfg, overlap, longer, at, Step(cfg, overlap, s, a).value, embeds + Unit(a.Embed?))
  {
    longer := actions + [a];
    assert longer[..|actions|] == actions;
  }

  /** One caller after another fails: `n` calls, and the breaker still closed. */
  lemma {:induction false} FailOneByOne(cfg: Config, overlap: nat, at: int, n: nat) returns (actions: seq<Action>)
    requires Valid(cfg) && overlap > 0 && at != ZERO && n < cfg.threshold
    ensures Makes(cfg, overlap, actions, at, System(State(n, ZERO), map[]), n)
    decreases n
  {
    if n == 0 {
      actions := [];
    } else {
      hide Makes;
      actions := FailOneByOne(cfg, overlap, at, n - 1);
      var s := System(State(n - 1, ZERO), map[]);
      actions := Extend(cfg, overlap, actions, at, s, n - 1, Action.Ask(0, at));
      var asked := System(State(n - 1, ZERO), map[0 := Asked]);
      actions := Extend(cfg, overlap, actions, at, asked, n - 1, Embed(0, at));
      var calling := System(State(n - 1, ZERO), map[0 := Embedding]);
      assert asked.inFlight[0 := Embedding] == calling.inFlight;
      actions := Extend(cfg, overlap, actions, at, calling, n, Record(0, at, false));
      assert calling.inFlight - {0} == map[];
    }
  }

  function Callers(n: nat): (r: map<nat, Phase>)
    ensures |r| == n
  {
    var r := map id | id in Below(n) :: Embedding;
    assert r.Keys == Below(n);
    r
  }

  lemma CallersNext(n: nat)
    ensures n !in Callers(n)
    ensures var asked: map<nat, Phase> := Callers(n)[n := Asked]; asked[n := Embedding] == Callers(n + 1)
  {
  }

  /** `n` callers ask and embed before any of them records. */
  lemma {:induction false} CallTogether(cfg: Config, overlap: nat, at: int, n: nat) returns (actions: seq<Action>)
    requires Valid(cfg) && n <= overlap && overlap > 0 && at != ZERO
    ensures Makes(cfg, overlap, actions, at, System(State(cfg.threshold - 1, ZERO), Callers(n)), cfg.threshold - 1 + n)
    decreases n
  {
    if n == 0 {
      actions := FailOneByOne(cfg, overlap, at, cfg.threshold - 1);
      assert Callers(0) == map[];
    } else {
      hide Makes, Callers;
      actions := CallTogether(cfg, overlap, at, n - 1);
      var breaker, before, id: nat := State(cfg.threshold - 1, ZERO), Callers(n - 1), n - 1;
      var calls := cfg.threshold - 2 + n;
      CallersNext(id);
      actions := Extend(cfg, overlap, actions, at, System(breaker, before), calls, Action.Ask(id, at));
      var asked: map<nat, Phase> := before[id := Asked];
      actions := Extend(cfg, overlap, actions, at, System(breaker, asked), calls, Embed(id, at));
    }
  }

  /** For every threshold and overlap some interleaving makes that many calls at one instant. */
  lemma OverlapReached(cfg: Config, overlap: nat, at: int) returns (actions: seq<Action>)
    requires Valid(cfg) && overlap > 0 && at != ZERO
    ensures RunAll(cfg, overlap, actions).Some? && InOrder(actions) && NoneSucceeds(cfg, actions, at)
    ensures Embeds(cfg, actions, at) == cfg.threshold + overlap - 1
  {
    actions := CallTogether(cfg, overlap, at, overlap);
  }

  // ---------------------------------------------------------------- one caller at a time

  /** The steps of a caller's round, from the breaker state it finds. */
  function StepsOf(cfg: Config, s: State, r: Round): seq<Action> {
    if IsOpen(cfg, s, r.askedAt) then [Action.Ask(0, r.askedAt)]
    else [Action.Ask(0, r.askedAt), Embed(0, r.askedAt), Record(0, r.recordedAt, r.success)]
  }

  ghost function AllSteps(cfg: Config, rounds: seq<Round>, n: nat): seq<Action>
    requires n <= |rounds|
    decreases n
  {
    if n == 0 then [] else AllSteps(cfg, rounds, n - 1) + StepsOf(cfg, StateAt(cfg, rounds, n - 1), rounds[n - 1])
  }

  lemma RunOne(cfg: Config, overlap: nat, actions: seq<Action>, a: Action)
    ensures RunAll(cfg, overlap, actions + [a])
      == match RunAll(cfg, overlap, actions) case None => None case Some(s) => Step(cfg, overlap, s, a)
  {
    assert (actions + [a])[..|actions|] == actions;
  }

  lemma EmbedsOne(cfg: Config, actions: seq<Action>, a: Action, from: int)
    ensures Embeds(cfg, actions + [a], from) == Embeds(cfg, actions, from) + Unit(a.Embed? && Within(cfg, from, a.now))
  {
    assert (actions + [a])[..|actions|] == actions;
  }

  lemma InOrderOne(actions: seq<Action>, a: Action)
    requires InOrder(actions) && (a.Record? ==> a.now != ZERO)
    requires actions != [] ==> actions[|actions| - 1].now <= a.now
    ensures InOrder(actions + [a])
  {
  }

  /** `actions`, done by time `until`, leave nobody in flight and the breaker in state `s`, having
      made `embeds` calls in the window. */
  ghost predicate Tracks(cfg: Config, actions: seq<Action>, s: State, until: int, from: int, embeds: nat) {
    && RunAll(cfg, 1, actions) == Some(System(s, map[])) && InOrder(actions)
    && (actions != [] ==> actions[|actions| - 1].now <= until)
    && Embeds(cfg, actions, from) == embeds
  }

  /** A round run alone takes the system where AfterRound says. */
  lemma RoundSteps(cfg: Config, actions: seq<Action>, s: State, r: Round, from: int, embeds: nat, until: int)
    requires Tracks(cfg, actions, s, r.askedAt, from, embeds)
    requires r.askedAt <= r.recordedAt <= until && r.recordedAt != ZERO
    ensures Tracks(cfg, actions + StepsOf(cfg, s, r), AfterRound(cfg, s, r), until, from,
      embeds + Unit(!IsOpen(cfg, s, r.askedAt) && Within(cfg, from, r.askedAt)))
  {
    hide RunAll, Embeds, InOrder;
    var ask, embed, record := Action.Ask(0, r.askedAt), Embed(0, r.askedAt), Record(0, r.recordedAt, r.success);
    var one, two := actions + [ask], actions + [ask] + [embed];
    RunOne(cfg, 1, actions, ask);
    EmbedsOne(cfg, actions, ask, from);
    InOrderOne(actions, ask);
    if !IsOpen(cfg, s, r.askedAt) {
      RunOne(cfg, 1, one, embed);
      EmbedsOne(cfg, one, embed, from);
      InOrderOne(one, embed);
      RunOne(cfg, 1, two, record);
      EmbedsOne(cfg, two, record, from);
      InOrderOne(two, record);
      assert two + [record] == actions + StepsOf(cfg, s, r);
    }
  }

  /** Rounds that do not overlap are a run with one caller at a time. */
  lemma {:induction false} RoundsAreRun(cfg: Config, rounds: seq<Round>, n: nat, from: int, until: int)
    requires Ordered(rounds) && n <= |rounds| && (n > 0 ==> rounds[n - 1].recordedAt <= until)
    ensures Tracks(cfg, AllSteps(cfg, rounds, n), StateAt(cfg, rounds, n), until, from,
      |EmbedsIn(cfg, rounds, from, n)|)
    decreases n
  {
    if n == 0 {
      assert EmbedsIn(cfg, rounds, from, 0) == {};
    } else {
      var k := n - 1;
      var steps, s, count := AllSteps(cfg, rounds, k), StateAt(cfg, rounds, k), |EmbedsIn(cfg, rounds, from, k)|;
      assert StateAt(cfg, rounds, n) == AfterRound(cfg, s, rounds[k]);
      hide Tracks, CircuitBreaker.Embeds, EmbedsIn, AfterRound, StepsOf, IsOpen;
      RoundsAreRun(cfg, rounds, k, from, rounds[k].askedAt);
      EmbedsInSnoc(cfg, rounds, from, k);
      RoundSteps(cfg, steps, s, rounds[k], from, count, until);
      EmbedsMeans(cfg, rounds, k);
    }
  }

  lemma EmbedsMeans(cfg: Config, rounds: seq<Round>, k: nat)
    requires k < |rounds|
    ensures CircuitBreaker.Embeds(cfg, rounds, k) <==> !IsOpen(cfg, StateAt(cfg, rounds, k), rounds[k].askedAt)
  {
  }

  lemma {:induction false} RoundsSucceedOutside(cfg: Config, rounds: seq<Round>, n: nat, from: int)
    requires NoSuccess(cfg, rounds, from) && n <= |rounds|
    ensures NoneSucceeds(cfg, AllSteps(cfg, rounds, n), from)
    decreases n
  {
    if n > 0 {
      hide IsOpen;
      RoundsSucceedOutside(cfg, rounds, n - 1, from);
      EmbedsMeans(cfg, rounds, n - 1);
    }
  }

  /** The limit for callers that do not overlap: a window without a success holds at most
      `threshold` embed calls. */
  lemma RateLimit(cfg: Config, rounds: seq<Round>, from: int, n: nat)
    requires Valid(cfg) && Ordered(rounds) && NoSuccess(cfg, rounds, from) && n <= |rounds|
    ensures |EmbedsIn(cfg, rounds, from, n)| <= cfg.threshold
  {
    RoundsAreRun(cfg, rounds, n, from, if n > 0 then rounds[n - 1].recordedAt else 0);
    RoundsSucceedOutside(cfg, rounds, n, from);
    OverlapLimit(cfg, 1, AllSteps(cfg, rounds, n), from);
  }
}
