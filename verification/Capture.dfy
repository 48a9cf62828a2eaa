/** Observation capture: windowed deduplication by hash and per-session counters
    (internal/store/observations.go, internal/store/sessions.go). */
module Capture {
  import opened Outcomes
  import opened Sets

  /** Digests are injective: a live event is identified by its canonical JSON, an imported
      one by transcript path and event id. */
  datatype Hash = Live(json: string) | Imported(path: string, eventId: string)

  datatype Input = Input(agent: string, externalId: string, cwd: string, ts: int, kind: string, tool: string,
    payload: string, hash: Hash)

  datatype Observation = Observation(session: string, cwd: string, ts: int, kind: string, tool: string,
    payload: string, hash: Hash)

  datatype Session = Session(agent: string, externalId: string, project: string, startedAt: int, nObs: nat)

  datatype State = State(sessions: map<string, Session>, observations: seq<Observation>)

  // ---------------------------------------------------------------- sessions

  function SessionId(agent: string, externalId: string): string {
    agent + ":" + externalId
  }

  /** The row's id is taken by another (agent, external id) pair: the insert breaks the
      primary key, because only the pair is listed in ON CONFLICT. */
  predicate Collides(s: State, agent: string, externalId: string) {
    var id := SessionId(agent, externalId);
    id in s.sessions && (s.sessions[id].agent != agent || s.sessions[id].externalId != externalId)
  }

  function Ensured(s: State, agent: string, externalId: string, project: string, ts: int): State {
    var id := SessionId(agent, externalId);
    if id in s.sessions then s
    else s.(sessions := s.sessions[id := Session(agent, externalId, project, ts, 0)])
  }

  /** Agents without a colon never collide with each other. */
  lemma ColonFreeAgents(a: string, x: string, b: string, y: string)
    requires ':' !in a && ':' !in b && SessionId(a, x) == SessionId(b, y)
    ensures a == b && x == y
  {
    var s := SessionId(a, x);
    assert s[|a|] == ':' && s[|b|] == ':';
    assert forall i :: 0 <= i < |a| ==> s[i] == a[i];
    assert forall i :: 0 <= i < |b| ==> s[i] == b[i];
    assert |a| == |b|;
    assert a == s[..|a|] == b;
    assert x == s[|a| + 1..] == y;
  }

  // ---------------------------------------------------------------- deduplication

  /** SELECT 1 FROM observations WHERE hash = ? AND ts > ?. */
  predicate Seen(observations: seq<Observation>, hash: Hash, after: int) {
    exists i :: 0 <= i < |observations| && observations[i].hash == hash && observations[i].ts > after
  }

  predicate Accepted(s: State, input: Input, windowSeconds: int) {
    !Collides(s, input.agent, input.externalId)
    && !Seen(s.observations, input.hash, input.ts - windowSeconds * 1000)
  }

  function Stored(input: Input): Observation {
    Observation(SessionId(input.agent, input.externalId), input.cwd, input.ts, input.kind, input.tool, input.payload,
      input.hash)
  }

  function Counted(s: State, id: string): State {
    if id in s.sessions then s.(sessions := s.sessions[id := s.sessions[id].(nObs := s.sessions[id].nObs + 1)]) else s
  }

  function AfterInsert(s: State, input: Input, windowSeconds: int): State {
    if Collides(s, input.agent, input.externalId) then s
    else
      var t := Ensured(s, input.agent, input.externalId, input.cwd, input.ts);
      if Seen(s.observations, input.hash, input.ts - windowSeconds * 1000) then t
      else Counted(t.(observations := t.observations + [Stored(input)]), SessionId(input.agent, input.externalId))
  }

  class Observations {
    var sessions: map<string, Session>
    var observations: seq<Observation>

    ghost function Model(): State
      reads this
    {
      State(sessions, observations)
    }

    constructor ()
      ensures Model() == State(map[], [])
    {
      sessions, observations := map[], [];
    }

    /** One transaction: ensure the session, look for a recent twin, insert and count. */
    method InsertObservation(input: Input, windowSeconds: int) returns (r: Result<bool>)
      modifies this
      ensures Model() == AfterInsert(old(Model()), input, windowSeconds)
      ensures r.Err? <==> Collides(old(Model()), input.agent, input.externalId)
      ensures r.Ok? ==> r.value == Accepted(old(Model()), input, windowSeconds)
    {
      var id := SessionId(input.agent, input.externalId);
      if id !in sessions {
        sessions := sessions[id := Session(input.agent, input.externalId, input.cwd, input.ts, 0)];
      } else if sessions[id].agent != input.agent || sessions[id].externalId != input.externalId {
        return Err("primary key: session id");
      }
      var cutoff := input.ts - windowSeconds * 1000;
      var stored := observations;
      for i := 0 to |stored|
        invariant Model() == Ensured(old(Model()), input.agent, input.externalId, input.cwd, input.ts)
        invariant !Seen(stored[..i], input.hash, cutoff)
      {
        if stored[i].hash == input.hash && stored[i].ts > cutoff {
          assert Seen(stored, input.hash, cutoff);
          return Ok(false);
        }
        SeenSnoc(stored[..i], stored[i], input.hash, cutoff);
        assert stored[..i + 1] == stored[..i] + [stored[i]];
      }
      assert stored[..|stored|] == stored;
      observations := observations + [Stored(input)];
      sessions := sessions[id := sessions[id].(nObs := sessions[id].nObs + 1)];
      return Ok(true);
    }
  }

  /** What one insert leaves: the session's row, created if need be and counting what is stored,
      and a row of exactly the input's columns unless a twin lies within the window before it or
      after it. A taken session id refuses the insert. */
  lemma InsertStores(s: State, input: Input, windowSeconds: int)
    ensures var s', id := AfterInsert(s, input, windowSeconds), input.agent + ":" + input.externalId;
      var known := if id in s.sessions then s.sessions[id]
                   else Session(input.agent, input.externalId, input.cwd, input.ts, 0);
      var twin := exists i :: 0 <= i < |s.observations| && s.observations[i].hash == input.hash
                    && s.observations[i].ts > input.ts - windowSeconds * 1000;
      if known.agent != input.agent || known.externalId != input.externalId then s' == s
      else if twin then s' == State(s.sessions[id := known], s.observations)
      else s' == State(s.sessions[id := known.(nObs := known.nObs + 1)],
                       s.observations + [Observation(id, input.cwd, input.ts, input.kind, input.tool, input.payload,
                                                     input.hash)])
  {
  }

  lemma SeenSnoc(observations: seq<Observation>, o: Observation, hash: Hash, after: int)
    ensures Seen(observations + [o], hash, after) <==>
      Seen(observations, hash, after) || (o.hash == hash && o.ts > after)
  {
    var more := observations + [o];
    assert more[|observations|] == o;
    assert forall i :: 0 <= i < |observations| ==> more[i] == observations[i];
  }

  // ---------------------------------------------------------------- any call sequence

  ghost function Run(inputs: seq<Input>, windowSeconds: int): State
    decreases |inputs|
  {
    if inputs == [] then State(map[], [])
    else AfterInsert(Run(inputs[..|inputs| - 1], windowSeconds), inputs[|inputs| - 1], windowSeconds)
  }

  /** Same-hash observations, taken in insertion order, are at least the window apart. */
  ghost predicate Spaced(observations: seq<Observation>, windowSeconds: int) {
    forall i, j :: 0 <= i < j < |observations| && observations[i].hash == observations[j].hash ==>
      observations[j].ts - observations[i].ts >= windowSeconds * 1000
  }

  lemma InsertKeepsSpaced(s: State, input: Input, windowSeconds: int)
    requires Spaced(s.observations, windowSeconds)
    ensures Spaced(AfterInsert(s, input, windowSeconds).observations, windowSeconds)
  {
    if Accepted(s, input, windowSeconds) {
      assert forall i :: 0 <= i < |s.observations| && s.observations[i].hash == input.hash ==>
        s.observations[i].ts <= input.ts - windowSeconds * 1000;
    }
  }

  /** Whatever order the timestamps arrive in, stored twins are a window apart. */
  lemma {:induction false} RunIsSpaced(inputs: seq<Input>, windowSeconds: int)
    ensures Spaced(Run(inputs, windowSeconds).observations, windowSeconds)
    decreases |inputs|
  {
    if inputs != [] {
      hide AfterInsert, Spaced;
      RunIsSpaced(inputs[..|inputs| - 1], windowSeconds);
      InsertKeepsSpaced(Run(inputs[..|inputs| - 1], windowSeconds), inputs[|inputs| - 1], windowSeconds);
    } else {
      assert Spaced([], windowSeconds);
    }
  }

  /** Positions of the stored twins of `hash` with a timestamp in [from, from + length]. */
  ghost function TwinsIn(observations: seq<Observation>, hash: Hash, from: int, length: nat): set<nat> {
    set i | 0 <= i < |observations| && observations[i].hash == hash && from <= observations[i].ts <= from + length
  }

  lemma Quotient(a: int, w: int)
    requires w > 0
    ensures Scaled(a / w, w) <= a < Scaled(a / w, w) + w
  {
    assert a == a / w * w + a % w;
  }

  function Scaled(q: int, w: int): int {
    q * w
  }

  lemma {:induction false} ScaledOrder(p: int, q: int, w: int)
    requires w > 0 && p < q
    ensures Scaled(p, w) + w <= Scaled(q, w)
    decreases q - p
  {
    assert Scaled(q, w) == Scaled(q - 1, w) + w;
    if p < q - 1 { ScaledOrder(p, q - 1, w); }
  }

  lemma SlotOrder(a: int, b: int, w: int)
    requires w > 0 && a + w <= b
    ensures a / w < b / w
  {
    Quotient(a, w);
    Quotient(b, w);
    hide Scaled;
    var p, q := a / w, b / w;
    if q < p { ScaledOrder(q, p, w); }
  }

  lemma SlotBound(a: int, length: int, w: int)
    requires w > 0 && 0 <= a <= length
    ensures 0 <= a / w <= length / w
  {
    Quotient(a, w);
    Quotient(length, w);
    assert Scaled(0, w) == 0;
    hide Scaled;
    var p, q := a / w, length / w;
    if q < p { ScaledOrder(q, p, w); }
    if p < 0 { ScaledOrder(p, 0, w); }
  }

  /** An interval of length L holds at most L / (1000 W) + 1 of them. */
  lemma IntervalBound(observations: seq<Observation>, windowSeconds: nat, hash: Hash, from: int, length: nat)
    requires windowSeconds > 0 && Spaced(observations, windowSeconds)
    ensures |TwinsIn(observations, hash, from, length)| <= length / (windowSeconds * 1000) + 1
  {
    var w := windowSeconds * 1000;
    var twins := TwinsIn(observations, hash, from, length);
    forall i | i in twins ensures 0 <= (observations[i].ts - from) / w <= length / w {
      SlotBound(observations[i].ts - from, length, w);
    }
    var slot: map<nat, nat> := map i | i in twins :: (observations[i].ts - from) / w;
    forall i, j | i in twins && j in twins && slot[i] == slot[j] ensures i == j {
      if i < j { SlotOrder(observations[i].ts - from, observations[j].ts - from, w); }
      if j < i { SlotOrder(observations[j].ts - from, observations[i].ts - from, w); }
    }
    SlotBound(0, length, w);
    EmbeddedSize(twins, slot, Below(length / w + 1));
  }

  /** The last stored timestamp of each hash. */
  function LastSeen(observations: seq<Observation>): map<Hash, int> {
    if observations == [] then map[] else
      var o := observations[|observations| - 1];
      LastSeen(observations[..|observations| - 1])[o.hash := o.ts]
  }

  lemma {:induction false} LastIsLatest(observations: seq<Observation>, windowSeconds: nat, hash: Hash)
    requires Spaced(observations, windowSeconds)
    ensures hash in LastSeen(observations) <==> exists i :: 0 <= i < |observations| && observations[i].hash == hash
    ensures hash in LastSeen(observations) ==>
      (exists i :: 0 <= i < |observations| && observations[i].hash == hash
        && observations[i].ts == LastSeen(observations)[hash])
      && forall i :: 0 <= i < |observations| && observations[i].hash == hash ==>
        observations[i].ts <= LastSeen(observations)[hash]
  {
    if observations != [] {
      var n := |observations| - 1;
      LastIsLatest(observations[..n], windowSeconds, hash);
      assert forall i :: 0 <= i < n ==> observations[..n][i] == observations[i];
    }
  }

  /** A map holding only the last accepted timestamp per hash decides every insert like the
      table scan does. */
  lemma {:induction false} MapDecidesLikeScan(inputs: seq<Input>, windowSeconds: nat, hash: Hash, after: int)
    ensures var observations := Run(inputs, windowSeconds).observations;
      var last := LastSeen(observations);
      Seen(observations, hash, after) <==> hash in last && last[hash] > after
  {
    RunIsSpaced(inputs, windowSeconds);
    LastIsLatest(Run(inputs, windowSeconds).observations, windowSeconds, hash);
  }

  // ---------------------------------------------------------------- counters

  function RowsOf(observations: seq<Observation>, id: string): nat {
    if observations == [] then 0 else
      RowsOf(observations[..|observations| - 1], id) + if observations[|observations| - 1].session == id then 1 else 0
  }

  lemma RowsSnoc(observations: seq<Observation>, o: Observation, id: string)
    ensures RowsOf(observations + [o], id) == RowsOf(observations, id) + if o.session == id then 1 else 0
  {
    assert (observations + [o])[..|observations|] == observations;
  }

  /** Counters match the table, every observation has a session row, and every row carries
      the id of its pair. */
  ghost predicate Consistent(s: State) {
    && (forall id :: id in s.sessions ==> s.sessions[id].nObs == RowsOf(s.observations, id))
    && (forall id :: id !in s.sessions ==> RowsOf(s.observations, id) == 0)
    && (forall id :: id in s.sessions ==> id == SessionId(s.sessions[id].agent, s.sessions[id].externalId))
  }

  lemma InsertKeepsConsistent(s: State, input: Input, windowSeconds: int)
    requires Consistent(s)
    ensures Consistent(AfterInsert(s, input, windowSeconds))
  {
    hide Seen, RowsOf, SessionId;
    AllRowsSnoc(s.observations, Stored(input));
  }

  lemma AllRowsSnoc(observations: seq<Observation>, o: Observation)
    ensures forall id ::
      RowsOf(observations + [o], id) == RowsOf(observations, id) + if o.session == id then 1 else 0
  {
    forall id
      ensures RowsOf(observations + [o], id) == RowsOf(observations, id) + if o.session == id then 1 else 0
    {
      RowsSnoc(observations, o, id);
    }
  }

  /** `n_obs` equals the number of stored rows of the session, after every call sequence. */
  lemma {:induction false} CountersMatch(inputs: seq<Input>, windowSeconds: int)
    ensures Consistent(Run(inputs, windowSeconds))
    decreases |inputs|
  {
    if inputs != [] {
      hide AfterInsert, Consistent;
      CountersMatch(inputs[..|inputs| - 1], windowSeconds);
      InsertKeepsConsistent(Run(inputs[..|inputs| - 1], windowSeconds), inputs[|inputs| - 1], windowSeconds);
    }
  }
}
