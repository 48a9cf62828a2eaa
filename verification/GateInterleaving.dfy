/** The compaction gate with requests interleaved statement by statement: expire, count and
    insert are separate statements with no transaction around them
    (internal/server/server.go:499-532). All requests concern one session. */
module GateInterleaving {
  import opened CompactionGate
  import opened Outcomes
  import opened Sets
  import Runs = CompactionRuns

  /** The next statement of a request. */
  datatype Pc = ToCheck | ToExpire | ToCount | ToInsert | ToSkip

  /** A request in flight, with the clock reading all its statements use. */
  datatype Request = Request(now: int, pc: Pc)

  datatype System = System(attempts: seq<Attempt>, inFlight: map<nat, Request>, needed: bool)

  /** The limits of a run: the gate's maximum, its window, and how many requests overlap. */
  datatype Limits = Limits(sid: string, maxBlockAttempts: nat, window: nat, concurrency: nat)

  datatype Action =
    | Arrive(id: nat, now: int)
    | CheckNeeds(id: nat)
    | ExpireOld(id: nat)
    | Count(id: nat)
    | Insert(id: nat)
    | Skip(id: nat)
    | Complete(now: int)
    | SetNeeded(needed: bool)

  predicate At(s: System, id: nat, pc: Pc) {
    id in s.inFlight && s.inFlight[id].pc == pc
  }

  function Goto(s: System, id: nat, pc: Pc): System
    requires id in s.inFlight
  {
    s.(inFlight := s.inFlight[id := s.inFlight[id].(pc := pc)])
  }

  function Leave(s: System, id: nat): System {
    s.(inFlight := s.inFlight - {id})
  }

  /** A request may start when fewer than `concurrency` are in flight and its clock reading is
      within one window of theirs. */
  ghost predicate MayArrive(lim: Limits, s: System, id: nat, now: int) {
    && id !in s.inFlight && |s.inFlight| < lim.concurrency
    && forall r :: r in s.inFlight ==> s.inFlight[r].now - lim.window <= now <= s.inFlight[r].now + lim.window
  }

  function Arrived(s: System, id: nat, now: int): System {
    s.(inFlight := s.inFlight[id := Request(now, ToCheck)])
  }

  /** One statement; None when the action is not enabled. */
  ghost function Step(lim: Limits, s: System, a: Action): Option<System> {
    match a
    case Arrive(id, now) =>
      if MayArrive(lim, s, id, now) then Some(Arrived(s, id, now)) else None
    case CheckNeeds(id) =>
      if !At(s, id, ToCheck) then None
      else if s.needed then Some(Goto(s, id, ToExpire)) else Some(Leave(s, id))
    case ExpireOld(id) =>
      if !At(s, id, ToExpire) then None
      else Some(Goto(s, id, ToCount).(attempts := Expire(s.attempts, lim.sid, s.inFlight[id].now - lim.window)))
    case Count(id) =>
      if !At(s, id, ToCount) then None
      else Some(Goto(s, id,
        if |Fresh(s.attempts, lim.sid, s.inFlight[id].now - lim.window)| >= lim.maxBlockAttempts then ToSkip
        else ToInsert))
    case Insert(id) =>
      if !At(s, id, ToInsert) then None
      else Some(Leave(s, id).(attempts := s.attempts + [Attempt(lim.sid, Requested, "", s.inFlight[id].now, None)]))
    case Skip(id) =>
      if !At(s, id, ToSkip) then None
      else
        var row := Attempt(lim.sid, Skipped, "max attempts", s.inFlight[id].now, None);
        Some(Leave(s, id).(attempts := s.attempts + [row]))
    case Complete(now) => Some(s.(attempts := MarkCompleted(s.attempts, lim.sid, now)))
    case SetNeeded(needed) => Some(s.(needed := needed))
  }

  const INITIAL := System([], map[], false)

  /** The state a sequence of actions leads to, if every action is enabled. */
  ghost function Run(lim: Limits, actions: seq<Action>): Option<System>
    decreases |actions|
  {
    if actions == [] then Some(INITIAL) else
      var n := |actions| - 1;
      match Run(lim, actions[..n])
      case None => None
      case Some(s) => Step(lim, s, actions[n])
  }

  /** Requests past the check whose row is not yet inserted. */
  ghost function Passed(s: System): set<nat> {
    set id | id in s.inFlight && s.inFlight[id].pc == ToInsert
  }

  /** Clock readings in flight are within one window of each other. */
  ghost predicate Close(lim: Limits, inFlight: map<nat, Request>) {
    forall q, r :: q in inFlight && r in inFlight ==> inFlight[q].now - lim.window <= inFlight[r].now
  }

  /** A request that has expired and not yet counted sees only attempts it will count. */
  ghost predicate AllFresh(lim: Limits, s: System) {
    forall r, i :: r in s.inFlight && s.inFlight[r].pc == ToCount && i in Outstanding(s.attempts, lim.sid) ==>
      s.attempts[i].attemptedAt >= s.inFlight[r].now - lim.window
  }

  ghost function Load(lim: Limits, s: System): nat {
    |Outstanding(s.attempts, lim.sid)| + |Passed(s)|
  }

  ghost predicate Inv(lim: Limits, s: System) {
    && |s.inFlight| <= lim.concurrency && Close(lim, s.inFlight) && AllFresh(lim, s)
    && (Load(lim, s) < lim.maxBlockAttempts + lim.concurrency || Load(lim, s) == 0)
  }

  lemma PassedFits(s: System)
    ensures |Passed(s)| <= |s.inFlight|
  {
    SubsetSize(Passed(s), s.inFlight.Keys);
    assert |s.inFlight.Keys| == |s.inFlight|;
  }

  /** Moving one request to its next statement. */
  lemma GotoEffect(lim: Limits, s: System, id: nat, pc: Pc)
    requires id in s.inFlight && s.inFlight[id].pc != ToInsert && Close(lim, s.inFlight)
    ensures var t := Goto(s, id, pc);
      && |t.inFlight| == |s.inFlight| && Close(lim, t.inFlight)
      && Passed(t) == Passed(s) + (if pc == ToInsert then {id} else {})
      && (pc != ToCount && AllFresh(lim, s) ==> AllFresh(lim, t))
  {
    hide Outstanding;
    var t := Goto(s, id, pc);
    assert t.inFlight.Keys == s.inFlight.Keys;
    assert |t.inFlight.Keys| == |t.inFlight|;
  }

  lemma LeaveEffect(lim: Limits, s: System, id: nat)
    requires id in s.inFlight && Close(lim, s.inFlight)
    ensures var t := Leave(s, id);
      && |t.inFlight| == |s.inFlight| - 1 && Close(lim, t.inFlight) && Passed(t) == Passed(s) - {id}
      && (AllFresh(lim, s) ==> AllFresh(lim, t))
  {
    assert Leave(s, id).inFlight.Keys == s.inFlight.Keys - {id};
  }

  lemma ArriveEffect(lim: Limits, s: System, id: nat, now: int)
    requires Close(lim, s.inFlight) && MayArrive(lim, s, id, now)
    ensures var t := Arrived(s, id, now);
      && |t.inFlight| == |s.inFlight| + 1 && Close(lim, t.inFlight) && Passed(t) == Passed(s)
      && (AllFresh(lim, s) ==> AllFresh(lim, t))
  {
    hide Outstanding;
    assert Arrived(s, id, now).inFlight.Keys == s.inFlight.Keys + {id};
  }

  lemma ArriveKeeps(lim: Limits, s: System, id: nat, now: int)
    requires Inv(lim, s) && MayArrive(lim, s, id, now)
    ensures Inv(lim, Arrived(s, id, now))
  {
    hide Outstanding, Close, AllFresh, Passed;
    ArriveEffect(lim, s, id, now);
  }

  lemma NotPassed(s: System, id: nat)
    requires id in s.inFlight && s.inFlight[id].pc != ToInsert
    ensures Passed(s) - {id} == Passed(s)
  {
  }

  lemma MoveKeeps(lim: Limits, s: System, id: nat)
    requires Inv(lim, s) && At(s, id, ToCheck)
    ensures Inv(lim, Goto(s, id, ToExpire)) && Inv(lim, Leave(s, id))
  {
    hide Outstanding, Close, AllFresh, Passed;
    GotoEffect(lim, s, id, ToExpire);
    LeaveEffect(lim, s, id);
    NotPassed(s, id);
  }

  lemma ExpireKeeps(lim: Limits, s: System, id: nat)
    requires Inv(lim, s) && At(s, id, ToExpire)
    ensures Inv(lim, Goto(s, id, ToCount).(attempts := Expire(s.attempts, lim.sid, s.inFlight[id].now - lim.window)))
  {
    hide Close, AllFresh, Expire, Outstanding;
    var cutoff := s.inFlight[id].now - lim.window;
    var expired := Expire(s.attempts, lim.sid, cutoff);
    GotoEffect(lim, s, id, ToCount);
    assert Passed(Goto(s, id, ToCount).(attempts := expired)) == Passed(Goto(s, id, ToCount));
    ExpiredSubset(s.attempts, lim.sid, cutoff);
    SubsetSize(Outstanding(expired, lim.sid), Outstanding(s.attempts, lim.sid));
    ExpireFreshens(lim, s, id);
  }

  lemma ExpireFreshens(lim: Limits, s: System, id: nat)
    requires AllFresh(lim, s) && At(s, id, ToExpire)
    ensures var expired := Expire(s.attempts, lim.sid, s.inFlight[id].now - lim.window);
      AllFresh(lim, Goto(s, id, ToCount).(attempts := expired))
  {
    ExpiredSubset(s.attempts, lim.sid, s.inFlight[id].now - lim.window);
    hide Expire, Outstanding;
  }

  lemma ExpiredSubset(attempts: seq<Attempt>, sid: string, cutoff: int)
    ensures var expired := Expire(attempts, sid, cutoff);
      && Outstanding(expired, sid) <= Outstanding(attempts, sid)
      && forall i :: i in Outstanding(expired, sid) ==> expired[i] == attempts[i] && attempts[i].attemptedAt >= cutoff
  {
    assert forall i :: 0 <= i < |attempts| ==> Expire(attempts, sid, cutoff)[i] == ExpireRow(attempts[i], sid, cutoff);
  }

  /** The check: a request passes only when every outstanding attempt was counted. */
  lemma CountKeeps(lim: Limits, s: System, id: nat, pc: Pc)
    requires Inv(lim, s) && At(s, id, ToCount)
    requires pc == if |Fresh(s.attempts, lim.sid, s.inFlight[id].now - lim.window)| >= lim.maxBlockAttempts
                   then ToSkip else ToInsert
    ensures Inv(lim, Goto(s, id, pc))
  {
    hide Close, Passed;
    GotoEffect(lim, s, id, pc);
    PassedFits(Goto(s, id, pc));
    assert Fresh(s.attempts, lim.sid, s.inFlight[id].now - lim.window) == Outstanding(s.attempts, lim.sid);
  }

  lemma AppendKeeps(lim: Limits, s: System, id: nat, a: Attempt)
    requires Inv(lim, s) && id in s.inFlight && a.session == lim.sid && a.attemptedAt == s.inFlight[id].now
    requires a.status == Requested ==> s.inFlight[id].pc == ToInsert
    ensures Inv(lim, Leave(s, id).(attempts := s.attempts + [a]))
  {
    var t := Leave(s, id).(attempts := s.attempts + [a]);
    LeaveEffect(lim, s, id);
    Runs.OutstandingSnoc(s.attempts, a, lim.sid);
    assert Passed(t) == Passed(s) - {id};
    SubsetSize(Passed(t), Passed(s));
    assert forall i :: i in Outstanding(t.attempts, lim.sid) ==>
      i in Outstanding(s.attempts, lim.sid) || (i == |s.attempts| && a.status == Requested);
  }

  lemma CompleteKeeps(lim: Limits, s: System, now: int)
    requires Inv(lim, s)
    ensures Inv(lim, s.(attempts := MarkCompleted(s.attempts, lim.sid, now)))
  {
    var t := s.(attempts := MarkCompleted(s.attempts, lim.sid, now));
    Runs.CompleteShrinks(s.attempts, lim.sid, now, lim.sid);
    assert Passed(t) == Passed(s);
    assert forall i :: i in Outstanding(t.attempts, lim.sid) ==>
      i in Outstanding(s.attempts, lim.sid) && t.attempts[i] == s.attempts[i];
  }

  lemma StepKeepsInv(lim: Limits, s: System, a: Action)
    requires Inv(lim, s) && Step(lim, s, a).Some?
    ensures Inv(lim, Step(lim, s, a).value)
  {
    hide Inv, Expire, MarkCompleted, Fresh;
    match a {
      case Arrive(id, now) => ArriveKeeps(lim, s, id, now);
      case CheckNeeds(id) => MoveKeeps(lim, s, id);
      case ExpireOld(id) => ExpireKeeps(lim, s, id);
      case Count(id) => CountKeeps(lim, s, id, Step(lim, s, a).value.inFlight[id].pc);
      case Insert(id) => AppendKeeps(lim, s, id, Attempt(lim.sid, Requested, "", s.inFlight[id].now, None));
      case Skip(id) => AppendKeeps(lim, s, id, Attempt(lim.sid, Skipped, "max attempts", s.inFlight[id].now, None));
      case Complete(now) => CompleteKeeps(lim, s, now);
      case SetNeeded(needed) => NeededKeeps(lim, s, needed);
    }
  }

  lemma NeededKeeps(lim: Limits, s: System, needed: bool)
    requires Inv(lim, s)
    ensures Inv(lim, s.(needed := needed))
  {
    hide Outstanding;
    assert Passed(s.(needed := needed)) == Passed(s);
  }

  lemma {:induction false} RunKeepsInv(lim: Limits, actions: seq<Action>)
    requires Run(lim, actions).Some?
    ensures Inv(lim, Run(lim, actions).value)
    decreases |actions|
  {
    if actions == [] {
      assert Outstanding([], lim.sid) == {} && Passed(INITIAL) == {};
    } else {
      hide Step, Inv;
      var n := |actions| - 1;
      RunKeepsInv(lim, actions[..n]);
      StepKeepsInv(lim, Run(lim, actions[..n]).value, actions[n]);
    }
  }

  /** In every interleaving with at most C requests in flight, overlapping clock readings
      within one window, outstanding attempts and requests past the check never exceed
      maxBlockAttempts + C - 1. */
  lemma OvershootBound(lim: Limits, actions: seq<Action>)
    requires lim.concurrency > 0 && lim.maxBlockAttempts > 0 && Run(lim, actions).Some?
    ensures var s := Run(lim, actions).value;
      Load(lim, s) <= lim.maxBlockAttempts + lim.concurrency - 1
  {
    RunKeepsInv(lim, actions);
  }

  // ---------------------------------------------------------------- the bound is reached

  /** `n` outstanding attempts, all made at time 0. */
  function Burst(lim: Limits, n: nat): (r: seq<Attempt>)
    ensures |r| == n
    ensures forall i :: 0 <= i < n ==> r[i] == Attempt(lim.sid, Requested, "", 0, None)
  {
    seq(n, i => Attempt(lim.sid, Requested, "", 0, None))
  }

  lemma BurstCounts(lim: Limits, n: nat)
    ensures Expire(Burst(lim, n), lim.sid, 0 - lim.window) == Burst(lim, n)
    ensures |Outstanding(Burst(lim, n), lim.sid)| == n
    ensures |Fresh(Burst(lim, n), lim.sid, 0 - lim.window)| == n
  {
    var b := Burst(lim, n);
    assert forall i :: 0 <= i < n ==> Expire(b, lim.sid, 0 - lim.window)[i] == ExpireRow(b[i], lim.sid, 0 - lim.window);
    assert Outstanding(b, lim.sid) == Fresh(b, lim.sid, 0 - lim.window) == Below(n);
  }

  /** `c` requests past the check, none inserted yet. */
  function Waiting(c: nat): map<nat, Request> {
    map i | i in Below(c) :: Request(0, ToInsert)
  }

  /** Requests arrive at time 0, and no save completes an attempt. */
  predicate Plain(a: Action) {
    (a.Arrive? ==> a.now == 0) && !a.Complete?
  }

  ghost predicate Reaches(lim: Limits, actions: seq<Action>, s: System) {
    Run(lim, actions) == Some(s) && AllPlain(actions)
  }

  ghost predicate AllPlain(actions: seq<Action>) {
    forall k :: 0 <= k < |actions| ==> Plain(actions[k])
  }

  lemma PlainSnoc(actions: seq<Action>, a: Action)
    requires AllPlain(actions) && Plain(a)
    ensures AllPlain(actions + [a])
  {
  }

  lemma RunSnoc(lim: Limits, actions: seq<Action>, s: System, a: Action)
    requires Run(lim, actions) == Some(s)
    ensures Run(lim, actions + [a]) == Step(lim, s, a)
  {
    assert (actions + [a])[..|actions|] == actions;
  }

  lemma Extend(lim: Limits, actions: seq<Action>, s: System, a: Action) returns (longer: seq<Action>)
    requires Reaches(lim, actions, s) && Step(lim, s, a).Some? && Plain(a)
    ensures Reaches(lim, longer, Step(lim, s, a).value)
  {
    hide Step, Run, Plain, AllPlain;
    longer := actions + [a];
    RunSnoc(lim, actions, s, a);
    PlainSnoc(actions, a);
  }

  /** `c` requests past the check and one more, about to run `pc`. */
  function WaitingAnd(lim: Limits, n: nat, c: nat, pc: Pc): System {
    System(Burst(lim, n), Waiting(c)[c := Request(0, pc)], true)
  }

  lemma NextStatement(lim: Limits, n: nat, c: nat, pc: Pc, pc': Pc)
    ensures At(WaitingAnd(lim, n, c, pc), c, pc)
    ensures Goto(WaitingAnd(lim, n, c, pc), c, pc') == WaitingAnd(lim, n, c, pc')
  {
    hide Burst, Waiting;
    assert Waiting(c)[c := Request(0, pc)][c := Request(0, pc')] == Waiting(c)[c := Request(0, pc')];
  }

  lemma FirstStatement(lim: Limits, n: nat, c: nat)
    requires c < lim.concurrency
    ensures Step(lim, System(Burst(lim, n), Waiting(c), true), Arrive(c, 0)) == Some(WaitingAnd(lim, n, c, ToCheck))
    ensures WaitingAnd(lim, n, c, ToInsert) == System(Burst(lim, n), Waiting(c + 1), true)
  {
    hide Burst;
    WaitingSize(c);
    hide Waiting;
  }

  lemma WaitingSize(c: nat)
    ensures |Waiting(c)| == c && c !in Waiting(c)
    ensures forall r :: r in Waiting(c) ==> Waiting(c)[r].now == 0
    ensures Waiting(c)[c := Request(0, ToInsert)] == Waiting(c + 1)
  {
    assert Waiting(c).Keys == Below(c);
  }

  /** The statements of one more request at time 0, from its arrival to the check. */
  lemma StatementsOfOne(lim: Limits, n: nat, c: nat)
    requires n < lim.maxBlockAttempts
    ensures Step(lim, WaitingAnd(lim, n, c, ToCheck), CheckNeeds(c)) == Some(WaitingAnd(lim, n, c, ToExpire))
    ensures Step(lim, WaitingAnd(lim, n, c, ToExpire), ExpireOld(c)) == Some(WaitingAnd(lim, n, c, ToCount))
    ensures Step(lim, WaitingAnd(lim, n, c, ToCount), Count(c)) == Some(WaitingAnd(lim, n, c, ToInsert))
  {
    hide Burst, Expire, Fresh, Goto, Waiting;
    BurstCounts(lim, n);
    NextStatement(lim, n, c, ToCheck, ToExpire);
    NextStatement(lim, n, c, ToExpire, ToCount);
    NextStatement(lim, n, c, ToCount, ToInsert);
    NextStatement(lim, n, c, ToInsert, ToInsert);
  }

  lemma PassOne(lim: Limits, actions: seq<Action>, n: nat, c: nat) returns (longer: seq<Action>)
    requires n < lim.maxBlockAttempts && c < lim.concurrency
    requires Reaches(lim, actions, System(Burst(lim, n), Waiting(c), true))
    ensures Reaches(lim, longer, System(Burst(lim, n), Waiting(c + 1), true))
  {
    hide Run, Step, Burst, Waiting, WaitingAnd, Reaches;
    FirstStatement(lim, n, c);
    StatementsOfOne(lim, n, c);
    longer := Extend(lim, actions, System(Burst(lim, n), Waiting(c), true), Arrive(c, 0));
    longer := Extend(lim, longer, WaitingAnd(lim, n, c, ToCheck), CheckNeeds(c));
    longer := Extend(lim, longer, WaitingAnd(lim, n, c, ToExpire), ExpireOld(c));
    longer := Extend(lim, longer, WaitingAnd(lim, n, c, ToCount), Count(c));
  }

  /** Requests run whole one after another leave `n` outstanding attempts. */
  lemma {:induction false} FillUp(lim: Limits, n: nat) returns (actions: seq<Action>)
    requires lim.concurrency > 0 && n < lim.maxBlockAttempts
    ensures Reaches(lim, actions, System(Burst(lim, n), Waiting(0), true))
    decreases n
  {
    if n == 0 {
      assert Reaches(lim, [], INITIAL);
      actions := Extend(lim, [], INITIAL, SetNeeded(true));
      assert Burst(lim, 0) == [] && Waiting(0) == map[];
    } else {
      actions := FillUp(lim, n - 1);
      actions := PassOne(lim, actions, n - 1, 0);
      actions := Extend(lim, actions, System(Burst(lim, n - 1), Waiting(1), true), Insert(0));
      assert Waiting(1) - {0} == Waiting(0);
      assert Burst(lim, n - 1) + [Attempt(lim.sid, Requested, "", 0, None)] == Burst(lim, n);
    }
  }

  lemma {:induction false} PassMany(lim: Limits, c: nat) returns (actions: seq<Action>)
    requires lim.maxBlockAttempts > 0 && 0 < lim.concurrency && c <= lim.concurrency
    ensures Reaches(lim, actions, System(Burst(lim, lim.maxBlockAttempts - 1), Waiting(c), true))
    decreases c
  {
    if c == 0 {
      actions := FillUp(lim, lim.maxBlockAttempts - 1);
    } else {
      actions := PassMany(lim, c - 1);
      actions := PassOne(lim, actions, lim.maxBlockAttempts - 1, c - 1);
    }
  }

  /** The bound is reached for every maximum, window and concurrency. */
  lemma OvershootReached(lim: Limits) returns (actions: seq<Action>)
    requires lim.concurrency > 0 && lim.maxBlockAttempts > 0
    ensures Run(lim, actions).Some?
    ensures var s := Run(lim, actions).value;
      Load(lim, s) == lim.maxBlockAttempts + lim.concurrency - 1
  {
    actions := PassMany(lim, lim.concurrency);
    BurstCounts(lim, lim.maxBlockAttempts - 1);
    assert Passed(System(Burst(lim, lim.maxBlockAttempts - 1), Waiting(lim.concurrency), true)) ==
      Below(lim.concurrency);
  }
}
