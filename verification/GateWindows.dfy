/** How many prompts interleaved requests can put into one window: the windowed form of the
    overshoot (internal/server/server.go:499-532). A save changes what the needs check answers
    before it completes an attempt (internal/mcp/server.go:272-309). */
module GateWindows {
  import opened CompactionGate
  import opened GateInterleaving
  import opened Outcomes
  import opened Sets
  import Runs = CompactionRuns

  /** The rows that prompts left, now requested, failed or completed, with clock readings in the
      closed window from `w`. Rows are never deleted, and only `Skip` makes skipped ones. */
  ghost function PromptRows(lim: Limits, attempts: seq<Attempt>, w: int): set<nat> {
    set i | 0 <= i < |attempts| && IsPrompt(lim, attempts[i], w)
  }

  predicate IsPrompt(lim: Limits, a: Attempt, w: int) {
    a.status != Skipped && Inside(lim, a.attemptedAt, w)
  }

  predicate Inside(lim: Limits, t: int, w: int) {
    w <= t <= w + lim.window
  }

  /** Requests in flight that may still prompt inside the window. Once a save completed an
      attempt, those that have not passed the needs check no longer may. */
  ghost function Potential(lim: Limits, s: System, w: int, done: bool): set<nat> {
    set r | r in s.inFlight && Inside(lim, s.inFlight[r].now, w) && (done ==> s.inFlight[r].pc != ToCheck)
  }

  // ---------------------------------------------------------------- what a run did

  predicate IsLate(lim: Limits, a: Action, w: int) {
    a.Arrive? && a.now > w + lim.window
  }

  /** A request arrived after the window. */
  ghost predicate Late(lim: Limits, actions: seq<Action>, w: int) {
    exists k :: 0 <= k < |actions| && IsLate(lim, actions[k], w)
  }

  /** A save completed an attempt. */
  ghost predicate Done(actions: seq<Action>) {
    exists k :: 0 <= k < |actions| && actions[k].Complete?
  }

  /** Requests arrive in the order of their clock readings. */
  ghost predicate ArriveInOrder(actions: seq<Action>) {
    forall i, j :: 0 <= i < j < |actions| && actions[i].Arrive? && actions[j].Arrive? ==>
      actions[i].now <= actions[j].now
  }

  /** A save is stored before it completes an attempt, and what it stored is kept. */
  ghost predicate SavesStay(lim: Limits, actions: seq<Action>) {
    && (forall k :: 0 <= k < |actions| && actions[k].Complete? ==>
         var s := Run(lim, actions[..k]); s.Some? ==> !s.value.needed)
    && forall j, k :: 0 <= j < k < |actions| && actions[j].Complete? ==> actions[k] != SetNeeded(true)
  }

  // ---------------------------------------------------------------- the bound

  function Unit(b: bool): nat {
    if b then 1 else 0
  }

  function Bound(lim: Limits, done: bool): int {
    lim.maxBlockAttempts + 2 * lim.concurrency - 2 + Unit(done)
  }

  ghost predicate Windowed(lim: Limits, s: System, w: int, late: bool, done: bool) {
    && (!late ==> forall r :: r in s.inFlight ==> s.inFlight[r].now <= w + lim.window)
    && (done ==> !s.needed)
    && (if late || done then |PromptRows(lim, s.attempts, w)| + |Potential(lim, s, w, done)| <= Bound(lim, done)
        else PromptRows(lim, s.attempts, w) <= Outstanding(s.attempts, lim.sid))
  }

  lemma RowsAfterExpire(lim: Limits, attempts: seq<Attempt>, cutoff: int, w: int)
    ensures PromptRows(lim, Expire(attempts, lim.sid, cutoff), w) == PromptRows(lim, attempts, w)
    ensures cutoff <= w && PromptRows(lim, attempts, w) <= Outstanding(attempts, lim.sid) ==>
      PromptRows(lim, attempts, w) <= Outstanding(Expire(attempts, lim.sid, cutoff), lim.sid)
  {
    var after := Expire(attempts, lim.sid, cutoff);
    assert forall i :: 0 <= i < |attempts| ==> after[i] == ExpireRow(attempts[i], lim.sid, cutoff);
    assert forall i :: 0 <= i < |attempts| ==> (IsPrompt(lim, after[i], w) <==> IsPrompt(lim, attempts[i], w));
    hide Expire;
  }

  lemma RowsAfterComplete(lim: Limits, attempts: seq<Attempt>, now: int, w: int)
    ensures PromptRows(lim, MarkCompleted(attempts, lim.sid, now), w) == PromptRows(lim, attempts, w)
  {
    var after := MarkCompleted(attempts, lim.sid, now);
    assert forall i :: 0 <= i < |attempts| ==> (IsPrompt(lim, after[i], w) <==> IsPrompt(lim, attempts[i], w));
    hide MarkCompleted, IsPrompt;
    assert |after| == |attempts|;
  }

  lemma RowsSnoc(lim: Limits, attempts: seq<Attempt>, a: Attempt, w: int)
    ensures PromptRows(lim, attempts + [a], w)
      == PromptRows(lim, attempts, w) + if IsPrompt(lim, a, w) then {|attempts|} else {}
  {
    hide IsPrompt;
  }

  lemma PotentialFits(lim: Limits, s: System, w: int, done: bool)
    ensures |Potential(lim, s, w, done)| <= |s.inFlight|
  {
    SubsetSize(Potential(lim, s, w, done), s.inFlight.Keys);
    assert |s.inFlight.Keys| == |s.inFlight|;
  }

  lemma PotentialShrinks(lim: Limits, s: System, done: bool, t: System, done': bool, w: int)
    requires Potential(lim, t, w, done') <= Potential(lim, s, w, done)
    ensures |Potential(lim, t, w, done')| <= |Potential(lim, s, w, done)|
  {
    SubsetSize(Potential(lim, t, w, done'), Potential(lim, s, w, done));
  }

  /** Before anything late or completed, the rows in the window are all outstanding. */
  lemma RowsOutstanding(lim: Limits, s: System, w: int)
    requires Inv(lim, s) && lim.maxBlockAttempts > 0 && lim.concurrency > 0
    requires PromptRows(lim, s.attempts, w) <= Outstanding(s.attempts, lim.sid)
    ensures |PromptRows(lim, s.attempts, w)| <= lim.maxBlockAttempts + lim.concurrency - 1
  {
    SubsetSize(PromptRows(lim, s.attempts, w), Outstanding(s.attempts, lim.sid));
  }

  lemma ArriveWindowed(lim: Limits, s: System, w: int, late: bool, done: bool, id: nat, now: int)
    requires Inv(lim, s) && lim.maxBlockAttempts > 0 && lim.concurrency > 0 && Windowed(lim, s, w, late, done)
    requires MayArrive(lim, s, id, now) && (late ==> now > w + lim.window)
    ensures Windowed(lim, Arrived(s, id, now), w, late || now > w + lim.window, done)
  {
    var t := Arrived(s, id, now);
    hide PromptRows, Outstanding, Inv;
    if late || done {
      PotentialShrinks(lim, s, done, t, done, w);
    } else if now > w + lim.window {
      RowsOutstanding(lim, s, w);
      PotentialFits(lim, s, w, done);
      PotentialShrinks(lim, s, done, t, done, w);
    }
  }

  lemma MoveWindowed(lim: Limits, s: System, w: int, late: bool, done: bool, id: nat, pc: Pc)
    requires Windowed(lim, s, w, late, done) && id in s.inFlight
    requires s.inFlight[id].pc == ToCheck ==> !done
    ensures Windowed(lim, Goto(s, id, pc), w, late, done)
  {
    hide PromptRows, Outstanding;
    PotentialShrinks(lim, s, done, Goto(s, id, pc), done, w);
  }

  lemma LeaveWindowed(lim: Limits, s: System, w: int, late: bool, done: bool, id: nat)
    requires Windowed(lim, s, w, late, done)
    ensures Windowed(lim, Leave(s, id), w, late, done)
  {
    hide PromptRows, Outstanding;
    PotentialShrinks(lim, s, done, Leave(s, id), done, w);
  }

  lemma ExpireWindowed(lim: Limits, s: System, w: int, late: bool, done: bool, cutoff: int)
    requires Windowed(lim, s, w, late, done) && (!late ==> cutoff <= w)
    ensures Windowed(lim, s.(attempts := Expire(s.attempts, lim.sid, cutoff)), w, late, done)
  {
    var t := s.(attempts := Expire(s.attempts, lim.sid, cutoff));
    RowsAfterExpire(lim, s.attempts, cutoff, w);
    hide PromptRows, Outstanding, Expire;
    PotentialShrinks(lim, s, done, t, done, w);
  }

  lemma CompleteWindowed(lim: Limits, s: System, w: int, late: bool, done: bool, now: int)
    requires Inv(lim, s) && lim.maxBlockAttempts > 0 && lim.concurrency > 0 && Windowed(lim, s, w, late, done)
    requires !s.needed
    ensures Windowed(lim, s.(attempts := MarkCompleted(s.attempts, lim.sid, now)), w, late, true)
  {
    var t := s.(attempts := MarkCompleted(s.attempts, lim.sid, now));
    RowsAfterComplete(lim, s.attempts, now, w);
    hide PromptRows, Outstanding, MarkCompleted;
    PotentialShrinks(lim, s, done, t, true, w);
    if !late && !done {
      RowsOutstanding(lim, s, w);
      PotentialFits(lim, t, w, true);
    }
  }

  /** A row is appended as its request leaves. */
  lemma AppendWindowed(lim: Limits, s: System, w: int, late: bool, done: bool, id: nat, a: Attempt)
    requires Windowed(lim, s, w, late, done) && id in s.inFlight && s.inFlight[id].pc != ToCheck
    requires a.session == lim.sid && a.attemptedAt == s.inFlight[id].now
    requires a.status == Requested || a.status == Skipped
    ensures Windowed(lim, Leave(s, id).(attempts := s.attempts + [a]), w, late, done)
  {
    var t := Leave(s, id).(attempts := s.attempts + [a]);
    RowsSnoc(lim, s.attempts, a, w);
    LeavesPotential(lim, s, w, done, id);
    assert Potential(lim, t, w, done) == Potential(lim, Leave(s, id), w, done);
    if !late && !done {
      assert forall i :: i in Outstanding(s.attempts, lim.sid) ==> i in Outstanding(t.attempts, lim.sid);
      assert a.status == Requested ==> |s.attempts| in Outstanding(t.attempts, lim.sid);
    }
    hide PromptRows, Outstanding, Potential;
  }

  lemma LeavesPotential(lim: Limits, s: System, w: int, done: bool, id: nat)
    requires id in s.inFlight && s.inFlight[id].pc != ToCheck
    ensures |Potential(lim, Leave(s, id), w, done)| + Unit(Inside(lim, s.inFlight[id].now, w)) ==
      |Potential(lim, s, w, done)|
  {
    assert Potential(lim, Leave(s, id), w, done) == Potential(lim, s, w, done) - {id};
  }

  lemma StepWindowed(lim: Limits, s: System, a: Action, w: int, late: bool, done: bool)
    requires Inv(lim, s) && lim.maxBlockAttempts > 0 && lim.concurrency > 0 && Windowed(lim, s, w, late, done)
    requires Step(lim, s, a).Some?
    requires late && a.Arrive? ==> a.now > w + lim.window
    requires (a.Complete? ==> !s.needed) && (done ==> a != SetNeeded(true))
    ensures Windowed(lim, Step(lim, s, a).value, w, late || IsLate(lim, a, w), done || a.Complete?)
  {
    match a {
      case Arrive(id, now) =>
        hide Windowed, Inv, Arrived, MayArrive;
        ArriveWindowed(lim, s, w, late, done, id, now);
      case CheckNeeds(id) =>
        assert done ==> !s.needed;
        hide Windowed, Inv, Goto, Leave;
        if s.needed {
          MoveWindowed(lim, s, w, late, done, id, ToExpire);
        } else {
          LeaveWindowed(lim, s, w, late, done, id);
        }
      case ExpireOld(id) =>
        var cutoff := s.inFlight[id].now - lim.window;
        assert !late ==> cutoff <= w;
        hide Windowed, Inv, Expire;
        MoveWindowed(lim, s, w, late, done, id, ToCount);
        ExpireWindowed(lim, Goto(s, id, ToCount), w, late, done, cutoff);
      case Count(id) =>
        hide Windowed, Inv, Goto, Fresh;
        MoveWindowed(lim, s, w, late, done, id, ToSkip);
        MoveWindowed(lim, s, w, late, done, id, ToInsert);
      case Insert(id) =>
        hide Windowed, Inv, Leave;
        AppendWindowed(lim, s, w, late, done, id, Attempt(lim.sid, Requested, "", s.inFlight[id].now, None));
      case Skip(id) =>
        hide Windowed, Inv, Leave;
        AppendWindowed(lim, s, w, late, done, id, Attempt(lim.sid, Skipped, "max attempts", s.inFlight[id].now, None));
      case Complete(now) =>
        hide Windowed, Inv, MarkCompleted;
        CompleteWindowed(lim, s, w, late, done, now);
      case SetNeeded(needed) =>
        hide PromptRows, Outstanding;
        PotentialShrinks(lim, s, done, s.(needed := needed), done, w);
    }
  }

  lemma HistorySnoc(lim: Limits, actions: seq<Action>, a: Action, w: int)
    ensures Late(lim, actions + [a], w) <==> Late(lim, actions, w) || IsLate(lim, a, w)
    ensures Done(actions + [a]) <==> Done(actions) || a.Complete?
  {
    var more := actions + [a];
    assert more[|actions|] == a && forall k :: 0 <= k < |actions| ==> more[k] == actions[k];
  }

  lemma {:induction false} RunWindowed(lim: Limits, actions: seq<Action>, w: int)
    requires lim.maxBlockAttempts > 0 && lim.concurrency > 0 && Run(lim, actions).Some?
    requires ArriveInOrder(actions) && SavesStay(lim, actions)
    ensures Windowed(lim, Run(lim, actions).value, w, Late(lim, actions, w), Done(actions))
    decreases |actions|
  {
    if actions == [] {
      assert PromptRows(lim, [], w) == {};
    } else {
      var n := |actions| - 1;
      var rest, last := actions[..n], actions[n];
      assert actions == rest + [last];
      assert forall k :: 0 <= k < n ==> rest[..k] == actions[..k];
      assert Late(lim, rest, w) && last.Arrive? ==> last.now > w + lim.window;
      assert Done(rest) ==> last != SetNeeded(true);
      HistorySnoc(lim, rest, last, w);
      hide Windowed, Step, Inv, Late, Done;
      RunWindowed(lim, rest, w);
      RunKeepsInv(lim, rest);
      StepWindowed(lim, Run(lim, rest).value, last, w, Late(lim, rest, w), Done(rest));
    }
  }

  /** In every interleaving of at most C requests, arriving in the order of their clock readings,
      any closed window as long as the attempt TTL holds at most maxBlockAttempts + 2 C - 2
      prompts while no save completes an attempt, and one more otherwise. */
  lemma WindowOvershoot(lim: Limits, actions: seq<Action>, w: int)
    requires lim.maxBlockAttempts > 0 && lim.concurrency > 0 && Run(lim, actions).Some?
    requires ArriveInOrder(actions) && SavesStay(lim, actions)
    ensures |PromptRows(lim, Run(lim, actions).value.attempts, w)|
      <= lim.maxBlockAttempts + 2 * lim.concurrency - 2 + Unit(Done(actions))
  {
    RunWindowed(lim, actions, w);
    RunKeepsInv(lim, actions);
    if !Late(lim, actions, w) && !Done(actions) {
      RowsOutstanding(lim, Run(lim, actions).value, w);
    }
  }

  // ---------------------------------------------------------------- the bound is reached

  /** A run at time 0 whose saves are stored before they complete. */
  ghost predicate Leads(lim: Limits, actions: seq<Action>, s: System) {
    && Run(lim, actions) == Some(s) && SavesStay(lim, actions)
    && forall k :: 0 <= k < |actions| && actions[k].Arrive? ==> actions[k].now == 0
  }

  lemma PlainLeads(lim: Limits, actions: seq<Action>, s: System)
    requires Reaches(lim, actions, s)
    ensures Leads(lim, actions, s)
  {
    assert forall k :: 0 <= k < |actions| ==> Plain(actions[k]);
  }

  lemma Continue(lim: Limits, actions: seq<Action>, s: System, a: Action) returns (longer: seq<Action>)
    requires Leads(lim, actions, s) && Step(lim, s, a).Some?
    requires (a.Arrive? ==> a.now == 0) && (a.Complete? ==> !s.needed) && a != SetNeeded(true)
    ensures Leads(lim, longer, Step(lim, s, a).value) && (Done(longer) <==> Done(actions) || a.Complete?)
  {
    hide Step;
    longer := actions + [a];
    assert longer[..|actions|] == actions;
    assert forall k :: 0 <= k < |actions| ==> longer[..k] == actions[..k] && longer[k] == actions[k];
    assert longer[|actions|] == a;
  }

  /** `c` requests wait to insert; `n` rows were inserted after those in `before`. */
  function Inserting(lim: Limits, before: seq<Attempt>, n: nat, c: nat, needed: bool): System {
    System(before + Burst(lim, n), Waiting(c), needed)
  }

  lemma BurstNext(lim: Limits, before: seq<Attempt>, n: nat)
    ensures (before + Burst(lim, n)) + [Attempt(lim.sid, Requested, "", 0, None)] == before + Burst(lim, n + 1)
  {
  }

  lemma LastWaiting(c: nat)
    requires c > 0
    ensures c - 1 in Waiting(c) && Waiting(c)[c - 1] == Request(0, ToInsert) && Waiting(c) - {c - 1} == Waiting(c - 1)
  {
  }

  lemma InsertLast(lim: Limits, before: seq<Attempt>, n: nat, c: nat, needed: bool)
    requires c > 0
    ensures Step(lim, Inserting(lim, before, n, c, needed), Insert(c - 1))
      == Some(Inserting(lim, before, n + 1, c - 1, needed))
  {
    LastWaiting(c);
    BurstNext(lim, before, n);
    hide Waiting, Burst;
  }

  lemma InsertOne(lim: Limits, actions: seq<Action>, before: seq<Attempt>, n: nat, c: nat, needed: bool)
      returns (longer: seq<Action>)
    requires c > 0 && Leads(lim, actions, Inserting(lim, before, n, c, needed))
    ensures Leads(lim, longer, Inserting(lim, before, n + 1, c - 1, needed)) && (Done(actions) ==> Done(longer))
  {
    hide *;
    InsertLast(lim, before, n, c, needed);
    longer := Continue(lim, actions, Inserting(lim, before, n, c, needed), Insert(c - 1));
  }

  /** All waiting requests insert their rows. */
  lemma {:induction false} InsertAll(lim: Limits, actions: seq<Action>, before: seq<Attempt>, n: nat, c: nat,
      needed: bool) returns (longer: seq<Action>)
    requires Leads(lim, actions, Inserting(lim, before, n, c, needed))
    ensures Leads(lim, longer, Inserting(lim, before, n + c, 0, needed)) && (Done(actions) ==> Done(longer))
    decreases c
  {
    hide *;
    longer := actions;
    if c > 0 {
      longer := InsertOne(lim, actions, before, n, c, needed);
      longer := InsertAll(lim, longer, before, n + 1, c - 1, needed);
    }
  }

  lemma NoneWaiting()
    ensures Waiting(0) == map[]
  {
  }

  /** `d` requests past the needs check, the first `c` of them past the count as well. */
  function Mixed(c: nat, d: nat): map<nat, Request> {
    map i | i in Below(d) :: Request(0, if i < c then ToInsert else ToExpire)
  }

  lemma MixedGrows(lim: Limits, attempts: seq<Attempt>, d: nat)
    requires d < lim.concurrency
    ensures MayArrive(lim, System(attempts, Mixed(0, d), true), d, 0)
    ensures d !in Mixed(0, d)
    ensures Mixed(0, d)[d := Request(0, ToCheck)][d := Request(0, ToExpire)] == Mixed(0, d + 1)
  {
    assert Mixed(0, d).Keys == Below(d);
    assert |Mixed(0, d)| == |Mixed(0, d).Keys|;
  }

  /** `d` requests arrive and find that compaction is needed. */
  lemma {:induction false} CheckMany(lim: Limits, actions: seq<Action>, attempts: seq<Attempt>, d: nat)
      returns (longer: seq<Action>)
    requires Leads(lim, actions, System(attempts, map[], true)) && d <= lim.concurrency
    ensures Leads(lim, longer, System(attempts, Mixed(0, d), true))
    decreases d
  {
    if d == 0 {
      longer := actions;
      assert Mixed(0, 0) == map[];
    } else {
      hide Leads, Done;
      longer := CheckMany(lim, actions, attempts, d - 1);
      MixedGrows(lim, attempts, d - 1);
      hide Mixed, MayArrive;
      var s := System(attempts, Mixed(0, d - 1), true);
      longer := Continue(lim, longer, s, Arrive(d - 1, 0));
      longer := Continue(lim, longer, Arrived(s, d - 1, 0), CheckNeeds(d - 1));
    }
  }

  function RowAtZero(lim: Limits, outstanding: bool): Attempt {
    if outstanding then Attempt(lim.sid, Requested, "", 0, None) else Attempt(lim.sid, Completed, "", 0, Some(0))
  }

  /** `n` rows made at time 0, the last `k` of them completed. */
  function Finished(lim: Limits, n: nat, k: nat): (r: seq<Attempt>)
    requires k <= n
    ensures |r| == n
    ensures forall i :: 0 <= i < n ==> r[i] == RowAtZero(lim, i < n - k)
  {
    seq(n, i => RowAtZero(lim, i < n - k))
  }

  lemma FinishOne(lim: Limits, n: nat, k: nat)
    requires k < n
    ensures MarkCompleted(Finished(lim, n, k), lim.sid, 0) == Finished(lim, n, k + 1)
  {
    var rows, i := Finished(lim, n, k), n - k - 1;
    assert IsLatest(rows, lim.sid, i);
    CompletionEffect(rows, lim.sid, 0);
    assert rows[i := Completion(rows[i], 0)] == Finished(lim, n, k + 1);
  }

  lemma CompleteOne(lim: Limits, actions: seq<Action>, n: nat, k: nat, flight: map<nat, Request>)
      returns (longer: seq<Action>)
    requires k < n && Leads(lim, actions, System(Finished(lim, n, k), flight, false))
    ensures Leads(lim, longer, System(Finished(lim, n, k + 1), flight, false)) && Done(longer)
  {
    hide Leads, Done, Finished, MarkCompleted;
    FinishOne(lim, n, k);
    longer := Continue(lim, actions, System(Finished(lim, n, k), flight, false), Complete(0));
  }

  /** Saves complete `k` of the rows. */
  lemma {:induction false} CompleteMany(lim: Limits, actions: seq<Action>, n: nat, k: nat, flight: map<nat, Request>)
      returns (longer: seq<Action>)
    requires k <= n && Leads(lim, actions, System(Finished(lim, n, 0), flight, false))
    ensures Leads(lim, longer, System(Finished(lim, n, k), flight, false)) && (k > 0 ==> Done(longer))
    decreases k
  {
    hide *;
    longer := actions;
    if k > 0 {
      longer := CompleteMany(lim, actions, n, k - 1, flight);
      longer := CompleteOne(lim, longer, n, k - 1, flight);
    }
  }

  lemma NoneFinished(lim: Limits, n: nat)
    ensures Finished(lim, n, 0) == Burst(lim, n)
  {
  }

  lemma NoneFresh(lim: Limits, n: nat)
    ensures Expire(Finished(lim, n, n), lim.sid, 0 - lim.window) == Finished(lim, n, n)
    ensures Fresh(Finished(lim, n, n), lim.sid, 0 - lim.window) == {}
  {
    var rows := Finished(lim, n, n);
    var since := 0 - lim.window;
    assert forall i :: 0 <= i < n ==> Expire(rows, lim.sid, since)[i] == ExpireRow(rows[i], lim.sid, since);
  }

  /** All rows completed; of `d` requests past the needs check `c` are past the count. */
  function Counted(lim: Limits, n: nat, c: nat, d: nat): System {
    System(Finished(lim, n, n), Mixed(c, d), false)
  }

  /** Request `c` is about to count. */
  function Counting(lim: Limits, n: nat, c: nat, d: nat): System {
    System(Finished(lim, n, n), Mixed(c, d)[c := Request(0, ToCount)], false)
  }

  lemma MixedMoves(c: nat, d: nat)
    requires c < d
    ensures c in Mixed(c, d) && Mixed(c, d)[c] == Request(0, ToExpire)
    ensures Mixed(c, d)[c := Request(0, ToCount)][c := Request(0, ToInsert)] == Mixed(c + 1, d)
  {
  }

  lemma ExpireNext(lim: Limits, n: nat, c: nat, d: nat)
    requires c < d
    ensures Step(lim, Counted(lim, n, c, d), ExpireOld(c)) == Some(Counting(lim, n, c, d))
  {
    NoneFresh(lim, n);
    MixedMoves(c, d);
    hide Finished, Mixed, Expire, Fresh;
  }

  lemma CountNext(lim: Limits, n: nat, c: nat, d: nat)
    requires c < d && lim.maxBlockAttempts > 0
    ensures Step(lim, Counting(lim, n, c, d), Count(c)) == Some(Counted(lim, n, c + 1, d))
  {
    NoneFresh(lim, n);
    MixedMoves(c, d);
    hide Finished, Mixed, Expire, Fresh;
  }

  lemma CountOne(lim: Limits, actions: seq<Action>, n: nat, c: nat, d: nat) returns (longer: seq<Action>)
    requires Leads(lim, actions, Counted(lim, n, c, d)) && c < d && lim.maxBlockAttempts > 0
    ensures Leads(lim, longer, Counted(lim, n, c + 1, d)) && (Done(actions) ==> Done(longer))
  {
    hide *;
    ExpireNext(lim, n, c, d);
    longer := Continue(lim, actions, Counted(lim, n, c, d), ExpireOld(c));
    CountNext(lim, n, c, d);
    longer := Continue(lim, longer, Counting(lim, n, c, d), Count(c));
  }

  /** The requests past the needs check count, and all of them pass. */
  lemma {:induction false} CountMany(lim: Limits, actions: seq<Action>, n: nat, c: nat, d: nat)
      returns (longer: seq<Action>)
    requires Leads(lim, actions, Counted(lim, n, 0, d)) && c <= d && lim.maxBlockAttempts > 0
    ensures Leads(lim, longer, Counted(lim, n, c, d)) && (Done(actions) ==> Done(longer))
    decreases c
  {
    hide *;
    longer := actions;
    if c > 0 {
      longer := CountMany(lim, actions, n, c - 1, d);
      longer := CountOne(lim, longer, n, c - 1, d);
    }
  }

  lemma AllInside(lim: Limits, n: nat, c: nat)
    ensures |PromptRows(lim, Finished(lim, n, n) + Burst(lim, c), 0)| == n + c
  {
    var rows := Finished(lim, n, n) + Burst(lim, c);
    assert forall i :: 0 <= i < n + c ==> IsPrompt(lim, rows[i], 0);
    assert PromptRows(lim, rows, 0) == Below(n + c);
  }

  /** Whole and overlapping requests leave maxBlockAttempts + C - 1 outstanding rows. */
  lemma {:induction false} Overshoot(lim: Limits) returns (actions: seq<Action>)
    requires lim.maxBlockAttempts > 0 && lim.concurrency > 0
    ensures Leads(lim, actions, System(Burst(lim, lim.maxBlockAttempts + lim.concurrency - 1), map[], true))
  {
    var m, c := lim.maxBlockAttempts - 1, lim.concurrency;
    hide Leads, Burst, Waiting;
    actions := PassMany(lim, c);
    PlainLeads(lim, actions, System(Burst(lim, m), Waiting(c), true));
    NothingBefore(Burst(lim, m));
    NothingBefore(Burst(lim, m + c));
    NoneWaiting();
    actions := InsertAll(lim, actions, [], m, c, true);
  }

  lemma NothingBefore(rows: seq<Attempt>)
    ensures [] + rows == rows
  {
  }

  /** From there C more requests pass the needs check, a memory is saved, and saves complete every
      attempt. */
  lemma {:induction false} CompleteAll(lim: Limits, actions: seq<Action>, n: nat) returns (longer: seq<Action>)
    requires Leads(lim, actions, System(Burst(lim, n), map[], true)) && n > 0
    ensures Leads(lim, longer, Counted(lim, n, 0, lim.concurrency)) && Done(longer)
  {
    hide Leads, Done, Burst, Finished, Mixed;
    longer := CheckMany(lim, actions, Burst(lim, n), lim.concurrency);
    longer := Continue(lim, longer, System(Burst(lim, n), Mixed(0, lim.concurrency), true), SetNeeded(false));
    NoneFinished(lim, n);
    longer := CompleteMany(lim, longer, n, n, Mixed(0, lim.concurrency));
  }

  /** The waiting requests find nothing to count, and all of them prompt. */
  lemma {:induction false} PromptAll(lim: Limits, actions: seq<Action>, n: nat) returns (longer: seq<Action>)
    requires Leads(lim, actions, Counted(lim, n, 0, lim.concurrency)) && Done(actions) && lim.maxBlockAttempts > 0
    ensures Leads(lim, longer, System(Finished(lim, n, n) + Burst(lim, lim.concurrency), map[], false)) && Done(longer)
  {
    var c := lim.concurrency;
    hide Leads, Done;
    longer := CountMany(lim, actions, n, c, c);
    assert Finished(lim, n, n) + Burst(lim, 0) == Finished(lim, n, n);
    assert Mixed(c, c) == Waiting(c);
    NoneWaiting();
    hide Finished, Burst, Mixed, Waiting;
    longer := InsertAll(lim, longer, Finished(lim, n, n), 0, c, false);
  }

  /** The bound is reached for every maximum, TTL and C, even at one instant. */
  lemma {:induction false} WindowOvershootReached(lim: Limits) returns (actions: seq<Action>)
    requires lim.maxBlockAttempts > 0 && lim.concurrency > 0
    ensures Run(lim, actions).Some? && ArriveInOrder(actions) && SavesStay(lim, actions) && Done(actions)
    ensures |PromptRows(lim, Run(lim, actions).value.attempts, 0)| == lim.maxBlockAttempts + 2 * lim.concurrency - 1
  {
    hide Leads, Done, Burst, Finished, Mixed, Counted, PromptRows, Run, ArriveInOrder, SavesStay;
    var c, n := lim.concurrency, lim.maxBlockAttempts + lim.concurrency - 1;
    actions := Overshoot(lim);
    actions := CompleteAll(lim, actions, n);
    actions := PromptAll(lim, actions, n);
    AllInside(lim, n, c);
    LeadsInOrder(lim, actions, System(Finished(lim, n, n) + Burst(lim, c), map[], false));
  }

  lemma LeadsInOrder(lim: Limits, actions: seq<Action>, s: System)
    requires Leads(lim, actions, s)
    ensures Run(lim, actions) == Some(s) && ArriveInOrder(actions) && SavesStay(lim, actions)
  {
  }
}
