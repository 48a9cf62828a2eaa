/** A memory under a whole schedule of decay passes (internal/store/compaction.go). The
    exponential is a parameter with the laws of exp. */
module DecaySchedule {
  import opened MemoryStore
  import opened MemoryStoreRuns
  import opened Outcomes
  import opened Reals

  /** exp(0) = 1, sums become products, strictly increasing. */
  ghost predicate IsExp(exp: real -> real) {
    && exp(0.0) == 1.0
    && (forall x, y :: exp(x + y) == Times(exp(x), exp(y)))
    && (forall x, y :: x < y ==> exp(x) < exp(y))
  }

  lemma ExpPositive(exp: real -> real, x: real)
    requires IsExp(exp)
    ensures exp(x) > 0.0
  {
    hide Times;
    assert exp(x / 2.0 + x / 2.0) == Times(exp(x / 2.0), exp(x / 2.0));
    assert x / 2.0 + x / 2.0 == x;
    SquareSign(exp(x / 2.0));
    assert exp(x - 1.0) < exp(x);
    assert exp((x - 1.0) / 2.0 + (x - 1.0) / 2.0) == Times(exp((x - 1.0) / 2.0), exp((x - 1.0) / 2.0));
    assert (x - 1.0) / 2.0 + (x - 1.0) / 2.0 == x - 1.0;
    SquareSign(exp((x - 1.0) / 2.0));
  }

  // ---------------------------------------------------------------- one memory, many passes

  /** The pass at time `now`, with the schedule's other options. */
  function At(opts: DecayOptions, now: int): DecayOptions {
    opts.(now := now)
  }

  /** The memory after passes at the given times, or None once a pass evicted it. */
  function Survive(m: Memory, opts: DecayOptions, times: seq<int>, exp: real -> real): Option<Memory> {
    if times == [] then Some(m) else
      var n := |times| - 1;
      match Survive(m, opts, times[..n], exp)
      case None => None
      case Some(r) =>
        if Dies(r, At(opts, times[n]), exp) then None
        else Some(r.(importance := DecayedImportance(r, At(opts, times[n]), exp)))
  }

  /** Total age over the passes; each pass counts from the last access. */
  function TotalAge(times: seq<int>, accessedAt: int): (r: real)
    ensures r >= 0.0
  {
    if times == [] then 0.0 else
      TotalAge(times[..|times| - 1], accessedAt) + Age(times[|times| - 1], accessedAt)
  }

  /** What is left of the initial importance. */
  function Remaining(m: Memory, opts: DecayOptions, times: seq<int>, exp: real -> real): real {
    Times(m.importance, exp(-TotalAge(times, m.accessedAt) / TauMillis(opts)))
  }

  lemma QuotientOfSum(x: real, y: real, n: real)
    requires n > 0.0
    ensures -(x + y) / n == -x / n + -y / n
  {
  }

  lemma QuotientAntitone(x: real, y: real, n: real)
    requires n > 0.0 && 0.0 <= y
    ensures -(x + y) / n <= -x / n
  {
    QuotientOfSum(x, y, n);
    QuotientOrder(-y, n);
    hide Times;
    Divide(-y, n);
    if -y / n > 0.0 { Positive(-y / n, n); }
  }

  lemma {:induction false} SurvivorFields(m: Memory, opts: DecayOptions, times: seq<int>, exp: real -> real)
    ensures var r := Survive(m, opts, times, exp);
      r.Some? ==> r.value == m.(importance := r.value.importance)
  {
    if times != [] { SurvivorFields(m, opts, times[..|times| - 1], exp); }
  }

  lemma OnePass(r: Memory, opts: DecayOptions, now: int, exp: real -> real)
    ensures DecayedImportance(r, At(opts, now), exp)
      == Times(r.importance, exp(-Age(now, r.accessedAt) / TauMillis(opts)))
    ensures MinImportance(At(opts, now)) == MinImportance(opts)
  {
  }

  lemma NothingPassed(m: Memory, opts: DecayOptions, exp: real -> real)
    requires IsExp(exp)
    ensures Remaining(m, opts, [], exp) == m.importance
  {
    hide TauMillis;
    assert -0.0 / TauMillis(opts) == 0.0;
    Units(m.importance);
  }

  /** Passes compound: a survivor's importance is i0 * exp(-(sum of ages) / tau). */
  lemma {:induction false} PassesCompound(m: Memory, opts: DecayOptions, times: seq<int>, exp: real -> real)
    requires IsExp(exp)
    ensures var r := Survive(m, opts, times, exp);
      r.Some? ==> r.value.importance == Remaining(m, opts, times, exp)
  {
    hide Remaining, DecayedImportance, Dies;
    if times == [] {
      NothingPassed(m, opts, exp);
    } else if Survive(m, opts, times, exp).Some? {
      var n := |times| - 1;
      PassesCompound(m, opts, times[..n], exp);
      SurvivorFields(m, opts, times[..n], exp);
      CompoundStep(m, opts, times[..n], times[n], exp);
      assert times == times[..n] + [times[n]];
      OnePass(Survive(m, opts, times[..n], exp).value, opts, times[n], exp);
    }
  }

  lemma CompoundStep(m: Memory, opts: DecayOptions, times: seq<int>, now: int, exp: real -> real)
    requires IsExp(exp)
    ensures Remaining(m, opts, times + [now], exp)
      == Times(Remaining(m, opts, times, exp), exp(-Age(now, m.accessedAt) / TauMillis(opts)))
  {
    hide Times, TauMillis, Age;
    var longer := times + [now];
    assert longer[..|longer| - 1] == times;
    var sum, age, tau := TotalAge(times, m.accessedAt), Age(now, m.accessedAt), TauMillis(opts);
    QuotientOfSum(sum, age, tau);
    Associate(m.importance, exp(-sum / tau), exp(-age / tau));
  }

  /** Another pass never raises what remains, once it is positive. */
  lemma RemainingShrinks(m: Memory, opts: DecayOptions, times: seq<int>, now: int, exp: real -> real)
    requires IsExp(exp) && Remaining(m, opts, times + [now], exp) > 0.0
    ensures Remaining(m, opts, times, exp) >= Remaining(m, opts, times + [now], exp)
  {
    hide Times, TauMillis, Age;
    var longer := times + [now];
    assert longer[..|longer| - 1] == times;
    var sum, age, tau := TotalAge(times, m.accessedAt), Age(now, m.accessedAt), TauMillis(opts);
    var before, after := exp(-sum / tau), exp(-(sum + age) / tau);
    QuotientAntitone(sum, age, tau);
    assert after <= before;
    ExpPositive(exp, -(sum + age) / tau);
    if m.importance <= 0.0 {
      Positive(-m.importance, after);
      Negate(m.importance, after);
    }
    Monotone(m.importance, after, before);
  }

  /** A non-procedural memory survives a non-empty schedule iff what finally remains is at
      least the threshold. */
  lemma {:induction false} SurvivalThreshold(m: Memory, opts: DecayOptions, times: seq<int>, exp: real -> real)
    requires IsExp(exp) && ToLower(m.tier) != "procedural" && times != []
    ensures Survive(m, opts, times, exp).Some? <==> Remaining(m, opts, times, exp) >= MinImportance(opts)
  {
    hide ToLower, Remaining, MinImportance, DecayedImportance;
    var n := |times| - 1;
    var earlier := times[..n];
    assert times == earlier + [times[n]];
    if Remaining(m, opts, times, exp) >= MinImportance(opts) {
      RemainingShrinks(m, opts, earlier, times[n], exp);
    }
    if n > 0 {
      SurvivalThreshold(m, opts, earlier, exp);
    }
    if Survive(m, opts, earlier, exp).Some? {
      NextPass(m, opts, earlier, times[n], exp);
    }
  }

  /** What the next pass makes of a survivor. */
  lemma NextPass(m: Memory, opts: DecayOptions, times: seq<int>, now: int, exp: real -> real)
    requires IsExp(exp) && Survive(m, opts, times, exp).Some?
    ensures var r := Survive(m, opts, times, exp).value;
      && r.tier == m.tier && MinImportance(At(opts, now)) == MinImportance(opts)
      && DecayedImportance(r, At(opts, now), exp) == Remaining(m, opts, times + [now], exp)
  {
    hide Remaining, DecayedImportance, MinImportance, Survive;
    PassesCompound(m, opts, times, exp);
    SurvivorFields(m, opts, times, exp);
    CompoundStep(m, opts, times, now, exp);
    OnePass(Survive(m, opts, times, exp).value, opts, now, exp);
  }

  /** A procedural memory, however its tier is capitalised, is never evicted. */
  lemma {:induction false} ProceduralSurvives(m: Memory, opts: DecayOptions, times: seq<int>, exp: real -> real)
    requires ToLower(m.tier) == "procedural"
    ensures Survive(m, opts, times, exp).Some?
  {
    if times != [] {
      ProceduralSurvives(m, opts, times[..|times| - 1], exp);
      SurvivorFields(m, opts, times[..|times| - 1], exp);
    }
  }

  // ---------------------------------------------------------------- inside the store

  /** The times of the decay passes of a run that succeeded. */
  ghost function SuccessfulPasses(t: Tables, ops: seq<Op>, exp: real -> real): seq<int>
    decreases |ops|
  {
    if ops == [] then [] else
      var n := |ops| - 1;
      var op := ops[n];
      SuccessfulPasses(t, ops[..n], exp)
      + if op.Decay? && DecayAllowed(RunFrom(t, ops[..n], exp).memories, op.opts, exp) then [op.opts.now] else []
  }

  /** The operation neither edits, touches, supersedes nor deletes the memory; decay passes use
      the schedule's options. */
  predicate LeavesAlone(op: Op, id: int, opts: DecayOptions) {
    match op
    case Update(u) => u.id != id
    case Supersede(oldId, _) => oldId != id
    case Delete(ids) => id !in ids
    case Touch(ids, _) => id !in ids
    case Decay(o) => o == At(opts, o.now)
    case _ => true
  }

  lemma {:induction false} TouchedOthers(memories: map<int, Memory>, ids: seq<int>, at: int, id: int)
    requires id !in ids
    ensures var m := Touched(memories, ids, at);
      (id in m <==> id in memories) && (id in memories ==> m[id] == memories[id])
  {
    if ids != [] { TouchedOthers(memories, ids[..|ids| - 1], at, id); }
  }

  /** One operation that leaves the memory alone. */
  lemma StepAlone(t: Tables, op: Op, exp: real -> real, id: int, opts: DecayOptions)
    requires Inv(t) && LeavesAlone(op, id, opts) && id <= t.lastId
    ensures var t' := Apply(t, op, exp);
      && id <= t'.lastId
      && if op.Decay? && DecayAllowed(t.memories, op.opts, exp) then
           id in t'.memories <==> id in t.memories && !Dies(t.memories[id], op.opts, exp)
         else (id in t'.memories <==> id in t.memories) && (id in t.memories ==> t'.memories[id] == t.memories[id])
    ensures var t' := Apply(t, op, exp);
      op.Decay? && DecayAllowed(t.memories, op.opts, exp) && id in t'.memories ==>
        t'.memories[id] == t.memories[id].(importance := DecayedImportance(t.memories[id], op.opts, exp))
  {
    hide Dies, DecayedImportance, Touched, DeleteEvents;
    if op.Touch? { TouchedOthers(t.memories, op.touched, op.at, id); }
  }

  /** The stored row, if it is still there. */
  function Row(t: Tables, id: int): Option<Memory> {
    if id in t.memories then Some(t.memories[id]) else None
  }

  lemma ScheduleStep(m: Memory, t: Tables, op: Op, exp: real -> real, id: int, opts: DecayOptions, times: seq<int>)
    requires Inv(t) && id <= t.lastId && LeavesAlone(op, id, opts)
    requires Survive(m, opts, times, exp) == Row(t, id)
    ensures var pass := if op.Decay? && DecayAllowed(t.memories, op.opts, exp) then [op.opts.now] else [];
      Survive(m, opts, times + pass, exp) == Row(Apply(t, op, exp), id)
    ensures id <= Apply(t, op, exp).lastId
  {
    hide Apply, Inv, Dies, DecayedImportance, DecayAllowed, LeavesAlone;
    StepAlone(t, op, exp, id, opts);
    PassTime(op, id, opts);
    if op.Decay? && DecayAllowed(t.memories, op.opts, exp) {
      assert (times + [op.opts.now])[..|times|] == times;
    } else {
      assert times + [] == times;
    }
  }

  lemma InRange(t: Tables, id: int)
    requires Inv(t) && id in t.memories
    ensures id <= t.lastId
  {
  }

  /** In any run that leaves the memory alone, the store holds exactly what the schedule of
      successful passes leaves of it; failed passes count for nothing. */
  lemma {:induction false} StoreFollowsSchedule(t: Tables, ops: seq<Op>, exp: real -> real, id: int, opts: DecayOptions)
    requires Inv(t) && id in t.memories
    requires forall i :: 0 <= i < |ops| ==> LeavesAlone(ops[i], id, opts)
    ensures var end := RunFrom(t, ops, exp);
      && Inv(end) && id <= end.lastId
      && Survive(t.memories[id], opts, SuccessfulPasses(t, ops, exp), exp) == Row(end, id)
    decreases |ops|
  {
    hide Apply, Inv, DecayAllowed, LeavesAlone, Survive;
    if ops == [] {
      InRange(t, id);
      NoPasses(t.memories[id], opts, exp);
    } else {
      var n := |ops| - 1;
      StoreFollowsSchedule(t, ops[..n], exp, id, opts);
      var s, op := RunFrom(t, ops[..n], exp), ops[n];
      ApplyKeepsInv(s, op, exp);
      ScheduleStep(t.memories[id], s, op, exp, id, opts, SuccessfulPasses(t, ops[..n], exp));
    }
  }

  lemma NoPasses(m: Memory, opts: DecayOptions, exp: real -> real)
    ensures Survive(m, opts, [], exp) == Some(m)
  {
  }

  lemma PassTime(op: Op, id: int, opts: DecayOptions)
    requires LeavesAlone(op, id, opts)
    ensures op.Decay? ==> op.opts == At(opts, op.opts.now)
  {
  }
}
