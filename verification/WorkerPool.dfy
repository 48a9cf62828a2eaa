/** The worker pool of the performance benchmark (internal/bench/perf.go:183-202) as an interleaved
    protocol: one producer, an unbuffered channel of indices, workers and a wait group. A send on
    the unbuffered channel and the receive that takes it are one step. */
module WorkerPool {
  import opened Outcomes
  import opened Sets

  datatype Sample = Sample(status: int, error: string)

  datatype Worker = Idle | Busy(job: nat) | Stopped

  datatype Size = Size(requests: nat, concurrency: nat)

  /** `takers[i]` and `writers[i]` list the workers that received index `i` and wrote slot `i`. */
  datatype Pool = Pool(
    workers: seq<Worker>, waiting: int, next: nat, closed: bool, returned: bool,
    slots: seq<Option<Sample>>, takers: seq<seq<nat>>, writers: seq<seq<nat>>)

  datatype Action =
    | Spawn
    | HandOver(worker: nat)
    | Finish(worker: nat, sample: Sample)
    | Close
    | Stop(worker: nat)
    | Return

  function Initial(size: Size): Pool {
    Pool([], 0, 0, false, false,
         seq(size.requests, _ => None), seq(size.requests, _ => []), seq(size.requests, _ => []))
  }

  predicate Is(p: Pool, w: nat, state: Worker) {
    w < |p.workers| && p.workers[w] == state
  }

  predicate Shaped(size: Size, p: Pool) {
    |p.slots| == |p.takers| == |p.writers| == size.requests
  }

  /** One step of the producer or of a worker; None when it is not enabled. */
  function Step(size: Size, p: Pool, a: Action): Option<Pool>
    requires Shaped(size, p)
  {
    match a
    case Spawn =>
      if |p.workers| < size.concurrency then Some(p.(workers := p.workers + [Idle], waiting := p.waiting + 1)) else None
    case HandOver(w) =>
      if |p.workers| < size.concurrency || p.next >= size.requests || !Is(p, w, Idle) then None
      else Some(p.(workers := p.workers[w := Busy(p.next)], next := p.next + 1,
                   takers := p.takers[p.next := p.takers[p.next] + [w]]))
    case Finish(w, sample) =>
      if w >= |p.workers| || !p.workers[w].Busy? || p.workers[w].job >= size.requests then None
      else var i := p.workers[w].job;
        Some(p.(workers := p.workers[w := Idle], slots := p.slots[i := Some(sample)],
                writers := p.writers[i := p.writers[i] + [w]]))
    case Close =>
      if |p.workers| < size.concurrency || p.next < size.requests || p.closed then None else Some(p.(closed := true))
    case Stop(w) =>
      if !p.closed || !Is(p, w, Idle) then None
      else Some(p.(workers := p.workers[w := Stopped], waiting := p.waiting - 1))
    case Return =>
      if !p.closed || p.waiting != 0 || p.returned then None else Some(p.(returned := true))
  }

  /** The pool a sequence of actions leads to, if every action is enabled. */
  function Run(size: Size, actions: seq<Action>): (r: Option<Pool>)
    ensures r.Some? ==> Shaped(size, r.value)
    decreases |actions|
  {
    if actions == [] then Some(Initial(size)) else
      var n := |actions| - 1;
      match Run(size, actions[..n])
      case None => None
      case Some(p) => Step(size, p, actions[n])
  }

  function Live(workers: seq<Worker>): set<nat> {
    set w: nat | w < |workers| && workers[w] != Stopped
  }

  function Working(workers: seq<Worker>): set<nat> {
    set w: nat | w < |workers| && workers[w].Busy?
  }

  /** Where index `i` is: not sent, held by its one taker, or written by it. */
  predicate Placed(p: Pool, i: nat)
    requires i < |p.slots| && i < |p.takers| && i < |p.writers|
  {
    if i >= p.next then p.takers[i] == [] && p.writers[i] == [] && p.slots[i] == None
    else
      && |p.takers[i]| == 1
      && (if Is(p, p.takers[i][0], Busy(i)) then p.writers[i] == [] && p.slots[i] == None
          else p.writers[i] == p.takers[i] && p.slots[i].Some?)
  }

  predicate HoldsOwn(p: Pool, w: nat)
    requires w < |p.workers|
  {
    p.workers[w].Busy? ==> var i := p.workers[w].job; i < p.next && i < |p.takers| && p.takers[i] == [w]
  }

  ghost predicate Inv(size: Size, p: Pool) {
    && Shaped(size, p)
    && |p.workers| <= size.concurrency && p.next <= size.requests
    && (p.next > 0 || p.closed ==> |p.workers| == size.concurrency)
    && (p.closed ==> p.next == size.requests)
    && (p.returned ==> p.closed && p.waiting == 0)
    && p.waiting == |Live(p.workers)|
    && (forall w: nat :: w < |p.workers| && p.workers[w] == Stopped ==> p.closed)
    && (forall w: nat :: w < |p.workers| ==> HoldsOwn(p, w))
    && forall i: nat :: i < size.requests ==> Placed(p, i)
  }

  /** How many steps are left; see StepCounts. */
  ghost function Remaining(size: Size, p: Pool): int {
    2 * (size.concurrency - |p.workers|) + p.waiting + 2 * (size.requests - p.next) + |Working(p.workers)|
    + (if p.closed then 0 else 1) + (if p.returned then 0 else 1)
  }

  lemma InitialInv(size: Size)
    ensures Inv(size, Initial(size)) && Remaining(size, Initial(size)) == 2 * (size.requests + size.concurrency) + 2
  {
    assert Live([]) == {} && Working([]) == {};
  }

  lemma Spawned(workers: seq<Worker>)
    ensures |Live(workers + [Idle])| == |Live(workers)| + 1 && |Working(workers + [Idle])| == |Working(workers)|
  {
    assert Live(workers + [Idle]) == Live(workers) + {|workers|};
    assert Working(workers + [Idle]) == Working(workers);
  }

  function Unit(b: bool): nat {
    if b then 1 else 0
  }

  /** Sets that agree outside `w` differ in size by `w` alone. */
  lemma OneApart(s: set<nat>, t: set<nat>, w: nat)
    requires forall v: nat :: v != w ==> (v in s <==> v in t)
    ensures |t| == |s| - Unit(w in s) + Unit(w in t)
  {
    assert s - {w} == t - {w};
    assert |s - {w}| == |s| - Unit(w in s);
    assert |t - {w}| == |t| - Unit(w in t);
  }

  lemma Changed(workers: seq<Worker>, w: nat, state: Worker)
    requires w < |workers|
    ensures |Live(workers[w := state])| == |Live(workers)| - Unit(workers[w] != Stopped) + Unit(state != Stopped)
    ensures |Working(workers[w := state])| == |Working(workers)| - Unit(workers[w].Busy?) + Unit(state.Busy?)
  {
    OneApart(Live(workers), Live(workers[w := state]), w);
    OneApart(Working(workers), Working(workers[w := state]), w);
  }

  lemma StepPlaces(size: Size, p: Pool, a: Action, i: nat)
    requires Inv(size, p) && Step(size, p, a).Some? && i < size.requests
    ensures Placed(Step(size, p, a).value, i)
  {
    hide Live, Working;
    assert Placed(p, i);
    var q := Step(size, p, a).value;
    match a
    case HandOver(w) => assert i == p.next ==> q.takers[i] == [w];
    case Finish(w, _) => assert HoldsOwn(p, w); assert i == p.workers[w].job ==> q.writers[i] == [w];
    case _ =>
  }

  lemma StepHolds(size: Size, p: Pool, a: Action, w: nat)
    requires Inv(size, p) && Step(size, p, a).Some? && w < |Step(size, p, a).value.workers|
    ensures HoldsOwn(Step(size, p, a).value, w)
  {
    hide Live, Working;
    assert w < |p.workers| ==> HoldsOwn(p, w);
    var q := Step(size, p, a).value;
    if a.HandOver? {
      assert Placed(p, p.next) && q.takers[p.next] == [a.worker];
    }
  }

  lemma StepLive(size: Size, p: Pool, a: Action)
    requires Shaped(size, p) && p.waiting == |Live(p.workers)| && Step(size, p, a).Some?
    ensures var q := Step(size, p, a).value;
      && q.waiting == |Live(q.workers)| && Remaining(size, q) == Remaining(size, p) - 1
  {
    hide Live, Working;
    match a
    case Spawn => Spawned(p.workers);
    case HandOver(w) => Changed(p.workers, w, Busy(p.next));
    case Finish(w, _) => Changed(p.workers, w, Idle);
    case Stop(w) => Changed(p.workers, w, Stopped);
    case _ =>
  }

  /** Every step keeps the invariant, uses up exactly one of the remaining steps and never
      overwrites a sample. */
  lemma StepCounts(size: Size, p: Pool, a: Action)
    requires Inv(size, p) && Step(size, p, a).Some?
    ensures var q := Step(size, p, a).value;
      && Inv(size, q) && Remaining(size, q) == Remaining(size, p) - 1
      && forall i :: 0 <= i < size.requests && p.slots[i].Some? ==> q.slots[i] == p.slots[i]
  {
    var q := Step(size, p, a).value;
    StepLive(size, p, a);
    hide Live, Working, Remaining;
    if a.Finish? {
      assert HoldsOwn(p, a.worker) && Placed(p, p.workers[a.worker].job);
    }
    hide Placed, HoldsOwn;
    forall i: nat | i < size.requests ensures Placed(q, i) { StepPlaces(size, p, a, i); }
    forall w: nat | w < |q.workers| ensures HoldsOwn(q, w) { StepHolds(size, p, a, w); }
  }

  lemma {:induction false} RunCounts(size: Size, actions: seq<Action>)
    requires Run(size, actions).Some?
    ensures Inv(size, Run(size, actions).value)
    ensures |actions| + Remaining(size, Run(size, actions).value) == 2 * (size.requests + size.concurrency) + 2
    decreases |actions|
  {
    hide Inv, Remaining, Step;
    if actions == [] {
      InitialInv(size);
    } else {
      var n := |actions| - 1;
      RunCounts(size, actions[..n]);
      StepCounts(size, Run(size, actions[..n]).value, actions[n]);
    }
  }

  /** In every interleaving each index is received at most once and each slot written at most
      once, by the worker that received its index; when the wait has returned, exactly once. */
  lemma {:induction false} OncePerIndex(size: Size, actions: seq<Action>, i: nat)
    requires Run(size, actions).Some? && i < size.requests
    ensures var p := Run(size, actions).value;
      && |p.takers[i]| <= 1 && (p.writers[i] == [] || p.writers[i] == p.takers[i])
      && (p.slots[i].Some? <==> p.writers[i] != [])
      && (p.returned ==> |p.takers[i]| == 1 && p.writers[i] == p.takers[i] && p.slots[i].Some?)
  {
    RunCounts(size, actions);
    var p := Run(size, actions).value;
    assert Placed(p, i);
    assert p.returned ==> Live(p.workers) == {};
    assert forall w: nat :: w < |p.workers| && p.workers[w].Busy? ==> w in Live(p.workers);
  }

  /** A sample, once written, is what the finished pool returns: the run's continuation never
      changes it. */
  lemma {:induction false} SamplesStay(size: Size, actions: seq<Action>, more: seq<Action>, i: nat)
    requires Run(size, actions + more).Some? && i < size.requests
    ensures Run(size, actions).Some?
    ensures var p := Run(size, actions).value;
      p.slots[i].Some? ==> Run(size, actions + more).value.slots[i] == p.slots[i]
    decreases |more|
  {
    hide Inv, Remaining, Step;
    if more == [] {
      assert actions + more == actions;
    } else {
      var n := |more| - 1;
      assert (actions + more)[..|actions + more| - 1] == actions + more[..n];
      SamplesStay(size, actions, more[..n], i);
      RunCounts(size, actions + more[..n]);
      StepCounts(size, Run(size, actions + more[..n]).value, more[n]);
    }
  }

  /** A finished index holds the sample its worker reports. */
  lemma FinishFills(size: Size, actions: seq<Action>, w: nat, sample: Sample)
    requires Run(size, actions).Some? && Run(size, actions + [Finish(w, sample)]).Some?
    ensures var p := Run(size, actions).value;
      && w < |p.workers| && p.workers[w].Busy? && p.workers[w].job < size.requests
      && Run(size, actions + [Finish(w, sample)]).value.slots == p.slots[p.workers[w].job := Some(sample)]
  {
    assert (actions + [Finish(w, sample)])[..|actions|] == actions;
  }

  predicate Enabled(size: Size, p: Pool, a: Action)
    requires Shaped(size, p)
  {
    Step(size, p, a).Some?
  }

  /** Something can always happen until the wait returns, unless there are requests and no
      workers. */
  lemma NeverStuck(size: Size, p: Pool) returns (a: Action)
    requires Inv(size, p) && !p.returned
    requires size.concurrency > 0 || size.requests == 0
    ensures Enabled(size, p, a)
  {
    if |p.workers| < size.concurrency {
      a := Spawn;
    } else if Working(p.workers) != {} {
      var w := Draw(Working(p.workers));
      assert HoldsOwn(p, w);
      a := Finish(w, Sample(0, ""));
    } else if !p.closed {
      assert |p.workers| > 0 ==> 0 !in Working(p.workers);
      a := if p.next < size.requests then HandOver(0) else Close;
    } else if Live(p.workers) != {} {
      var w := Draw(Live(p.workers));
      assert w !in Working(p.workers);
      a := Stop(w);
    } else {
      a := Return;
    }
  }

  ghost predicate StuckBeforeReturn(size: Size, actions: seq<Action>) {
    && Run(size, actions).Some?
    && !Run(size, actions).value.returned
    && forall a :: !Enabled(size, Run(size, actions).value, a)
  }

  /** A run can block for ever exactly when there are requests but no worker to take them; this
      is why a concurrency of zero is refused beforehand (internal/bench/perf.go:134-136). */
  lemma {:induction false} BlocksIff(size: Size)
    ensures (exists actions :: StuckBeforeReturn(size, actions)) <==> size.concurrency == 0 && size.requests > 0
  {
    if size.concurrency == 0 && size.requests > 0 {
      assert StuckBeforeReturn(size, []);
    } else {
      forall actions ensures !StuckBeforeReturn(size, actions) {
        if Run(size, actions).Some? && !Run(size, actions).value.returned {
          RunCounts(size, actions);
          var a := NeverStuck(size, Run(size, actions).value);
        }
      }
    }
  }

  /** Every run is finite, and one that returns has taken exactly two steps per worker, two per
      request, the close and the return, whatever the interleaving. */
  lemma {:induction false} RunLength(size: Size, actions: seq<Action>)
    requires Run(size, actions).Some?
    ensures |actions| <= 2 * (size.requests + size.concurrency) + 2
    ensures Run(size, actions).value.returned <==> |actions| == 2 * (size.requests + size.concurrency) + 2
  {
    RunCounts(size, actions);
    var p := Run(size, actions).value;
    SubsetSize(Working(p.workers), Live(p.workers));
  }
}
