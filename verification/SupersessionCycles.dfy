/** Cycles of superseded_by: the store accepts them (internal/store/compaction.go:119-152), and
    they decide which memories can ever be deleted or evicted. */
module SupersessionCycles {
  import opened MemoryStore
  import opened MemoryStoreRuns
  import opened Outcomes
  import opened Sets

  // ---------------------------------------------------------------- following superseded_by

  function Next(memories: map<int, Memory>, x: int): Option<int> {
    if x in memories then memories[x].supersededBy else None
  }

  /** Where `n` steps along superseded_by lead from `x`. */
  function Follow(memories: map<int, Memory>, x: int, n: nat): Option<int> {
    if n == 0 then Some(x) else
      match Follow(memories, x, n - 1)
      case None => None
      case Some(y) => Next(memories, y)
  }

  ghost predicate Reaches(memories: map<int, Memory>, x: int, y: int) {
    exists n: nat :: Follow(memories, x, n) == Some(y)
  }

  /** A superseded_by path of some positive length leads from `x` back to `x`. */
  ghost predicate OnCycle(memories: map<int, Memory>, x: int) {
    exists n: nat :: n > 0 && Follow(memories, x, n) == Some(x)
  }

  ghost predicate Acyclic(memories: map<int, Memory>) {
    forall x :: x in memories ==> !OnCycle(memories, x)
  }

  lemma {:induction false} FollowFollow(memories: map<int, Memory>, x: int, m: nat, n: nat)
    requires Follow(memories, x, m).Some?
    ensures Follow(memories, x, m + n) == Follow(memories, Follow(memories, x, m).value, n)
    decreases n
  {
    if n > 0 { FollowFollow(memories, x, m, n - 1); }
  }

  /** Every point of a cycle lies on it. */
  lemma Rotate(memories: map<int, Memory>, x: int, n: nat, k: nat)
    requires Follow(memories, x, n) == Some(x) && Follow(memories, x, k).Some?
    ensures var y := Follow(memories, x, k).value;
      Follow(memories, y, n) == Some(y)
  {
    FollowFollow(memories, x, k, n);
    FollowFollow(memories, x, n, k);
    assert k + n == n + k;
  }

  /** The row before `x` on its cycle. */
  lemma Predecessor(memories: map<int, Memory>, x: int) returns (y: int)
    requires OnCycle(memories, x)
    ensures Refers(memories, y, x) && OnCycle(memories, y)
  {
    var n: nat :| n > 0 && Follow(memories, x, n) == Some(x);
    y := Follow(memories, x, n - 1).value;
    Rotate(memories, x, n, n - 1);
  }

  // ---------------------------------------------------------------- what can be deleted

  lemma {:induction false} CycleNotListedAt(memories: map<int, Memory>, ids: seq<int>, i: nat)
    requires ReferrersFirst(memories, ids) && i < |ids|
    ensures !OnCycle(memories, ids[i])
    decreases i
  {
    if OnCycle(memories, ids[i]) {
      var y := Predecessor(memories, ids[i]);
      assert y in ids[..i];
      var j :| 0 <= j < i && ids[j] == y;
      CycleNotListedAt(memories, ids, j);
    }
  }

  /** How far `y` is from `x`, for the rows that reach `x`. */
  ghost function Distance(memories: map<int, Memory>, y: int, x: int): (n: nat)
    requires Reaches(memories, y, x)
    ensures Follow(memories, y, n) == Some(x)
  {
    var n: nat :| Follow(memories, y, n) == Some(x);
    n
  }

  /** Off the cycles a distance is unique. */
  lemma DistanceUnique(memories: map<int, Memory>, y: int, x: int, n: nat)
    requires !OnCycle(memories, x) && Follow(memories, y, n) == Some(x)
    ensures Distance(memories, y, x) == n
  {
    var d := Distance(memories, y, x);
    if d < n {
      FollowFollow(memories, y, d, n - d);
    } else if n < d {
      FollowFollow(memories, y, n, d - n);
    }
  }

  lemma ReferrerFarther(memories: map<int, Memory>, r: int, y: int, x: int)
    requires !OnCycle(memories, x) && Reaches(memories, y, x) && Refers(memories, r, y)
    ensures Reaches(memories, r, x) && Distance(memories, r, x) == Distance(memories, y, x) + 1
  {
    var d := Distance(memories, y, x);
    assert Follow(memories, r, 0) == Some(r);
    assert Follow(memories, r, 1) == Some(y);
    FollowFollow(memories, r, 1, d);
    DistanceUnique(memories, r, x, 1 + d);
  }

  lemma {:induction false} Nearest(memories: map<int, Memory>, s: set<int>, x: int) returns (y: int)
    requires s != {} && forall z :: z in s ==> Reaches(memories, z, x)
    ensures y in s && forall z :: z in s ==> Distance(memories, y, x) <= Distance(memories, z, x)
    decreases |s|
  {
    var z := Draw(s);
    if s == {z} {
      y := z;
    } else {
      y := Nearest(memories, s - {z}, x);
      if Distance(memories, z, x) < Distance(memories, y, x) {
        y := z;
      }
    }
  }

  /** Inside `s`, every referrer comes earlier. */
  ghost predicate OrderedWithin(memories: map<int, Memory>, ids: seq<int>, s: set<int>) {
    forall i, r :: 0 <= i < |ids| && Refers(memories, r, ids[i]) && r in s ==> r in ids[..i]
  }

  /** The rows of `s`, farthest from `x` first. */
  lemma {:induction false} ListFarthestFirst(memories: map<int, Memory>, s: set<int>, x: int) returns (ids: seq<int>)
    requires !OnCycle(memories, x) && forall y :: y in s ==> Reaches(memories, y, x)
    ensures (forall y :: y in ids <==> y in s) && OrderedWithin(memories, ids, s)
    decreases |s|
  {
    if s == {} {
      ids := [];
    } else {
      hide Reaches, OnCycle, Distance;
      var last := Nearest(memories, s, x);
      var rest := ListFarthestFirst(memories, s - {last}, x);
      ids := rest + [last];
      forall i, r | 0 <= i < |ids| && Refers(memories, r, ids[i]) && r in s ensures r in ids[..i] {
        assert if i < |rest| then ids[i] in rest else ids[i] == last;
        ReferrerFarther(memories, r, ids[i], x);
        assert r in rest;
        assert ids[..i] == rest[..i];
        assert i == |rest| ==> rest[..i] == rest;
      }
    }
  }

  /** A memory can be deleted with a suitable list exactly when it lies on no cycle. */
  lemma {:induction false} DeletableIff(memories: map<int, Memory>, x: int)
    requires x in memories
    ensures (exists ids :: x in ids && ReferrersFirst(memories, ids)) <==> !OnCycle(memories, x)
  {
    if OnCycle(memories, x) {
      forall ids | ReferrersFirst(memories, ids) ensures x !in ids {
        forall i | 0 <= i < |ids| ensures ids[i] != x { CycleNotListedAt(memories, ids, i); }
      }
    } else {
      var s := set y | y in memories && Reaches(memories, y, x);
      assert Follow(memories, x, 0) == Some(x);
      var ids := ListFarthestFirst(memories, s, x);
      forall i, r | 0 <= i < |ids| && Refers(memories, r, ids[i]) ensures r in ids[..i] {
        assert ids[i] in ids;
        ReferrerFarther(memories, r, ids[i], x);
        assert r in s;
      }
      assert x in ids && ReferrersFirst(memories, ids);
    }
  }

  /** A list that mentions a memory of a cycle deletes nothing. */
  lemma CycleUndeletable(t: Tables, ids: seq<int>, x: int)
    requires OnCycle(t.memories, x) && x in ids
    ensures AfterDelete(t, ids) == t && !ReferrersFirst(t.memories, ids)
  {
    if ReferrersFirst(t.memories, ids) {
      var i :| 0 <= i < |ids| && ids[i] == x;
      CycleNotListedAt(t.memories, ids, i);
    }
  }

  // ---------------------------------------------------------------- what can be evicted

  /** Whatever leads to a doomed memory is doomed and has a smaller id. */
  lemma {:induction false} DoomedUpstream(memories: map<int, Memory>, opts: DecayOptions, exp: real -> real, a: int,
      n: nat)
    requires DecayAllowed(memories, opts, exp) && n > 0
    requires Follow(memories, a, n).Some? && Follow(memories, a, n).value in Doomed(memories, opts, exp)
    ensures a in Doomed(memories, opts, exp) && a < Follow(memories, a, n).value
    decreases n
  {
    hide Dies;
    var b, c := Follow(memories, a, n).value, Follow(memories, a, n - 1).value;
    assert Refers(memories, c, b);
    if n > 1 {
      DoomedUpstream(memories, opts, exp, a, n - 1);
    } else {
      assert Follow(memories, a, 0) == Some(a);
    }
  }

  /** A decay pass that succeeds evicts no memory of a cycle. */
  lemma DecaySparesCycles(memories: map<int, Memory>, opts: DecayOptions, exp: real -> real, x: int)
    requires DecayAllowed(memories, opts, exp) && OnCycle(memories, x)
    ensures x !in Doomed(memories, opts, exp)
  {
    hide Doomed;
    var n: nat :| n > 0 && Follow(memories, x, n) == Some(x);
    if x in Doomed(memories, opts, exp) {
      DoomedUpstream(memories, opts, exp, x, n);
    }
  }

  /** A pass that would evict a memory of a cycle fails as a whole. */
  lemma CycleBlocksDecay(t: Tables, opts: DecayOptions, exp: real -> real, x: int)
    requires OnCycle(t.memories, x) && x in Doomed(t.memories, opts, exp)
    ensures AfterDecay(t, opts, exp) == t && !DecayAllowed(t.memories, opts, exp)
  {
    hide Doomed;
    if DecayAllowed(t.memories, opts, exp) {
      DecaySparesCycles(t.memories, opts, exp, x);
    }
  }

  // ---------------------------------------------------------------- how cycles arise

  /** The rows of `a` and `b` point alike, except perhaps the row `old`. */
  ghost predicate AgreeBut(a: map<int, Memory>, b: map<int, Memory>, old': int) {
    forall x :: x != old' ==> Next(a, x) == Next(b, x)
  }

  /** Two such tables lead the same way until the row is reached. */
  lemma {:induction false} SamePath(a: map<int, Memory>, b: map<int, Memory>, old': int, x: int, n: nat)
    requires AgreeBut(a, b, old')
    ensures Follow(a, x, n) == Follow(b, x, n)
      || exists k: nat :: k < n && Follow(a, x, k) == Some(old') && Follow(b, x, k) == Some(old')
    decreases n
  {
    if n > 0 { SamePath(a, b, old', x, n - 1); }
  }

  /** Superseding `oldId` by `newId` closes a cycle exactly when `newId` already leads to
      `oldId`. */
  lemma {:induction false} SupersedeKeepsAcyclicIff(t: Tables, oldId: int, newId: int)
    requires SupersedeAllowed(t, oldId, newId) && Acyclic(t.memories)
    ensures Acyclic(AfterSupersede(t, oldId, newId).memories) <==> !Reaches(t.memories, newId, oldId)
  {
    var before, after := t.memories, AfterSupersede(t, oldId, newId).memories;
    if Reaches(before, newId, oldId) {
      ClosesCycle(before, after, oldId, newId);
    } else {
      forall x | x in after ensures !OnCycle(after, x) {
        if OnCycle(after, x) { CycleUsesNewLink(before, after, oldId, newId, x); }
      }
    }
  }

  lemma ClosesCycle(before: map<int, Memory>, after: map<int, Memory>, oldId: int, newId: int)
    requires AgreeBut(before, after, oldId) && Next(after, oldId) == Some(newId)
    requires Reaches(before, newId, oldId)
    ensures OnCycle(after, oldId)
  {
    var n: nat :| Follow(before, newId, n) == Some(oldId);
    SamePath(before, after, oldId, newId, n);
    var k: nat :| Follow(after, newId, k) == Some(oldId);
    assert Follow(after, oldId, 0) == Some(oldId);
    assert Follow(after, oldId, 1) == Some(newId);
    FollowFollow(after, oldId, 1, k);
  }

  lemma CycleUsesNewLink(before: map<int, Memory>, after: map<int, Memory>, oldId: int, newId: int, x: int)
    requires AgreeBut(before, after, oldId) && Next(after, oldId) == Some(newId)
    requires OnCycle(after, x) && !OnCycle(before, x)
    ensures Reaches(before, newId, oldId)
  {
    var n: nat :| n > 0 && Follow(after, x, n) == Some(x);
    SamePath(after, before, oldId, x, n);
    var k: nat :| k < n && Follow(after, x, k) == Some(oldId);
    Rotate(after, x, n, k);
    assert Follow(after, oldId, 0) == Some(oldId);
    assert Follow(after, oldId, 1) == Some(newId);
    FollowFollow(after, oldId, 1, n - 1);
    SamePath(after, before, oldId, newId, n - 1);
  }

  // ---------------------------------------------------------------- whole runs

  /** The link of row `y` in `after`, if any, is the one in `before`. */
  predicate NextKept(before: map<int, Memory>, after: map<int, Memory>, y: int) {
    Next(after, y).Some? ==> Next(before, y) == Next(after, y)
  }

  /** Where no link is new, every path was there before. */
  lemma {:induction false} FewerLinks(before: map<int, Memory>, after: map<int, Memory>, x: int, n: nat)
    requires forall y :: NextKept(before, after, y)
    ensures Follow(after, x, n).Some? ==> Follow(before, x, n) == Follow(after, x, n)
    decreases n
  {
    if n > 0 {
      FewerLinks(before, after, x, n - 1);
      assert Follow(after, x, n - 1).Some? ==> NextKept(before, after, Follow(after, x, n - 1).value);
    }
  }

  lemma FewerLinksAcyclic(before: map<int, Memory>, after: map<int, Memory>)
    requires Acyclic(before) && forall y :: NextKept(before, after, y)
    ensures Acyclic(after)
  {
    forall x | x in after ensures !OnCycle(after, x) {
      if OnCycle(after, x) {
        var n: nat :| n > 0 && Follow(after, x, n) == Some(x);
        FewerLinks(before, after, x, n);
        CycleStored(before, x, n);
      }
    }
  }

  lemma CycleStored(memories: map<int, Memory>, x: int, n: nat)
    requires n > 0 && Follow(memories, x, n) == Some(x)
    ensures x in memories
  {
    FollowFollow(memories, x, 0, n);
    SomeAtOne(memories, x, n);
  }

  lemma {:induction false} SomeAtOne(memories: map<int, Memory>, x: int, n: nat)
    requires n > 0 && Follow(memories, x, n).Some?
    ensures Next(memories, x).Some?
    decreases n
  {
    if n > 1 { SomeAtOne(memories, x, n - 1); } else { assert Follow(memories, x, 0) == Some(x); }
  }

  /** An operation that does not supersede a memory by one that leads back to it. */
  ghost predicate Careful(t: Tables, op: Op) {
    op.Supersede? && SupersedeAllowed(t, op.oldId, op.newId) ==> !Reaches(t.memories, op.newId, op.oldId)
  }

  /** Only supersession adds links. */
  lemma NoNewLinks(t: Tables, op: Op, exp: real -> real, y: int)
    requires Inv(t) && !op.Supersede?
    ensures NextKept(t.memories, Apply(t, op, exp).memories, y)
  {
    hide Dies, DecayedImportance, Touched;
    if op.Touch? { TouchedKeeps(t.memories, op.touched, op.at); }
  }

  /** From an acyclic table one operation leads to a cyclic one exactly when it is a careless
      supersession. */
  lemma {:induction false} StepAcyclicIff(t: Tables, op: Op, exp: real -> real)
    requires Inv(t) && Acyclic(t.memories)
    ensures Acyclic(Apply(t, op, exp).memories) <==> Careful(t, op)
  {
    hide Acyclic, Reaches;
    if op.Supersede? {
      if SupersedeAllowed(t, op.oldId, op.newId) { SupersedeKeepsAcyclicIff(t, op.oldId, op.newId); }
    } else {
      forall y ensures NextKept(t.memories, Apply(t, op, exp).memories, y) {
        NoNewLinks(t, op, exp, y);
      }
      hide Apply;
      FewerLinksAcyclic(t.memories, Apply(t, op, exp).memories);
    }
  }

  /** A run of careful operations never makes a cycle, so every memory stays deletable. */
  lemma {:induction false} CarefulRunsAcyclic(ops: seq<Op>, exp: real -> real)
    requires forall k :: 0 <= k < |ops| ==> Careful(Run(ops[..k], exp), ops[k])
    ensures Acyclic(Run(ops, exp).memories)
    decreases |ops|
  {
    if ops != [] {
      hide Apply, Careful, Acyclic;
      var n := |ops| - 1;
      var shorter := ops[..n];
      assert forall k :: 0 <= k < n ==> shorter[..k] == ops[..k] && shorter[k] == ops[k];
      CarefulRunsAcyclic(shorter, exp);
      RunKeepsInv(shorter, exp);
      StepAcyclicIff(Run(shorter, exp), ops[n], exp);
    }
  }

  // ---------------------------------------------------------------- cycles of two

  /** Two memories that supersede each other. */
  ghost predicate Mutual(t: Tables, a: int, b: int) {
    Refers(t.memories, a, b) && Refers(t.memories, b, a)
  }

  /** The store accepts a supersession in both directions. */
  lemma MutualSupersessionAccepted(t: Tables, a: int, b: int)
    requires SupersedeAllowed(t, a, b)
    ensures SupersedeAllowed(AfterSupersede(t, a, b), b, a)
    ensures Mutual(AfterSupersede(AfterSupersede(t, a, b), b, a), a, b)
  {
  }

  lemma MutualOnCycle(t: Tables, a: int, b: int)
    requires Mutual(t, a, b)
    ensures OnCycle(t.memories, a) && OnCycle(t.memories, b)
  {
    assert forall x :: Follow(t.memories, x, 0) == Some(x);
    assert Follow(t.memories, a, 1) == Some(b) && Follow(t.memories, b, 1) == Some(a);
    assert Follow(t.memories, a, 2) == Some(a) && Follow(t.memories, b, 2) == Some(b);
  }

  /** No list that mentions one of them can be deleted, in any order. */
  lemma MutualUndeletable(t: Tables, ids: seq<int>, a: int, b: int)
    requires Mutual(t, a, b) && (a in ids || b in ids)
    ensures AfterDelete(t, ids) == t && !ReferrersFirst(t.memories, ids)
  {
    hide OnCycle, AfterDelete;
    MutualOnCycle(t, a, b);
    CycleUndeletable(t, ids, if a in ids then a else b);
  }

  /** A decay pass that would evict one of them fails as a whole. */
  lemma MutualBlocksDecay(t: Tables, a: int, b: int, opts: DecayOptions, exp: real -> real)
    requires Mutual(t, a, b)
    requires a in Doomed(t.memories, opts, exp) || b in Doomed(t.memories, opts, exp)
    ensures AfterDecay(t, opts, exp) == t && !DecayAllowed(t.memories, opts, exp)
  {
    hide OnCycle, Doomed, AfterDecay;
    MutualOnCycle(t, a, b);
    CycleBlocksDecay(t, opts, exp, if a in Doomed(t.memories, opts, exp) then a else b);
  }
}
