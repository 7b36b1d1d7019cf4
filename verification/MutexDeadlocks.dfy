/** Priority inheritance in a deadlock: which call can leave a thread at a priority that no
    thread waiting for it has any more. */
module MutexDeadlocks {
  import opened Options
  import opened PrioOrder
  import opened Seqs
  import opened MutexModel
  import opened MutexCalls
  import opened MutexInheritance

  // -- Paths and cycles ---------------------------------------------------------------

  lemma {:induction false} IterPrefix(s: Sys, u: nat, i: nat, j: nat)
    requires Iter(s, u, i + j).Some?
    ensures Iter(s, u, i).Some?
    decreases i
  {
    if i > 0 { IterPrefix(s, Succ(s, u).value, i - 1, j); }
  }

  lemma {:induction false} SameIter(s: Sys, r: Sys, u: nat, k: nat)
    requires forall x: nat :: Succ(r, x) == Succ(s, x)
    ensures Iter(r, u, k) == Iter(s, u, k)
    decreases k
  {
    if k > 0 && Succ(s, u).Some? { SameIter(s, r, Succ(s, u).value, k - 1); }
  }

  lemma {:induction false} CycleForever(s: Sys, v: nat, k: nat, i: nat)
    requires k > 0 && Iter(s, v, k) == Some(v)
    ensures Iter(s, v, i).Some?
    decreases i
  {
    if i <= k { IterPrefix(s, v, i, k - i); }
    else {
      CycleForever(s, v, k, i - k);
      IterAdd(s, v, k, i - k);
    }
  }

  /** A path into a cycle never ends. */
  lemma Forever(s: Sys, u: nat, v: nat, i: nat)
    requires Reaches(s, u, v) && WaitsFor(s, v, v)
    ensures Iter(s, u, i).Some?
  {
    var j: nat :| Iter(s, u, j) == Some(v);
    var k: nat :| k > 0 && Iter(s, v, k) == Some(v);
    CycleForever(s, v, k, i);
    IterAdd(s, u, j, i);
    assert i + j == j + i;
    IterPrefix(s, u, i, j);
  }

  /** The thread in front of v on its cycle. */
  lemma CyclePred(s: Sys, v: nat) returns (y: nat)
    requires WaitsFor(s, v, v)
    ensures Succ(s, y) == Some(v) && WaitsFor(s, y, y) && WaitsFor(s, y, v) && Reaches(s, v, y)
  {
    var k: nat :| k > 0 && Iter(s, v, k) == Some(v);
    IterPrefix(s, v, k - 1, 1);
    y := Iter(s, v, k - 1).value;
    IterAdd(s, v, k - 1, 1);
    assert Iter(s, y, 1) == Some(v) && Iter(s, v, k - 1) == Some(y);
    IterAdd(s, y, 1, k - 1);
    assert Iter(s, y, k) == Some(y);
  }

  /** r is s after t has stopped waiting. */
  ghost predicate Cut(s: Sys, r: Sys, t: nat) {
    Succ(r, t).None? && forall x: nat | x != t :: Succ(r, x) == Succ(s, x)
  }

  lemma CutPath(s: Sys, r: Sys, t: nat, u: nat, k: nat)
    requires Cut(s, r, t) && Iter(s, u, k).Some? && !Reaches(s, u, t)
    ensures Iter(r, u, k) == Iter(s, u, k)
  {
    var j := MeetsOrKeeps(r, s, t, u, k);
    assert Iter(s, u, j) != Some(t);
  }

  /** Whoever still reaches a cycle does not reach t. */
  lemma CutAvoids(s: Sys, r: Sys, t: nat, u: nat, v: nat)
    requires Cut(s, r, t) && Reaches(r, u, v) && WaitsFor(r, v, v)
    ensures !Reaches(s, u, t)
  {
    if i: nat :| Iter(s, u, i) == Some(t) {
      Forever(r, u, v, i);
      FewerEdges(s, r, u, i);
      IterAdd(r, u, i, 1);
      Forever(r, u, v, i + 1);
    }
  }

  /** The cycles left are those that do not lead to t. */
  lemma CutCycles(s: Sys, r: Sys, t: nat, v: nat)
    requires Cut(s, r, t)
    ensures WaitsFor(r, v, v) <==> WaitsFor(s, v, v) && !Reaches(s, v, t)
  {
    if k: nat :| k > 0 && Iter(r, v, k) == Some(v) {
      FewerEdges(s, r, v, k);
      assert Reaches(r, v, v);
      CutAvoids(s, r, t, v, v);
    }
    if k: nat :| k > 0 && Iter(s, v, k) == Some(v) && !Reaches(s, v, t) { CutPath(s, r, t, v, k); }
  }

  /** What reaches such a cycle did so before, past t. */
  lemma CutReaches(s: Sys, r: Sys, t: nat, u: nat, v: nat)
    requires Cut(s, r, t) && WaitsFor(r, v, v)
    ensures Reaches(r, u, v) <==> Reaches(s, u, v) && !Reaches(s, u, t)
  {
    if k: nat :| Iter(r, u, k) == Some(v) {
      FewerEdges(s, r, u, k);
      CutAvoids(s, r, t, u, v);
    }
    if k: nat :| Iter(s, u, k) == Some(v) && !Reaches(s, u, t) { CutPath(s, r, t, u, k); }
  }

  // -- Priorities on cycles -----------------------------------------------------------

  /** All threads of a cycle run at one priority. */
  lemma CycleLevel(s: Sys, v: nat) returns (y: nat)
    requires Inv(s) && WaitsFor(s, v, v)
    ensures v < |s.init| && y < |s.init| && Succ(s, y) == Some(v) && WaitsFor(s, y, y) && s.curr[y] == s.curr[v]
  {
    y := CyclePred(s, v);
    assert Succ(s, y).Some? && Succ(s, v).Some?;
    SuccCurr(s, y);
    var k: nat :| Iter(s, v, k) == Some(y);
    InheritsAtLeast(s, v, y, k);
  }

  ghost predicate Level(s: Sys, v: nat) {
    v < |s.curr| && exists y: nat :: y < |s.curr| && Succ(s, y) == Some(v) && WaitsFor(s, y, y) && s.curr[y] == s.curr[v]
  }

  ghost predicate CyclesLevel(s: Sys) {
    forall v: nat | WaitsFor(s, v, v) :: Level(s, v)
  }

  /** A thread of such a cycle is due no lower priority than it has. */
  lemma LevelWant(s: Sys, v: nat)
    requires Graph(s) && v < |s.init| && Level(s, v) && forall m | 0 <= m < |s.owner| :: QueueOk(s, m)
    ensures Want(s, v) <= s.curr[v]
  {
    var y: nat :| y < |s.curr| && Succ(s, y) == Some(v) && WaitsFor(s, y, y) && s.curr[y] == s.curr[v];
    SuccWant(s, y);
  }

  lemma SameWaits(s: Sys, r: Sys, u: nat, v: nat)
    requires forall x: nat :: Succ(r, x) == Succ(s, x)
    ensures WaitsFor(r, u, v) == WaitsFor(s, u, v) && Reaches(r, u, v) == Reaches(s, u, v)
  {
    forall k: nat ensures Iter(r, u, k) == Iter(s, u, k) { SameIter(s, r, u, k); }
  }

  lemma FixFrame(s: Sys, t: nat, p: nat)
    requires Graph(s) && t < |s.init| && p < LEVELS
    ensures var r := Fix(s, t, p);
      && r.curr == s.curr[t := p] && r.init == s.init && r.pending == s.pending && r.owner == s.owner
      && |r.curr| == |r.init| && forall x: nat :: Succ(r, x) == Succ(s, x)
  {
    assert Shape(s);
    hide Graph, Enqueue, Without, HeadPrio;
  }

  /** A round of the propagation that changes no thread of a cycle. */
  lemma FixLevel(s: Sys, t: nat, p: nat)
    requires Graph(s) && t < |s.init| && p < LEVELS && CyclesLevel(s) && !WaitsFor(s, t, t)
    ensures CyclesLevel(Fix(s, t, p))
  {
    var r := Fix(s, t, p);
    FixFrame(s, t, p);
    hide Fix, Graph, Level, WaitsFor, Iter;
    forall v: nat | WaitsFor(r, v, v) ensures Level(r, v) {
      SameWaits(s, r, v, v);
      LevelFrame(s, r, v, t);
    }
  }

  lemma LevelFrame(s: Sys, r: Sys, v: nat, t: nat)
    requires Level(s, v) && t < |s.curr| == |r.curr| && v != t && !WaitsFor(s, t, t)
    requires forall x: nat | x < |s.curr| && x != t :: r.curr[x] == s.curr[x]
    requires forall x: nat :: Succ(r, x) == Succ(s, x)
    ensures Level(r, v)
  {
    var y: nat :| y < |s.curr| && Succ(s, y) == Some(v) && WaitsFor(s, y, y) && s.curr[y] == s.curr[v];
    SameWaits(s, r, y, y);
  }

  /** Every thread on a cycle of s is on one of r, with the same priority. */
  ghost predicate SameCycles(s: Sys, r: Sys) {
    |r.curr| == |s.curr| &&
    forall v: nat | WaitsFor(s, v, v) :: WaitsFor(r, v, v) && v < |s.curr| && r.curr[v] == s.curr[v]
  }

  /** A round that lowers a priority leaves all cycles as they are. */
  lemma LowerKeepsCycles(s: Sys, t: nat, p: nat)
    requires Graph(s) && t < |s.init| && CyclesLevel(s) && forall m | 0 <= m < |s.owner| :: QueueOk(s, m)
    requires Want(s, t) == p < LEVELS && p > s.curr[t]
    ensures CyclesLevel(Fix(s, t, p)) && SameCycles(s, Fix(s, t, p))
  {
    if WaitsFor(s, t, t) { LevelWant(s, t); }
    FixFrame(s, t, p);
    FixLevel(s, t, p);
    var r := Fix(s, t, p);
    hide Fix, Succ, WaitsFor, Level, Want, Graph;
    forall v: nat | WaitsFor(s, v, v) ensures WaitsFor(r, v, v) && v < |s.curr| && r.curr[v] == s.curr[v] {
      SameWaits(s, r, v, v);
      assert Level(s, v) && v < |s.curr| by { LevelBound(s, v); }
    }
  }

  lemma LevelBound(s: Sys, v: nat)
    requires Level(s, v)
    ensures v < |s.curr|
  {
  }

  lemma SettledCycles(s: Sys)
    requires CyclesLevel(s)
    ensures SameCycles(s, s)
  {
    hide WaitsFor;
    forall v: nat | WaitsFor(s, v, v) ensures v < |s.curr| { LevelBound(s, v); }
  }

  /** Lowering priorities stops in front of a cycle. */
  lemma {:induction false} SettleCycles(s: Sys, t: nat)
    requires InvBut(s, t) && t < |s.init| && CyclesLevel(s) && Want(s, t) >= s.curr[t]
    ensures SameCycles(s, Settle(s, t))
    decreases Rank(s, t)
  {
    SettledCycles(s);
    if Want(s, t) != s.curr[t] {
      FixKeeps(s, t);
      LowerKeepsCycles(s, t, Want(s, t));
      if s.pending[t].Some? {
        MeasureShrinks(s, t);
        FixMoves(s, t, Want(s, t));
        FixFrame(s, t, Want(s, t));
        SettleCycles(Fix(s, t, Want(s, t)), Succ(s, t).value);
      }
    }
    hide Fix, Succ, WaitsFor, CyclesLevel, Want, Inv;
  }

  // -- A thread that stops waiting ----------------------------------------------------

  /** Without its waiter t a mutex has no higher priority than before. */
  lemma WithoutHead(curr: seq<nat>, w: seq<nat>, t: nat)
    requires t in w && Distinct(w) && Sorted(Prios(curr, w)) && HeadPrio(curr, w) <= NOBODY
    ensures HeadPrio(curr, Without(w, t)) >= HeadPrio(curr, w)
  {
    WithoutKeeps(curr, w, t);
    if w[0] == t && |w| > 1 {
      assert Without(w, t) == w[1..];
      assert Prios(curr, w)[0] <= Prios(curr, w)[1] == Prios(curr, w[1..])[0];
    }
  }

  lemma LeaveLowers(s: Sys, t: nat, m: nat)
    requires Inv(s) && t < |s.init| && s.pending[t] == Some(m)
    ensures m < |s.owner| && t in s.waiters[m] && s.owner[m].Some? && s.owner[m].value < |s.init|
    ensures Want(Leave(s, t, m), s.owner[m].value) >= s.curr[s.owner[m].value]
  {
    LeaveKeeps(s, t, m);
    var o := s.owner[m].value;
    assert MutexOk(s, m) && QueueOk(s, m) && PrioOk(s, o);
    assert ThreadOk(s, s.waiters[m][0]) by { assert s.waiters[m][0] in s.waiters[m]; }
    WithoutHead(s.curr, s.waiters[m], t);
    MinPrioMonotone(s.prio, s.taken[o], s.init[o], s.init[o], m, HeadPrio(s.curr, Without(s.waiters[m], t)));
  }

  /** A drop takes one edge away and changes the priority of no thread on a remaining cycle. */
  lemma DropCycles(s: Sys, t: nat)
    requires Inv(s) && Callable(s, DoDrop(t))
    ensures var r := Drop(s, t);
      && Cut(s, r, t) && r.init == s.init && |r.curr| == |s.curr| == |s.init|
      && (forall v: nat | WaitsFor(r, v, v) :: v < |s.curr| && r.curr[v] == s.curr[v])
  {
    var m := s.pending[t].value;
    LeaveKeeps(s, t, m);
    LeaveLowers(s, t, m);
    var l, o := Leave(s, t, m), s.owner[m].value;
    var r := Drop(s, t);
    SettleEdges(l, o);
    assert Cut(s, l, t);
    forall v: nat | WaitsFor(l, v, v) ensures Level(l, v) {
      CutCycles(s, l, t, v);
      var y := CycleLevel(s, v);
      assert y != t by {
        if y == t { assert Iter(s, v, 0) == Some(v); CutStays(s, t, v, y); }
      }
      CutCycles(s, l, t, y);
      CutStays(s, t, v, y);
    }
    SettleCycles(l, o);
    forall v: nat | WaitsFor(r, v, v) ensures WaitsFor(l, v, v) { SameWaits(l, r, v, v); }
    hide Settle, Inv, InvBut;
  }

  /** The thread in front of v on a cycle that avoids t avoids t as well. */
  lemma CutStays(s: Sys, t: nat, v: nat, y: nat)
    requires !Reaches(s, v, t) && WaitsFor(s, v, v) && Succ(s, y) == Some(v) && WaitsFor(s, y, y)
    ensures !Reaches(s, y, t)
  {
    forall i: nat ensures Iter(s, y, i) != Some(t) {
      if i > 0 {
        assert Iter(s, v, i - 1) != Some(t);
      } else {
        var k: nat :| k > 0 && Iter(s, y, k) == Some(y);
        assert Iter(s, v, k - 1) == Some(y);
      }
    }
  }

  /** The waiting thread t reaches every thread from which some deadlock that does not
      involve t has its priority. */
  ghost predicate Orphans(s: Sys, t: nat) {
    exists v: nat :: v < |s.curr| && WaitsFor(s, v, v) && !Reaches(s, v, t)
      && forall u: nat | u < |s.init| && Reaches(s, u, v) && s.curr[v] == s.init[u] :: Reaches(s, u, t)
  }

  /** After a timeout every thread runs at exactly its inherited priority unless the thread
      that gave up was the only way from a deadlock to the origin of its priority. */
  lemma DropInheritsIff(s: Sys, t: nat)
    requires Inv(s) && Callable(s, DoDrop(t))
    ensures AllInherit(Drop(s, t)) <==> !Orphans(s, t)
  {
    var r := Drop(s, t);
    DropCycles(s, t);
    InheritanceIff(r);
    forall v: nat ensures WaitsFor(r, v, v) <==> WaitsFor(s, v, v) && !Reaches(s, v, t) { CutCycles(s, r, t, v); }
    forall v: nat, u: nat | WaitsFor(r, v, v)
      ensures Reaches(r, u, v) <==> Reaches(s, u, v) && !Reaches(s, u, t)
    {
      CutReaches(s, r, t, u, v);
    }
    hide Inv, Drop, Callable, Reaches, WaitsFor;
    assert CyclesSourced(r) <==> !Orphans(s, t);
  }

  // -- The other calls ----------------------------------------------------------------

  lemma SameSourced(s: Sys, r: Sys, v: nat)
    requires Sourced(s, v) && r.init == s.init && r.curr == s.curr
    requires forall u: nat, w: nat | Reaches(s, u, w) :: Reaches(r, u, w)
    ensures Sourced(r, v)
  {
  }

  /** A round of the propagation gives its thread the priority of a thread that reaches it. */
  lemma FixSourced(s: Sys, t: nat, v: nat)
    requires InvBut(s, t) && t < |s.init| && v < |s.init| && forall u: nat | u < |s.init| :: Sourced(s, u)
    ensures Want(s, t) < LEVELS && Sourced(Fix(s, t, Want(s, t)), v)
  {
    WantBelowLevels(s, t);
    var r := Fix(s, t, Want(s, t));
    var u: nat;
    FixFrame(s, t, Want(s, t));
    assert Sourced(s, v);
    if v != t {
      u :| u < |s.init| && Reaches(s, u, v) && s.curr[v] == s.init[u];
    } else if Want(s, t) == s.init[t] {
      u := t;
      assert Iter(s, t, 0) == Some(t);
    } else {
      var w := BoostedBy(s, t);
      assert Sourced(s, w);
      u :| u < |s.init| && Reaches(s, u, w) && s.curr[w] == s.init[u];
      var k: nat :| Iter(s, u, k) == Some(w);
      IterAdd(s, u, k, 1);
      assert Iter(s, w, 1) == Some(t);
    }
    SameWaits(s, r, u, v);
  }

  lemma {:induction false} SettleSourced(s: Sys, t: nat)
    requires InvBut(s, t) && t < |s.init| && forall u: nat | u < |s.init| :: Sourced(s, u)
    ensures var r := Settle(s, t); r.init == s.init && forall u: nat | u < |s.init| :: Sourced(r, u)
    decreases Rank(s, t)
  {
    if Want(s, t) != s.curr[t] {
      FixKeeps(s, t);
      var r := Fix(s, t, Want(s, t));
      forall u: nat | u < |s.init| ensures Sourced(r, u) { FixSourced(s, t, u); }
      if s.pending[t].Some? {
        MeasureShrinks(s, t);
        SettleSourced(r, Succ(s, t).value);
      }
    }
  }

  /** Taking a mutex, or waiting for it, keeps inheritance exact even when it closes a cycle. */
  lemma TakeInherits(s: Sys, t: nat, m: nat, timeout: int, suspends: bool)
    requires Inv(s) && AllInherit(s) && Callable(s, DoTake(t, m, timeout, suspends))
    ensures AllInherit(Take(s, t, m, timeout, suspends).0)
  {
    var (r, e) := Take(s, t, m, timeout, suspends);
    InheritanceIff(r);
    assert MutexOk(s, m);
    forall x: nat | x < |s.pending| && s.pending[x] == Some(m) ensures s.owner[m].Some? { WaitsForOwner(s, x); }
    if e == Blocked {
      WaitKeeps(s, t, m);
      var w := Wait(s, t, m);
      forall u: nat, v: nat | Reaches(s, u, v) ensures Reaches(w, u, v) {
        var k: nat :| Iter(s, u, k) == Some(v);
        MorePaths(s, w, t, u, k);
      }
      forall u: nat | u < |s.init| ensures Sourced(w, u) { assert Inherits(s, u); SameSourced(s, w, u); }
      SettleSourced(w, s.owner[m].value);
      SettleEdges(w, s.owner[m].value);
    } else {
      forall u: nat, v: nat ensures Reaches(r, u, v) == Reaches(s, u, v) { SameWaits(s, r, u, v); }
      forall u: nat | u < |s.init| ensures Sourced(r, u) { assert Inherits(s, u); SameSourced(s, r, u); }
    }
    forall v: nat | WaitsFor(r, v, v) ensures Sourced(r, v) { assert Succ(r, v).Some?; }
    hide Settle, Inv, InvBut;
  }

  /** With one more edge from a thread that waited for nobody all paths stay. */
  lemma {:induction false} MorePaths(s: Sys, r: Sys, t: nat, u: nat, k: nat)
    requires Succ(s, t).None? && forall x: nat | x != t :: Succ(r, x) == Succ(s, x)
    requires Iter(s, u, k).Some?
    ensures Iter(r, u, k) == Iter(s, u, k)
    decreases k
  {
    if k > 0 { MorePaths(s, r, t, Succ(s, u).value, k - 1); }
  }

  /** A path that does not end at t does not use the edges into t. */
  lemma {:induction false} PastSink(s: Sys, r: Sys, t: nat, u: nat, k: nat)
    requires Succ(s, t).None? && forall x: nat | Succ(s, x) != Some(t) :: Succ(r, x) == Succ(s, x)
    requires Iter(s, u, k).Some? && Iter(s, u, k) != Some(t)
    ensures Iter(r, u, k) == Iter(s, u, k)
    decreases k
  {
    if k > 0 { PastSink(s, r, t, Succ(s, u).value, k - 1); }
  }

  /** A release, also one that finds late waiters, keeps inheritance exact. */
  lemma ReleaseInherits(s: Sys, t: nat, m: nat, late: set<nat>)
    requires Inv(s) && AllInherit(s) && Callable(s, DoRelease(t, m, late))
    ensures AllInherit(Release(s, t, m, late).0)
  {
    var r := Release(s, t, m, late).0;
    InheritanceIff(r);
    assert MutexOk(s, m);
    if s.owner[m] == Some(t) && s.hold[m] == 1 {
      UntakeLoose(s, t, m);
      var w, k := s.waiters[m], FirstReady(s.waiters[m], late);
      assert forall x: nat | Succ(s, x) != Some(t) :: Succ(r, x) == Succ(s, x);
    }
    forall v: nat | WaitsFor(r, v, v) ensures Sourced(r, v) {
      assert Succ(r, v).Some? && Succ(r, t).None?;
      assert Inherits(s, v);
      var u: nat :| u < |s.init| && Reaches(s, u, v) && s.curr[v] == s.init[u];
      var k: nat :| Iter(s, u, k) == Some(v);
      PastSink(s, r, t, u, k);
      assert Reaches(r, u, v);
    }
    hide Inv, ThreadOk, MutexOk, Sorted, HeadPrio, MinPrio;
  }

  /** From a state in which every thread runs at exactly its inherited priority, a call leads
      to such a state unless it is a timeout that orphans a deadlock. */
  lemma StepInheritsIff(s: Sys, call: Call)
    requires Inv(s) && AllInherit(s) && Callable(s, call)
    ensures AllInherit(Step(s, call)) <==> !(call.DoDrop? && Orphans(s, call.t))
  {
    match call
    case DoTake(t, m, timeout, suspends) => TakeInherits(s, t, m, timeout, suspends);
    case DoRelease(t, m, late) => ReleaseInherits(s, t, m, late);
    case DoDrop(t) => DropInheritsIff(s, t);
  }

  /** No call of the run was such a timeout. */
  ghost predicate OrphanFree(init: seq<nat>, n: nat, calls: seq<Call>)
    requires forall t | 0 <= t < |init| :: init[t] < LEVELS
  {
    calls == [] ||
    var (before, call) := (Run(init, n, calls[..|calls| - 1]), calls[|calls| - 1]);
    OrphanFree(init, n, calls[..|calls| - 1]) && before.Some? && !(call.DoDrop? && Orphans(before.value, call.t))
  }

  /** Priorities were exact after every call of the run. */
  ghost predicate AlwaysInherits(init: seq<nat>, n: nat, calls: seq<Call>)
    requires forall t | 0 <= t < |init| :: init[t] < LEVELS
  {
    Run(init, n, calls).Some? && AllInherit(Run(init, n, calls).value) &&
    (calls == [] || AlwaysInherits(init, n, calls[..|calls| - 1]))
  }

  /** Over a whole run, with or without deadlocks: after every call every thread runs at the
      least initial priority of the threads that reach it, just when no timeout of the run
      orphaned a deadlock. */
  lemma {:induction false} InheritanceInRunsIff(init: seq<nat>, n: nat, calls: seq<Call>)
    requires forall t | 0 <= t < |init| :: init[t] < LEVELS
    requires Run(init, n, calls).Some?
    ensures AlwaysInherits(init, n, calls) <==> OrphanFree(init, n, calls)
  {
    if calls == [] {
      var s := Run(init, n, calls).value;
      forall u: nat, k: nat | k > 0 ensures Iter(s, u, k) != Some(u) { assert Succ(s, u).None?; }
      Inheritance(s);
    } else {
      InheritanceInRunsIff(init, n, calls[..|calls| - 1]);
      var s, call := Run(init, n, calls[..|calls| - 1]).value, calls[|calls| - 1];
      if AllInherit(s) { StepInheritsIff(s, call); }
    }
  }

  // -- A run that orphans a deadlock --------------------------------------------------

  lemma RunOneMore(init: seq<nat>, n: nat, calls: seq<Call>, call: Call, before: Sys)
    requires forall t | 0 <= t < |init| :: init[t] < LEVELS
    requires Run(init, n, calls) == Some(before) && Callable(before, call)
    ensures Run(init, n, calls + [call]) == Some(Step(before, call))
  {
  }

  /** Threads 0 and 1 of priority 10, thread 2 of priority 5, two mutexes. Thread 2 waits for
      thread 0, which waits for thread 1, which waits for thread 0; then thread 2 gives up. */
  function DeadlockCalls(): seq<Call> {
    [DoTake(0, 0, -1, true)] + [DoTake(1, 1, -1, true)] + [DoTake(2, 0, 7, true)] +
    [DoTake(0, 1, -1, true)] + [DoTake(1, 0, -1, true)] + [DoDrop(2)]
  }

  lemma FirstStep(s: Sys)
    requires s == Start([10, 10, 5], 2)
    ensures Inv(s) && Callable(s, DoTake(0, 0, -1, true)) && Step(s, DoTake(0, 0, -1, true)) == OwnedOne()
    ensures Inv(OwnedOne())
  {
    StartInv([10, 10, 5], 2);
    assert s.pending == [None, None, None] && s.taken == [[], [], []];
    assert s.owner == [None, None] && s.prio == [NOBODY, NOBODY] && s.hold == [0, 0] && s.waiters == [[], []];
    assert [0] + s.taken[0] == [0];
    assert Acquire(s, 0, 0) == OwnedOne();
    hide Inv;
  }

  lemma SecondStep()
    requires Inv(OwnedOne())
    ensures Callable(OwnedOne(), DoTake(1, 1, -1, true)) && Step(OwnedOne(), DoTake(1, 1, -1, true)) == Owned()
    ensures Inv(Owned())
  {
    var s := OwnedOne();
    assert [1] + s.taken[1] == [1];
    assert Acquire(s, 1, 1) == Owned();
    hide Inv;
  }

  /** Thread 0 owns mutex 0. */
  function OwnedOne(): Sys {
    Sys([10, 10, 5], [10, 10, 5], [None, None, None], [[0], [], []],
        [Some(0), None], [NOBODY, NOBODY], [1, 0], [[], []])
  }

  /** Thread 0 owns mutex 0 and thread 1 owns mutex 1. */
  function Owned(): Sys {
    Sys([10, 10, 5], [10, 10, 5], [None, None, None], [[0], [1], []],
        [Some(0), Some(1)], [NOBODY, NOBODY], [1, 1], [[], []])
  }

  /** Thread 2 waits for mutex 0 and thread 0 has inherited its priority. */
  function Boosted(): Sys {
    Owned().(curr := [5, 10, 5], pending := [None, None, Some(0)], prio := [5, NOBODY], waiters := [[2], []])
  }

  /** Thread 0 waits for mutex 1 as well and passes the boost on. */
  function Chained(): Sys {
    Boosted().(curr := [5, 5, 5], pending := [Some(1), None, Some(0)], prio := [5, 5], waiters := [[2], [0]])
  }

  /** Thread 1 waits for mutex 0: a deadlock. */
  function Closed(): Sys {
    Chained().(pending := [Some(1), Some(0), Some(0)], waiters := [[2, 1], [0]])
  }

  /** Thread 2 has given up; the boost goes around in the cycle. */
  function Stuck(): Sys {
    Closed().(pending := [Some(1), Some(0), None], waiters := [[1], [0]])
  }

  lemma BoostStep()
    requires Inv(Owned())
    ensures Callable(Owned(), DoTake(2, 0, 7, true)) && Step(Owned(), DoTake(2, 0, 7, true)) == Boosted()
    ensures Inv(Boosted())
  {
    var s := Owned();
    var r := Wait(s, 2, 0);
    WaitKeeps(s, 2, 0);
    assert Enqueue(s.curr, [], 2) == [2];
    assert r == s.(pending := [None, None, Some(0)], prio := [5, NOBODY], waiters := [[2], []]);
    assert MinPrio(r.prio, [0], 10) == MinPrio(r.prio, [], 5);
    assert Want(r, 0) == 5;
    assert Fix(r, 0, 5) == Boosted();
  }

  lemma ChainStep()
    requires Inv(Boosted())
    ensures Callable(Boosted(), DoTake(0, 1, -1, true)) && Step(Boosted(), DoTake(0, 1, -1, true)) == Chained()
    ensures Inv(Chained())
  {
    var s := Boosted();
    var r := Wait(s, 0, 1);
    WaitKeeps(s, 0, 1);
    assert Enqueue(s.curr, [], 0) == [0];
    assert r == s.(pending := [Some(1), None, Some(0)], prio := [5, 5], waiters := [[2], [0]]);
    assert MinPrio(r.prio, [1], 10) == MinPrio(r.prio, [], 5);
    assert Fix(r, 1, 5) == Chained();
  }

  lemma CloseStep()
    requires Inv(Chained())
    ensures Callable(Chained(), DoTake(1, 0, -1, true)) && Step(Chained(), DoTake(1, 0, -1, true)) == Closed()
    ensures Inv(Closed())
    ensures Deadlocks(Chained(), DoTake(1, 0, -1, true))
  {
    var s := Chained();
    var r := Wait(s, 1, 0);
    WaitKeeps(s, 1, 0);
    assert Prios(s.curr, [2]) == [5] && Slot([5], 5) == 1;
    assert Enqueue(s.curr, [2], 1) == [2, 1];
    assert r == Closed();
    assert MinPrio(r.prio, [0], 10) == MinPrio(r.prio, [], 5);
    assert Iter(s, 0, 1) == Some(1);
  }

  lemma DropStep()
    requires Inv(Closed())
    ensures Callable(Closed(), DoDrop(2)) && Step(Closed(), DoDrop(2)) == Stuck() && Inv(Stuck())
  {
    var s := Closed();
    var r := Leave(s, 2, 0);
    LeaveKeeps(s, 2, 0);
    assert Without([2, 1], 2) == [1];
    assert r == Stuck();
    assert MinPrio(r.prio, [0], 10) == MinPrio(r.prio, [], 5);
  }

  lemma RunToStuck()
    ensures Run([10, 10, 5], 2, DeadlockCalls()[..5]) == Some(Closed()) && Inv(Closed())
    ensures Run([10, 10, 5], 2, DeadlockCalls()) == Some(Stuck()) && Inv(Stuck())
    ensures Callable(Closed(), DoDrop(2)) && Step(Closed(), DoDrop(2)) == Stuck()
  {
    var init, s := [10, 10, 5], Start([10, 10, 5], 2);
    FirstStep(s);
    SecondStep();
    var a, b, c := DoTake(0, 0, -1, true), DoTake(1, 1, -1, true), DoTake(2, 0, 7, true);
    var d, e := DoTake(0, 1, -1, true), DoTake(1, 0, -1, true);
    RunOneMore(init, 2, [], a, s);
    hide *;
    RunOneMore(init, 2, [] + [a], b, OwnedOne());
    BoostStep();
    RunOneMore(init, 2, [] + [a] + [b], c, Owned());
    ChainStep();
    RunOneMore(init, 2, [] + [a] + [b] + [c], d, Boosted());
    CloseStep();
    RunOneMore(init, 2, [] + [a] + [b] + [c] + [d], e, Chained());
    DropStep();
    RunOneMore(init, 2, [] + [a] + [b] + [c] + [d] + [e], DoDrop(2), Closed());
    CallsUnfold();
  }

  lemma CallsUnfold()
    ensures var x := [] + [DoTake(0, 0, -1, true)] + [DoTake(1, 1, -1, true)] + [DoTake(2, 0, 7, true)]
                     + [DoTake(0, 1, -1, true)] + [DoTake(1, 0, -1, true)];
      x == DeadlockCalls()[..5] && x + [DoDrop(2)] == DeadlockCalls()
  {
  }

  lemma NoOrigin()
    ensures !Sourced(Stuck(), 0) && WaitsFor(Stuck(), 0, 0)
  {
    assert Succ(Stuck(), 0) == Some(1) && Succ(Stuck(), 1) == Some(0);
    assert Iter(Stuck(), 1, 1) == Some(0) && Iter(Stuck(), 0, 2) == Some(0);
  }

  /** The last call of the run orphans the deadlock: the invariant still holds, but thread 0
      runs at priority 5 while both threads that reach it start at 10. */
  lemma DeadlockKeepsBoost()
    ensures Run([10, 10, 5], 2, DeadlockCalls()) == Some(Stuck()) && Inv(Stuck())
    ensures !CyclesSourced(Stuck()) && !Inherits(Stuck(), 0)
    ensures Run([10, 10, 5], 2, DeadlockCalls()[..5]) == Some(Closed()) && Orphans(Closed(), 2)
  {
    RunToStuck();
    NoOrigin();
    DropInheritsIff(Closed(), 2);
    assert Step(Closed(), DoDrop(2)) == Drop(Closed(), 2);
    assert !Inherits(Stuck(), 0) && 0 < |Stuck().init|;
    hide Inv, Run, Closed, Orphans, Drop, Callable, DeadlockCalls, WaitsFor;
  }
}
