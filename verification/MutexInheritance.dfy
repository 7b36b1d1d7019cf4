/** Transitive priority inheritance: what the invariant of MutexCalls means for the current
    priority of a thread, and which calls can break its precondition. */
module MutexInheritance {
  import opened Options
  import opened PrioOrder
  import opened MutexModel
  import opened MutexCalls

  /** The thread k waits-for edges away from u. */
  ghost function Iter(s: Sys, u: nat, k: nat): Option<nat>
    decreases k
  {
    if k == 0 then Some(u)
    else match Succ(s, u)
      case None => None
      case Some(v) => Iter(s, v, k - 1)
  }

  /** u waits for t, perhaps through other threads, or is t. */
  ghost predicate Reaches(s: Sys, u: nat, t: nat) {
    exists k: nat :: Iter(s, u, k) == Some(t)
  }

  /** u waits for t, perhaps through other threads. */
  ghost predicate WaitsFor(s: Sys, u: nat, t: nat) {
    exists k: nat :: k > 0 && Iter(s, u, k) == Some(t)
  }

  /** No deadlock: nobody waits for itself. */
  ghost predicate Acyclic(s: Sys) {
    forall u: nat :: !WaitsFor(s, u, u)
  }

  /** t runs at the initial priority of a thread that reaches it. */
  ghost predicate Sourced(s: Sys, t: nat) {
    t < |s.curr| && exists u: nat :: u < |s.init| && Reaches(s, u, t) && s.curr[t] == s.init[u]
  }

  /** The current priority of t is the least initial priority of the threads that reach t. */
  ghost predicate Inherits(s: Sys, t: nat) {
    Sourced(s, t) && forall u: nat | u < |s.init| && Reaches(s, u, t) :: s.curr[t] <= s.init[u]
  }

  ghost predicate AllInherit(s: Sys) {
    forall t: nat | t < |s.init| :: Inherits(s, t)
  }

  lemma {:induction false} IterAdd(s: Sys, u: nat, j: nat, k: nat)
    requires Iter(s, u, j).Some?
    ensures Iter(s, u, j + k) == Iter(s, Iter(s, u, j).value, k)
    decreases j
  {
    if j > 0 { IterAdd(s, Succ(s, u).value, j - 1, k); }
  }

  /** The priority due to a thread is at least that of every thread waiting for it. */
  lemma SuccWant(s: Sys, u: nat)
    requires Graph(s) && u < |s.init| && Succ(s, u).Some? && forall m | 0 <= m < |s.owner| :: QueueOk(s, m)
    ensures Succ(s, u).value < |s.init| && Want(s, Succ(s, u).value) <= s.curr[u]
  {
    WaitsForOwner(s, u);
    var m, o := s.pending[u].value, Succ(s, u).value;
    assert ThreadOk(s, u) && MutexOk(s, m) && QueueOk(s, m);
    var i :| 0 <= i < |s.waiters[m]| && s.waiters[m][i] == u;
    assert Prios(s.curr, s.waiters[m])[0] <= Prios(s.curr, s.waiters[m])[i];
    MinPrioIsMin(s.prio, s.taken[o], s.init[o]);
  }

  lemma SuccCurr(s: Sys, u: nat)
    requires Inv(s) && u < |s.init| && Succ(s, u).Some?
    ensures Succ(s, u).value < |s.init| && s.curr[Succ(s, u).value] <= s.curr[u]
  {
    SuccWant(s, u);
    assert PrioOk(s, Succ(s, u).value);
  }

  /** Whoever is waited for runs at least at the priority of every waiter, deadlock or not. */
  lemma {:induction false} InheritsAtLeast(s: Sys, u: nat, t: nat, k: nat)
    requires Inv(s) && u < |s.init| && Iter(s, u, k) == Some(t)
    ensures t < |s.init| && s.curr[t] <= s.curr[u] <= s.init[u]
    decreases k
  {
    assert PrioOk(s, u);
    MinPrioIsMin(s.prio, s.taken[u], s.init[u]);
    if k > 0 {
      SuccCurr(s, u);
      InheritsAtLeast(s, Succ(s, u).value, t, k - 1);
    }
  }

  /** A thread due a priority above its own owes it to a thread waiting for it directly. */
  lemma BoostedBy(s: Sys, t: nat) returns (u: nat)
    requires Graph(s) && t < |s.init| && forall m | 0 <= m < |s.owner| :: QueueOk(s, m)
    requires Want(s, t) != s.init[t]
    ensures u < |s.init| && u != t && Succ(s, u) == Some(t) && s.curr[u] == Want(s, t)
  {
    assert ThreadOk(s, t);
    MinPrioIsMin(s.prio, s.taken[t], s.init[t]);
    var m :| m in s.taken[t] && m < |s.prio| && Want(s, t) == s.prio[m];
    assert QueueOk(s, m) && MutexOk(s, m);
    u := s.waiters[m][0];
    assert u in s.waiters[m] && Prios(s.curr, s.waiters[m])[0] == s.curr[u];
  }

  /** Every thread on a cycle runs at the initial priority of a thread that reaches it. */
  ghost predicate CyclesSourced(s: Sys) {
    forall v: nat | WaitsFor(s, v, v) :: Sourced(s, v)
  }

  lemma SourcedAlong(s: Sys, v: nat, t: nat, k: nat)
    requires Sourced(s, v) && t < |s.curr| && Iter(s, v, k) == Some(t) && s.curr[v] == s.curr[t]
    ensures Sourced(s, t)
  {
    var u: nat :| u < |s.init| && Reaches(s, u, v) && s.curr[v] == s.init[u];
    var j: nat :| Iter(s, u, j) == Some(v);
    IterAdd(s, u, j, k);
    assert Reaches(s, u, t);
  }

  /** Following the boosts backwards ends at a thread running at its initial priority, or at
      a thread met before, which is on a cycle. */
  lemma {:induction false} BoostOrigin(s: Sys, t: nat, v: nat, k: nat, seen: set<nat>)
    requires Inv(s) && CyclesSourced(s) && t < |s.init| && v < |s.init|
    requires Iter(s, v, k) == Some(t) && s.curr[v] == s.curr[t]
    requires forall x | x in seen :: x < |s.init| && WaitsFor(s, v, x)
    ensures Sourced(s, t)
    decreases |s.init| - |seen|
  {
    if s.curr[v] == s.init[v] { assert Reaches(s, v, t); return; }
    if v in seen { SourcedAlong(s, v, t, k); return; }
    assert PrioOk(s, v);
    var w := BoostedBy(s, v);
    forall x | x in seen + {v} ensures x < |s.init| && WaitsFor(s, w, x) {
      if x == v { assert Iter(s, v, 0) == Some(v); assert Iter(s, w, 1) == Some(x); }
      else {
        var j: nat :| j > 0 && Iter(s, v, j) == Some(x);
        assert Iter(s, w, j + 1) == Some(x);
      }
    }
    SeenBound(seen + {v}, |s.init|);
    assert Iter(s, w, k + 1) == Some(t);
    BoostOrigin(s, t, w, k + 1, seen + {v});
  }

  lemma {:induction false} SeenBound(seen: set<nat>, n: nat)
    requires forall x | x in seen :: x < n
    ensures |seen| <= n
  {
    if n == 0 { assert seen == {}; }
    else {
      SeenBound(seen - {n - 1}, n - 1);
    }
  }

  /** Transitive priority inheritance, deadlock or not: it is exact for every thread just
      when it is exact on the cycles. */
  lemma InheritanceIff(s: Sys)
    requires Inv(s)
    ensures AllInherit(s) <==> CyclesSourced(s)
  {
    if AllInherit(s) {
      forall v: nat | WaitsFor(s, v, v) ensures Sourced(s, v) {
        assert Succ(s, v).Some?;
        assert Inherits(s, v);
      }
    }
    if CyclesSourced(s) {
      forall t: nat | t < |s.init| ensures Inherits(s, t) {
        forall u: nat | u < |s.init| && Reaches(s, u, t) ensures s.curr[t] <= s.init[u] {
          var k: nat :| Iter(s, u, k) == Some(t);
          InheritsAtLeast(s, u, t, k);
        }
        assert Iter(s, t, 0) == Some(t);
        BoostOrigin(s, t, t, 0, {});
      }
    }
  }

  /** Without a deadlock every thread runs at exactly its inherited priority. */
  lemma Inheritance(s: Sys)
    requires Inv(s) && Acyclic(s)
    ensures AllInherit(s)
  {
    InheritanceIff(s);
  }

  // -- Which calls can close a cycle ---------------------------------------------------

  /** Fewer waits-for edges mean fewer paths. */
  lemma {:induction false} FewerEdges(s: Sys, r: Sys, u: nat, k: nat)
    requires forall x: nat :: Succ(r, x).Some? ==> Succ(r, x) == Succ(s, x)
    ensures Iter(r, u, k).Some? ==> Iter(r, u, k) == Iter(s, u, k)
    decreases k
  {
    if k > 0 && Succ(r, u).Some? { FewerEdges(s, r, Succ(r, u).value, k - 1); }
  }

  /** New edges into a thread that waits for nobody close no cycle. */
  lemma {:induction false} EdgesIntoSink(s: Sys, r: Sys, next: nat, u: nat, k: nat)
    requires Succ(r, next).None?
    requires forall x: nat :: Succ(r, x).Some? && Succ(r, x) != Some(next) ==> Succ(r, x) == Succ(s, x)
    ensures Iter(r, u, k).Some? && Iter(r, u, k) != Some(next) ==> Iter(r, u, k) == Iter(s, u, k)
    decreases k
  {
    if k > 0 && Succ(r, u).Some? { EdgesIntoSink(s, r, next, Succ(r, u).value, k - 1); }
  }

  /** With one more edge t -> o, whatever reaches t did so before. */
  lemma {:induction false} ReachesBefore(s: Sys, r: Sys, t: nat, u: nat, k: nat) returns (j: nat)
    requires forall x: nat | x != t :: Succ(r, x) == Succ(s, x)
    requires Iter(r, u, k) == Some(t)
    ensures Iter(s, u, j) == Some(t)
    decreases k
  {
    if u == t { return 0; }
    var i := ReachesBefore(s, r, t, Succ(r, u).value, k - 1);
    return i + 1;
  }

  /** A path of the larger graph that avoids t is one of the smaller graph, or it meets t. */
  lemma {:induction false} MeetsOrKeeps(s: Sys, r: Sys, t: nat, u: nat, k: nat) returns (j: nat)
    requires forall x: nat | x != t :: Succ(r, x) == Succ(s, x)
    ensures Iter(r, u, k) == Iter(s, u, k) || (j < k && Iter(r, u, j) == Some(t))
    decreases k
  {
    j := 0;
    if k > 0 && u != t && Succ(r, u).Some? {
      var i := MeetsOrKeeps(s, r, t, Succ(r, u).value, k - 1);
      j := i + 1;
    }
  }

  lemma NewEdge(s: Sys, r: Sys, t: nat, o: nat)
    requires Acyclic(s) && Succ(s, t).None? && Succ(r, t) == Some(o)
    requires forall x: nat | x != t :: Succ(r, x) == Succ(s, x)
    ensures Acyclic(r) <==> !Reaches(s, o, t)
  {
    if k: nat :| Iter(s, o, k) == Some(t) {
      OldPath(s, r, t, o, k);
      assert Iter(r, t, k + 1) == Some(t) && WaitsFor(r, t, t);
    }
    if !Acyclic(r) {
      var u: nat :| WaitsFor(r, u, u);
      var k: nat :| k > 0 && Iter(r, u, k) == Some(u);
      var j := MeetsOrKeeps(s, r, t, u, k);
      assert !WaitsFor(s, u, u);
      IterAdd(r, u, j, k - j);
      IterAdd(r, t, k - j, j);
      assert Iter(r, t, k) == Some(t);
      var i := ReachesBefore(s, r, t, o, k - 1);
    }
  }

  lemma {:induction false} OldPath(s: Sys, r: Sys, t: nat, u: nat, k: nat)
    requires Succ(s, t).None? && forall x: nat | x != t :: Succ(r, x) == Succ(s, x)
    requires Iter(s, u, k) == Some(t)
    ensures Iter(r, u, k) == Some(t)
    decreases k
  {
    if k > 0 { OldPath(s, r, t, Succ(s, u).value, k - 1); }
  }

  /** The only call that can close a cycle is a blocking take, and it does so exactly when
      the owner already waits for the caller, or is on the way to it. */
  ghost predicate Deadlocks(s: Sys, call: Call) {
    call.DoTake? && call.timeout != 0 && call.suspends && call.m < |s.owner| &&
    s.owner[call.m].Some? && s.owner[call.m].value != call.t && Reaches(s, s.owner[call.m].value, call.t)
  }

  lemma TakeCycle(s: Sys, t: nat, m: nat, timeout: int, suspends: bool)
    requires Inv(s) && Acyclic(s) && Callable(s, DoTake(t, m, timeout, suspends))
    ensures Acyclic(Take(s, t, m, timeout, suspends).0) <==> !Deadlocks(s, DoTake(t, m, timeout, suspends))
  {
    var (r, e) := Take(s, t, m, timeout, suspends);
    assert MutexOk(s, m);
    forall x: nat | x < |s.pending| && s.pending[x] == Some(m) ensures s.owner[m].Some? { WaitsForOwner(s, x); }
    if e == Blocked {
      WaitKeeps(s, t, m);
      SettleEdges(Wait(s, t, m), s.owner[m].value);
      NewEdge(s, r, t, s.owner[m].value);
    } else {
      SameEdges(s, r);
    }
    hide Settle, Inv, InvBut;
  }

  lemma SameEdges(s: Sys, r: Sys)
    requires Acyclic(s) && forall x: nat :: Succ(r, x).Some? ==> Succ(r, x) == Succ(s, x)
    ensures Acyclic(r)
  {
    forall u: nat, k: nat | k > 0 ensures Iter(r, u, k) != Some(u) {
      assert !WaitsFor(s, u, u);
      FewerEdges(s, r, u, k);
    }
  }

  lemma DropCycle(s: Sys, t: nat)
    requires Inv(s) && Acyclic(s) && Callable(s, DoDrop(t))
    ensures Acyclic(Drop(s, t))
  {
    LeaveKeeps(s, t, s.pending[t].value);
    SettleEdges(Leave(s, t, s.pending[t].value), s.owner[s.pending[t].value].value);
    SameEdges(s, Drop(s, t));
    hide Settle, Inv, InvBut;
  }

  lemma ReleaseCycle(s: Sys, t: nat, m: nat, late: set<nat>)
    requires Inv(s) && Acyclic(s) && Callable(s, DoRelease(t, m, late))
    ensures Acyclic(Release(s, t, m, late).0)
  {
    var r := Release(s, t, m, late).0;
    assert MutexOk(s, m);
    if s.owner[m] == Some(t) && s.hold[m] == 1 {
      UntakeLoose(s, t, m);
      var w, k := s.waiters[m], FirstReady(s.waiters[m], late);
      if k < |w| {
        assert w[k] in w && w[k] in w[..k + 1];
        forall u: nat, i: nat | i > 0 ensures Iter(r, u, i) != Some(u) {
          assert !WaitsFor(s, u, u);
          EdgesIntoSink(s, r, w[k], u, i);
        }
      } else {
        SameEdges(s, r);
      }
    } else {
      SameEdges(s, r);
    }
    hide Inv, ThreadOk, MutexOk, Sorted, HeadPrio, MinPrio;
  }

  /** A call keeps the graph free of cycles exactly when it is not such a take. */
  lemma StepCycle(s: Sys, call: Call)
    requires Inv(s) && Acyclic(s) && Callable(s, call)
    ensures Acyclic(Step(s, call)) <==> !Deadlocks(s, call)
  {
    match call
    case DoTake(t, m, timeout, suspends) => TakeCycle(s, t, m, timeout, suspends);
    case DoRelease(t, m, late) => ReleaseCycle(s, t, m, late);
    case DoDrop(t) => DropCycle(s, t);
  }

  /** No call of the run closed a cycle. */
  ghost predicate DeadlockFree(init: seq<nat>, n: nat, calls: seq<Call>)
    requires forall t | 0 <= t < |init| :: init[t] < LEVELS
  {
    calls == [] ||
    var before := Run(init, n, calls[..|calls| - 1]);
    DeadlockFree(init, n, calls[..|calls| - 1]) && before.Some? && !Deadlocks(before.value, calls[|calls| - 1])
  }

  /** In every run without a deadlock, after every call every thread runs at the least initial
      priority of the threads that wait for it. */
  lemma {:induction false} InheritanceInRuns(init: seq<nat>, n: nat, calls: seq<Call>)
    requires forall t | 0 <= t < |init| :: init[t] < LEVELS
    requires Run(init, n, calls).Some? && DeadlockFree(init, n, calls)
    ensures Acyclic(Run(init, n, calls).value) && AllInherit(Run(init, n, calls).value)
  {
    var s := Run(init, n, calls).value;
    if calls == [] {
      forall u: nat, k: nat | k > 0 ensures Iter(s, u, k) != Some(u) { assert Succ(s, u).None?; }
    } else {
      InheritanceInRuns(init, n, calls[..|calls| - 1]);
      StepCycle(Run(init, n, calls[..|calls| - 1]).value, calls[|calls| - 1]);
    }
    Inheritance(s);
  }
}
