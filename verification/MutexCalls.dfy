/** rt_mutex_take, rt_mutex_release and rt_mutex_drop_thread as functions on the system of
    threads and mutexes, and the invariant every run of them keeps. */
module MutexCalls {
  import opened Options
  import opened PrioOrder
  import opened Seqs
  import opened MutexModel

  /** Done is RT_EOK, Full -RT_EFULL, TimedOut -RT_ETIMEOUT, NotOwner -RT_ERROR; Blocked is a
      caller left on the wait list, NotSuspended one that rt_thread_suspend_to_list refused. */
  datatype Outcome = Done | Full | TimedOut | NotOwner | Blocked | NotSuspended

  /** t joins the wait list of m; the owner may have to inherit. */
  function Wait(s: Sys, t: nat, m: nat): Sys
    requires Shape(s) && t < |s.init| && m < |s.owner|
  {
    var w := Enqueue(s.curr, s.waiters[m], t);
    s.(waiters := s.waiters[m := w], pending := s.pending[t := Some(m)], prio := s.prio[m := HeadPrio(s.curr, w)])
  }

  /** t takes the mutex m that nobody owns. */
  function Acquire(s: Sys, t: nat, m: nat): Sys
    requires Shape(s) && t < |s.init| && m < |s.owner|
  {
    s.(owner := s.owner[m := Some(t)], prio := s.prio[m := NOBODY], hold := s.hold[m := 1],
       taken := s.taken[t := [m] + s.taken[t]])
  }

  lemma WaitKeeps(s: Sys, t: nat, m: nat)
    requires Inv(s) && t < |s.init| && m < |s.owner|
    requires s.pending[t].None? && s.owner[m].Some? && s.owner[m] != Some(t)
    ensures s.owner[m].value < |s.init| && InvBut(Wait(s, t, m), s.owner[m].value)
  {
    var r := Wait(s, t, m);
    WaitGraph(s, t, m);
    WaitQueues(s, t, m);
    assert MutexOk(s, m);
    var o := s.owner[m].value;
    forall u | 0 <= u < |r.init| && u != o ensures PrioOk(r, u) {
      assert ThreadOk(s, u) && PrioOk(s, u);
      MinPrioFrame(s.prio, s.taken[u], s.init[u], m, r.prio[m]);
    }
    hide Graph, QueueOk, MinPrio, Enqueue;
  }

  lemma WaitGraph(s: Sys, t: nat, m: nat)
    requires Graph(s) && t < |s.init| && m < |s.owner|
    requires s.pending[t].None? && s.owner[m].Some? && s.owner[m] != Some(t)
    ensures Graph(Wait(s, t, m))
  {
    var r := Wait(s, t, m);
    assert ThreadOk(s, t) && MutexOk(s, m);
    EnqueueMembers(s.curr, s.waiters[m], t);
    hide Enqueue, HeadPrio;
    forall u | 0 <= u < |r.init| ensures ThreadOk(r, u) { assert ThreadOk(s, u); }
    forall k | 0 <= k < |r.owner| ensures MutexOk(r, k) { assert MutexOk(s, k); }
  }

  lemma WaitQueues(s: Sys, t: nat, m: nat)
    requires Inv(s) && t < |s.init| && m < |s.owner| && s.pending[t].None?
    ensures var r := Wait(s, t, m); Shape(r) && forall k | 0 <= k < |r.owner| :: QueueOk(r, k)
  {
    assert MutexOk(s, m) && QueueOk(s, m);
    EnqueueKeeps(s.curr, s.waiters[m], t);
    forall k | 0 <= k < |s.owner| ensures QueueOk(Wait(s, t, m), k) { assert QueueOk(s, k); }
    hide Enqueue, HeadPrio, Sorted;
  }

  lemma AcquireKeeps(s: Sys, t: nat, m: nat)
    requires Inv(s) && t < |s.init| && m < |s.owner| && s.owner[m].None?
    ensures Inv(Acquire(s, t, m))
  {
    var r := Acquire(s, t, m);
    assert MutexOk(s, m) && QueueOk(s, m);
    assert m !in s.taken[t] by { assert ThreadOk(s, t); }
    forall u | 0 <= u < |r.init| ensures ThreadOk(r, u) { assert ThreadOk(s, u); }
    forall k | 0 <= k < |r.owner| ensures MutexOk(r, k) && QueueOk(r, k) { assert MutexOk(s, k) && QueueOk(s, k); }
    forall u | 0 <= u < |r.init| ensures PrioOk(r, u) {
      assert ThreadOk(s, u) && PrioOk(s, u);
      assert s.prio[m] == NOBODY && s.prio[m := NOBODY] == s.prio;
    }
    hide Sorted, HeadPrio;
  }

  /** rt_mutex_take by the running thread t. `suspends` is the answer of
      rt_thread_suspend_to_list; a caller left waiting returns only after a later release or drop. */
  ghost function Take(s: Sys, t: nat, m: nat, timeout: int, suspends: bool): (r: (Sys, Outcome))
    requires Inv(s) && t < |s.init| && m < |s.owner| && s.pending[t].None?
    ensures Inv(r.0)
  {
    if s.owner[m] == Some(t) then
      assert MutexOk(s, m);
      if s.hold[m] < HOLD_MAX then HoldKeeps(s, m, s.hold[m] + 1); (s.(hold := s.hold[m := s.hold[m] + 1]), Done)
      else (s, Full)
    else if s.owner[m].None? then AcquireKeeps(s, t, m); (Acquire(s, t, m), Done)
    else if timeout == 0 then (s, TimedOut)
    else if !suspends then (s, NotSuspended)
    else WaitKeeps(s, t, m); (Settle(Wait(s, t, m), s.owner[m].value), Blocked)
  }

  /** Which answer rt_mutex_take gives, and what has happened by then: a granted take changes
      owner, hold and the caller's taken list, a wait the caller's pending mutex; priorities
      and the order in wait lists follow from the invariant. */
  lemma TakeOutcome(s: Sys, t: nat, m: nat, timeout: int, suspends: bool)
    requires Inv(s) && t < |s.init| && m < |s.owner| && s.pending[t].None?
    ensures var ((r, e), other) := (Take(s, t, m, timeout, suspends), s.owner[m].Some? && s.owner[m] != Some(t));
      && (e == Done <==> s.owner[m].None? || (s.owner[m] == Some(t) && s.hold[m] < HOLD_MAX))
      && (e == Full <==> s.owner[m] == Some(t) && s.hold[m] == HOLD_MAX)
      && (e == TimedOut <==> other && timeout == 0)
      && (e == NotSuspended <==> other && timeout != 0 && !suspends)
      && (e == Blocked <==> other && timeout != 0 && suspends)
    ensures var (r, e) := Take(s, t, m, timeout, suspends);
      && Shape(r) && r.init == s.init && |r.owner| == |s.owner|
      && (e == Done ==>
            && r.owner == s.owner[m := Some(t)] && r.hold == s.hold[m := s.hold[m] + 1]
            && r.curr == s.curr && r.pending == s.pending && r.waiters == s.waiters && r.prio == s.prio
            && SameTaken(s, r, m))
      && (e == Blocked ==>
            && r.pending == s.pending[t := Some(m)]
            && r.owner == s.owner && r.hold == s.hold && r.taken == s.taken)
      && (e != Done && e != Blocked ==> r == s)
  {
    assert MutexOk(s, m) && QueueOk(s, m);
    var (r, e) := Take(s, t, m, timeout, suspends);
    if e == Blocked {
      WaitKeeps(s, t, m);
      SettleEdges(Wait(s, t, m), s.owner[m].value);
      hide Settle, Inv, InvBut;
    } else if s.owner[m].None? {
      assert s.prio[m := NOBODY] == s.prio;
    }
    hide MinPrio, Sorted;
  }

  /** Nobody's taken list has changed but for m. */
  ghost predicate SameTaken(s: Sys, r: Sys, m: nat) {
    |r.taken| == |s.taken| &&
    forall u, k: nat | 0 <= u < |s.taken| && k != m :: k in r.taken[u] <==> k in s.taken[u]
  }

  lemma HoldKeeps(s: Sys, m: nat, n: nat)
    requires Inv(s) && m < |s.owner| && s.owner[m].Some? && 0 < n <= HOLD_MAX
    ensures Inv(s.(hold := s.hold[m := n]))
  {
    var r := s.(hold := s.hold[m := n]);
    forall u | 0 <= u < |r.init| ensures ThreadOk(r, u) && PrioOk(r, u) { assert ThreadOk(s, u) && PrioOk(s, u); }
    forall k | 0 <= k < |r.owner| ensures MutexOk(r, k) && QueueOk(r, k) { assert MutexOk(s, k) && QueueOk(s, k); }
  }

  // -- Leaving a wait list ---------------------------------------------------------

  function Leave(s: Sys, t: nat, m: nat): Sys
    requires Shape(s) && t < |s.init| && m < |s.owner| && t in s.waiters[m]
  {
    var w := Without(s.waiters[m], t);
    s.(waiters := s.waiters[m := w], pending := s.pending[t := None], prio := s.prio[m := HeadPrio(s.curr, w)])
  }

  lemma LeaveGraph(s: Sys, t: nat, m: nat)
    requires Graph(s) && t < |s.init| && s.pending[t] == Some(m)
    ensures m < |s.owner| && t in s.waiters[m] && Graph(Leave(s, t, m))
  {
    assert ThreadOk(s, t) && MutexOk(s, m);
    var r := Leave(s, t, m);
    WithoutKeeps(s.curr, s.waiters[m], t);
    hide Without, HeadPrio, Sorted;
    forall u | 0 <= u < |r.init| ensures ThreadOk(r, u) { assert ThreadOk(s, u); }
    forall k | 0 <= k < |r.owner| ensures MutexOk(r, k) { assert MutexOk(s, k); }
  }

  lemma LeaveKeeps(s: Sys, t: nat, m: nat)
    requires Inv(s) && t < |s.init| && s.pending[t] == Some(m)
    ensures m < |s.owner| && t in s.waiters[m] && s.owner[m].Some? && s.owner[m].value < |s.init|
    ensures InvBut(Leave(s, t, m), s.owner[m].value)
  {
    LeaveGraph(s, t, m);
    var r := Leave(s, t, m);
    assert MutexOk(s, m) && QueueOk(s, m);
    WithoutKeeps(s.curr, s.waiters[m], t);
    forall k | 0 <= k < |s.owner| ensures QueueOk(r, k) { assert QueueOk(s, k); }
    var o := s.owner[m].value;
    forall u | 0 <= u < |r.init| && u != o ensures PrioOk(r, u) {
      assert ThreadOk(s, u) && PrioOk(s, u);
      MinPrioFrame(s.prio, s.taken[u], s.init[u], m, r.prio[m]);
    }
    hide Graph, MinPrio, Without, Sorted, HeadPrio;
  }

  /** rt_mutex_drop_thread, also the way out of a wait that timed out. */
  ghost function Drop(s: Sys, t: nat): (r: Sys)
    requires Inv(s) && t < |s.init| && s.pending[t].Some?
    ensures Inv(r)
  {
    LeaveKeeps(s, t, s.pending[t].value);
    Settle(Leave(s, t, s.pending[t].value), s.owner[s.pending[t].value].value)
  }

  /** A thread that leaves stops waiting; nothing else changes but priorities and wait lists. */
  lemma DropOutcome(s: Sys, t: nat)
    requires Inv(s) && t < |s.init| && s.pending[t].Some?
    ensures var r := Drop(s, t);
      && r.pending == s.pending[t := None]
      && r.owner == s.owner && r.hold == s.hold && r.taken == s.taken && r.init == s.init
  {
    LeaveKeeps(s, t, s.pending[t].value);
    SettleEdges(Leave(s, t, s.pending[t].value), s.owner[s.pending[t].value].value);
    hide Settle, Inv, InvBut;
  }

  // -- Release ---------------------------------------------------------------------

  /** The mutex leaves the taken list of its owner, whose priority is recomputed. */
  function Untake(s: Sys, t: nat, m: nat): Sys
    requires Shape(s) && t < |s.init| && m in s.taken[t]
  {
    var r := s.(taken := s.taken[t := Without(s.taken[t], m)]);
    r.(curr := r.curr[t := Want(r, t)])
  }

  function Cleared(pending: seq<Option<nat>>, ts: seq<nat>): (r: seq<Option<nat>>)
    ensures |r| == |pending|
  {
    seq(|pending|, u requires 0 <= u < |pending| => if u in ts then None else pending[u])
  }

  /** First waiter whose timeout has not fired. */
  function FirstReady(w: seq<nat>, late: set<nat>): (k: nat)
    ensures k <= |w| && (k < |w| ==> w[k] !in late) && forall i | 0 <= i < k :: w[i] in late
  {
    if w == [] || w[0] !in late then 0 else 1 + FirstReady(w[1..], late)
  }

  /** The mutex goes to the first waiter that can be made ready, or becomes free. */
  function HandOff(s: Sys, m: nat, late: set<nat>): Sys
    requires Shape(s) && m < |s.owner| && forall t | t in s.waiters[m] :: t < |s.init|
  {
    var w := s.waiters[m];
    var k := FirstReady(w, late);
    assert k < |w| ==> w[k] in s.waiters[m];
    if k == |w| then
      s.(waiters := s.waiters[m := []], pending := Cleared(s.pending, w),
         owner := s.owner[m := None], prio := s.prio[m := NOBODY], hold := s.hold[m := 0])
    else
      s.(waiters := s.waiters[m := w[k + 1..]], pending := Cleared(s.pending, w[..k + 1]),
         owner := s.owner[m := Some(w[k])], prio := s.prio[m := HeadPrio(s.curr, w[k + 1..])], hold := s.hold[m := 1],
         taken := s.taken[w[k] := [m] + s.taken[w[k]]])
  }

  /** Between leaving the old owner's taken list and the hand-off the mutex is nobody's. */
  ghost predicate Loose(s: Sys, m: nat) {
    && Shape(s) && m < |s.owner|
    && (forall t | 0 <= t < |s.init| :: ThreadOk(s, t) && PrioOk(s, t) && m !in s.taken[t])
    && (forall k | 0 <= k < |s.owner| :: QueueOk(s, k) && (k != m ==> MutexOk(s, k)))
    && Distinct(s.waiters[m])
    && (forall t | t in s.waiters[m] :: t < |s.init| && s.pending[t] == Some(m))
  }

  lemma UntakeLoose(s: Sys, t: nat, m: nat)
    requires Inv(s) && t < |s.init| && m < |s.owner| && s.owner[m] == Some(t) && s.pending[t].None?
    ensures m in s.taken[t] && Loose(Untake(s, t, m), m)
  {
    assert MutexOk(s, m) && ThreadOk(s, t);
    var r := Untake(s, t, m);
    WithoutKeeps(s.curr, s.taken[t], m);
    MinPrioIsMin(r.prio, r.taken[t], r.init[t]);
    forall u | 0 <= u < |r.init| ensures ThreadOk(r, u) && PrioOk(r, u) && m !in r.taken[u] {
      assert ThreadOk(s, u) && PrioOk(s, u);
    }
    forall k | 0 <= k < |r.owner| ensures QueueOk(r, k) && (k != m ==> MutexOk(r, k)) {
      assert QueueOk(s, k) && MutexOk(s, k);
      assert t !in s.waiters[k];
      PriosFrame(s.curr, s.waiters[k], t, r.curr[t]);
    }
    hide Without, Sorted, MinPrio, HeadPrio;
  }

  lemma HandOffFree(s: Sys, m: nat, late: set<nat>)
    requires Loose(s, m) && FirstReady(s.waiters[m], late) == |s.waiters[m]|
    ensures Inv(HandOff(s, m, late))
  {
    var r := HandOff(s, m, late);
    forall u | 0 <= u < |r.init| ensures ThreadOk(r, u) && PrioOk(r, u) {
      assert ThreadOk(s, u) && PrioOk(s, u);
      MinPrioFrame(s.prio, s.taken[u], s.init[u], m, NOBODY);
    }
    forall k | 0 <= k < |r.owner| ensures MutexOk(r, k) && QueueOk(r, k) {
      assert QueueOk(s, k) && (k != m ==> MutexOk(s, k));
    }
    hide Sorted, MinPrio, FirstReady;
  }

  /** The tail of a sorted list starts no earlier than any element before it. */
  lemma TailQueue(curr: seq<nat>, w: seq<nat>, k: nat)
    requires k < |w| && Sorted(Prios(curr, w)) && Distinct(w) && w[k] < |curr| && curr[w[k]] < NOBODY
    ensures Sorted(Prios(curr, w[k + 1..])) && Distinct(w[k + 1..])
    ensures HeadPrio(curr, w[k + 1..]) >= curr[w[k]]
  {
    var r := w[k + 1..];
    assert forall i | 0 <= i < |r| :: Prios(curr, r)[i] == Prios(curr, w)[k + 1 + i];
    assert Prios(curr, w)[k] == curr[w[k]];
    TailMembers(w, k);
  }

  lemma TailMembers(w: seq<nat>, k: nat)
    requires k < |w| && Distinct(w)
    ensures Distinct(w[k + 1..]) && forall t :: t in w[k + 1..] <==> t in w && t !in w[..k + 1]
  {
  }

  lemma HandOffGraph(s: Sys, m: nat, late: set<nat>)
    requires Loose(s, m) && FirstReady(s.waiters[m], late) < |s.waiters[m]|
    ensures Graph(HandOff(s, m, late))
  {
    var r := HandOff(s, m, late);
    var w, k := s.waiters[m], FirstReady(s.waiters[m], late);
    assert w[k] in w && ThreadOk(s, w[k]) && QueueOk(s, m);
    TailMembers(w, k);
    assert w[k] in w[..k + 1];
    hide Sorted, HeadPrio;
    forall u | 0 <= u < |r.init| ensures ThreadOk(r, u) { assert ThreadOk(s, u); }
    forall j | 0 <= j < |r.owner| ensures MutexOk(r, j) {
      if j != m {
        assert MutexOk(s, j);
        assert s.owner[j].Some? ==> j in r.taken[s.owner[j].value];
      } else {
        assert m in r.taken[w[k]];
        forall t | t in r.waiters[m] ensures t < |r.init| && r.pending[t] == Some(m) {
          assert t in s.waiters[m];
        }
      }
    }
  }

  /** Taking a mutex of priority q as well. */
  lemma {:induction false} MinPrioJoin(prio: seq<nat>, ms: seq<nat>, p: nat, q: nat)
    ensures MinPrio(prio, ms, if p > q then q else p)
         == if MinPrio(prio, ms, p) > q then q else MinPrio(prio, ms, p)
  {
    if ms != [] {
      var x := if ms[0] < |prio| then prio[ms[0]] else NOBODY;
      MinPrioJoin(prio, ms[1..], if p > x then x else p, q);
      var a, b := if p > q then q else p, if p > x then x else p;
      assert (if a > x then x else a) == (if b > q then q else b);
    }
  }

  lemma HandOffKeeps(s: Sys, m: nat, late: set<nat>)
    requires Loose(s, m)
    ensures Inv(HandOff(s, m, late))
  {
    var r := HandOff(s, m, late);
    var w, k := s.waiters[m], FirstReady(s.waiters[m], late);
    if k == |w| { HandOffFree(s, m, late); return; }
    HandOffGraph(s, m, late);
    var next, q := w[k], r.prio[m];
    assert next in w && ThreadOk(s, next) && QueueOk(s, m) && PrioOk(s, next);
    TailQueue(s.curr, w, k);
    forall j | 0 <= j < |r.owner| ensures QueueOk(r, j) { assert QueueOk(s, j); }
    forall u | 0 <= u < |r.init| ensures PrioOk(r, u) {
      assert ThreadOk(s, u) && PrioOk(s, u);
      MinPrioFrame(s.prio, s.taken[u], s.init[u], m, q);
      if u == next {
        MinPrioJoin(r.prio, s.taken[u], s.init[u], q);
        assert r.taken[u] == [m] + s.taken[u];
      }
    }
    hide Sorted, FirstReady, HeadPrio;
  }

  /** rt_mutex_release by the running thread t. `late` are the threads whose timeout has fired
      without their having run yet: rt_sched_thread_ready refuses them and they are skipped. */
  ghost function Release(s: Sys, t: nat, m: nat, late: set<nat>): (r: (Sys, Outcome))
    requires Inv(s) && t < |s.init| && m < |s.owner| && s.pending[t].None?
    ensures Inv(r.0)
  {
    if s.owner[m] != Some(t) then (s, NotOwner)
    else
      assert MutexOk(s, m);
      if s.hold[m] > 1 then HoldKeeps(s, m, s.hold[m] - 1); (s.(hold := s.hold[m := s.hold[m] - 1]), Done)
      else
        UntakeLoose(s, t, m);
        HandOffKeeps(Untake(s, t, m), m, late);
        (HandOff(Untake(s, t, m), m, late), Done)
  }

  /** The last release makes the first waiter that is not late the owner, holding the mutex
      once and no longer waiting; those behind it go on waiting in their order, and none of
      them has a higher priority. The mutex becomes free only when there is no such waiter. */
  lemma ReleaseHandsOver(s: Sys, t: nat, m: nat, late: set<nat>)
    requires Inv(s) && t < |s.init| && m < |s.owner| && s.pending[t].None?
    requires s.owner[m] == Some(t) && s.hold[m] == 1
    ensures var r := Release(s, t, m, late).0;
      match r.owner[m]
      case None => r.hold[m] == 0 && r.waiters[m] == [] && forall u | u in s.waiters[m] :: u in late
      case Some(next) =>
        && next in s.waiters[m] && next !in late && next < |r.init|
        && (exists k :: 0 <= k < |s.waiters[m]| && next == s.waiters[m][k] && r.waiters[m] == s.waiters[m][k + 1..]
              && forall i | 0 <= i < k :: s.waiters[m][i] in late)
        && r.hold[m] == 1 && m in r.taken[next] && r.pending[next].None?
        && (forall u | u in r.waiters[m] :: u < |r.init| && r.curr[next] <= r.curr[u])
        && (forall u | u in s.waiters[m] && u !in r.waiters[m] && u != next :: u in late)
  {
    UntakeLoose(s, t, m);
    var w, k := s.waiters[m], FirstReady(s.waiters[m], late);
    assert MutexOk(s, m) && QueueOk(Untake(s, t, m), m);
    if k < |w| {
      TailMembers(w, k);
      assert w[k] in w && w[k] in w[..k + 1] && ThreadOk(s, w[k]);
      var r := Release(s, t, m, late).0;
      forall u | u in r.waiters[m] ensures u < |r.init| && r.curr[w[k]] <= r.curr[u] {
        TailAbove(r.curr, w, k, u);
      }
    }
    hide Inv, Sorted, HeadPrio, Want, Without;
  }

  /** Which answer rt_mutex_release gives and what it changes: a release that is not the last
      counts down and does nothing else. */
  lemma ReleaseOutcome(s: Sys, t: nat, m: nat, late: set<nat>)
    requires Inv(s) && t < |s.init| && m < |s.owner| && s.pending[t].None?
    ensures var (r, e) := Release(s, t, m, late);
      && e == (if s.owner[m] == Some(t) then Done else NotOwner)
      && (e == NotOwner ==> r == s)
      && (e == Done && s.hold[m] > 1 ==> r == s.(hold := s.hold[m := s.hold[m] - 1]))
      && (e == Done && s.hold[m] == 1 ==> LastRelease(s, r, t, m))
      && (e == Done ==> s.hold[m] > 0)
  {
    assert MutexOk(s, m);
    if s.owner[m] == Some(t) && s.hold[m] == 1 {
      UntakeLoose(s, t, m);
      HandOffKeeps(Untake(s, t, m), m, late);
      LastReleaseIs(s, t, m, late);
    }
    hide Inv, HandOff, Untake, LastRelease;
  }

  /** Other mutexes, other threads' priorities, and threads that do not leave the wait list
      of m are as before. */
  ghost predicate LastRelease(s: Sys, r: Sys, t: nat, m: nat) {
    && Shape(s) && Shape(r) && m < |s.owner| == |r.owner| && r.init == s.init && SameTaken(s, r, m)
    && (forall k | 0 <= k < |s.owner| && k != m ::
          r.owner[k] == s.owner[k] && r.hold[k] == s.hold[k] && r.waiters[k] == s.waiters[k])
    && (forall u | 0 <= u < |s.init| :: u != t ==> r.curr[u] == s.curr[u])
    && (forall u: nat | u < |s.init| ::
          r.pending[u] == if u in s.waiters[m] && u !in r.waiters[m] then None else s.pending[u])
  }

  lemma UntakeTaken(s: Sys, t: nat, m: nat)
    requires Shape(s) && t < |s.init| && m in s.taken[t] && Distinct(s.taken[t])
    ensures SameTaken(s, Untake(s, t, m), m)
  {
    WithoutKeeps(s.curr, s.taken[t], m);
    hide Without, Want, Sorted, HeadPrio;
  }

  lemma HandOffTaken(s: Sys, m: nat, late: set<nat>)
    requires Shape(s) && m < |s.owner| && forall u | u in s.waiters[m] :: u < |s.init|
    ensures SameTaken(s, HandOff(s, m, late), m)
  {
    var w, k := s.waiters[m], FirstReady(s.waiters[m], late);
    assert k < |w| ==> w[k] in w;
    hide HeadPrio;
  }

  lemma HandOffPending(s: Sys, m: nat, late: set<nat>)
    requires Shape(s) && m < |s.owner| && Distinct(s.waiters[m]) && forall u | u in s.waiters[m] :: u < |s.init|
    ensures var r := HandOff(s, m, late);
      forall u: nat | u < |s.init| ::
        r.pending[u] == if u in s.waiters[m] && u !in r.waiters[m] then None else s.pending[u]
  {
    var w, k := s.waiters[m], FirstReady(s.waiters[m], late);
    if k < |w| { TailMembers(w, k); }
    hide HeadPrio, FirstReady;
  }

  lemma HandOffOthers(s: Sys, m: nat, late: set<nat>)
    requires Shape(s) && m < |s.owner| && forall u | u in s.waiters[m] :: u < |s.init|
    ensures var r := HandOff(s, m, late);
      && Shape(r) && |r.owner| == |s.owner| && r.init == s.init && r.curr == s.curr
      && forall k | 0 <= k < |s.owner| && k != m ::
           r.owner[k] == s.owner[k] && r.hold[k] == s.hold[k] && r.waiters[k] == s.waiters[k]
  {
    var w, k := s.waiters[m], FirstReady(s.waiters[m], late);
    assert k < |w| ==> w[k] in w;
    hide HeadPrio;
  }

  lemma LastReleaseIs(s: Sys, t: nat, m: nat, late: set<nat>)
    requires Inv(s) && t < |s.init| && m < |s.owner| && s.owner[m] == Some(t) && m in s.taken[t]
    requires Loose(Untake(s, t, m), m)
    ensures LastRelease(s, HandOff(Untake(s, t, m), m, late), t, m)
  {
    assert ThreadOk(s, t);
    var u := Untake(s, t, m);
    assert Shape(u) && Distinct(u.waiters[m]) && forall x | x in u.waiters[m] :: x < |u.init|;
    hide Inv, Loose, ThreadOk, HandOff, Want, Without;
    UntakeTaken(s, t, m);
    HandOffTaken(u, m, late);
    HandOffPending(u, m, late);
    HandOffOthers(u, m, late);
  }

  lemma TailAbove(curr: seq<nat>, w: seq<nat>, k: nat, u: nat)
    requires k < |w| && Sorted(Prios(curr, w)) && u in w[k + 1..] && forall t | t in w :: t < |curr|
    ensures w[k] in w && u in w && curr[w[k]] <= curr[u]
  {
    var j :| 0 <= j < |w| - k - 1 && w[k + 1..][j] == u;
    assert w[k + 1 + j] in w && w[k] in w;
    assert Prios(curr, w)[k] <= Prios(curr, w)[k + 1 + j];
  }

  // -- Runs ------------------------------------------------------------------------

  datatype Call = DoTake(t: nat, m: nat, timeout: int, suspends: bool)
                | DoRelease(t: nat, m: nat, late: set<nat>)
                | DoDrop(t: nat)

  /** A call is made by a thread that runs, and only a waiting thread is dropped. */
  predicate Callable(s: Sys, call: Call) {
    call.t < |s.init| && call.t < |s.pending| &&
    (call.DoDrop? <==> s.pending[call.t].Some?) &&
    (!call.DoDrop? ==> call.m < |s.owner|)
  }

  ghost function Step(s: Sys, call: Call): (r: Sys)
    requires Inv(s) && Callable(s, call)
    ensures Inv(r)
  {
    match call
    case DoTake(t, m, timeout, suspends) => Take(s, t, m, timeout, suspends).0
    case DoRelease(t, m, late) => Release(s, t, m, late).0
    case DoDrop(t) => Drop(s, t)
  }

  /** Threads at their initial priorities, and n mutexes as rt_mutex_init leaves them. */
  function Start(init: seq<nat>, n: nat): Sys {
    Sys(init, init, seq(|init|, _ => None), seq(|init|, _ => []),
        seq(n, _ => None), seq(n, _ => NOBODY), seq(n, _ => 0), seq(n, _ => []))
  }

  lemma StartInv(init: seq<nat>, n: nat)
    requires forall t | 0 <= t < |init| :: init[t] < LEVELS
    ensures Inv(Start(init, n))
  {
  }

  /** The system after a run of calls, if each could be made. */
  ghost function Run(init: seq<nat>, n: nat, calls: seq<Call>): (r: Option<Sys>)
    requires forall t | 0 <= t < |init| :: init[t] < LEVELS
    ensures r.Some? ==> Inv(r.value)
  {
    if calls == [] then StartInv(init, n); Some(Start(init, n))
    else
      var before := Run(init, n, calls[..|calls| - 1]);
      var call := calls[|calls| - 1];
      if before.None? || !Callable(before.value, call) then None else Some(Step(before.value, call))
  }

  /** The call gives m to somebody: a take granted, or a release that hands it over. */
  ghost predicate Grants(s: Sys, call: Call, m: nat)
    requires Inv(s) && Callable(s, call)
  {
    match call
    case DoTake(t, k, timeout, suspends) => k == m && Take(s, t, k, timeout, suspends).1 == Done
    case DoRelease(t, k, late) =>
      k == m && Release(s, t, k, late).1 == Done
      && m < |Step(s, call).owner| && Step(s, call).owner[m].Some? && Step(s, call).owner[m] != Some(t)
    case DoDrop(_) => false
  }

  /** The call is a release of m that its caller is told has worked. */
  ghost predicate Returns(s: Sys, call: Call, m: nat)
    requires Inv(s) && Callable(s, call)
  {
    call.DoRelease? && call.m == m && Release(s, call.t, call.m, call.late).1 == Done
  }

  ghost function Granted(init: seq<nat>, n: nat, calls: seq<Call>, m: nat): nat
    requires forall t | 0 <= t < |init| :: init[t] < LEVELS
    requires Run(init, n, calls).Some?
  {
    if calls == [] then 0
    else
      var (before, call) := (Run(init, n, calls[..|calls| - 1]).value, calls[|calls| - 1]);
      Granted(init, n, calls[..|calls| - 1], m) + if Grants(before, call, m) then 1 else 0
  }

  ghost function Returned(init: seq<nat>, n: nat, calls: seq<Call>, m: nat): nat
    requires forall t | 0 <= t < |init| :: init[t] < LEVELS
    requires Run(init, n, calls).Some?
  {
    if calls == [] then 0
    else
      var (before, call) := (Run(init, n, calls[..|calls| - 1]).value, calls[|calls| - 1]);
      Returned(init, n, calls[..|calls| - 1], m) + if Returns(before, call, m) then 1 else 0
  }

  lemma HoldStep(s: Sys, call: Call, m: nat)
    requires Inv(s) && Callable(s, call) && m < |s.owner|
    ensures var r := Step(s, call);
      && |r.owner| == |r.hold| == |s.owner|
      && r.hold[m] + (if Returns(s, call, m) then 1 else 0) == s.hold[m] + if Grants(s, call, m) then 1 else 0
  {
    match call
    case DoTake(t, k, timeout, suspends) => TakeOutcome(s, t, k, timeout, suspends);
    case DoDrop(t) => DropOutcome(s, t);
    case DoRelease(t, k, late) =>
      ReleaseOutcome(s, t, k, late);
      if s.owner[k] == Some(t) && s.hold[k] == 1 { LastHold(s, t, k, late); }
    hide Inv, Take, Release, Drop;
  }

  lemma LastHold(s: Sys, t: nat, m: nat, late: set<nat>)
    requires Inv(s) && t < |s.init| && m < |s.owner| && s.pending[t].None?
    requires s.owner[m] == Some(t) && s.hold[m] == 1
    ensures var r := Release(s, t, m, late).0;
      m < |r.owner| == |r.hold| && r.owner[m] != Some(t) && r.hold[m] == if r.owner[m].Some? then 1 else 0
  {
    ReleaseHandsOver(s, t, m, late);
    ReleaseOutcome(s, t, m, late);
    assert MutexOk(s, m);
    hide Release;
  }

  /** Over every run a mutex is held as often as it has been granted, by a take or a hand-off,
      and not been given back; so it is free exactly when all of that has been returned. */
  lemma {:induction false} HoldBalance(init: seq<nat>, n: nat, calls: seq<Call>, m: nat)
    requires forall t | 0 <= t < |init| :: init[t] < LEVELS
    requires Run(init, n, calls).Some? && m < n
    ensures var s := Run(init, n, calls).value;
      && |s.owner| == |s.hold| == n
      && s.hold[m] + Returned(init, n, calls, m) == Granted(init, n, calls, m)
      && (s.owner[m].None? <==> Returned(init, n, calls, m) == Granted(init, n, calls, m))
  {
    if calls != [] {
      HoldBalance(init, n, calls[..|calls| - 1], m);
      var before, call := Run(init, n, calls[..|calls| - 1]).value, calls[|calls| - 1];
      HoldStep(before, call, m);
    }
    assert MutexOk(Run(init, n, calls).value, m);
    hide Step, Grants, Returns, QueueOk, PrioOk, ThreadOk, Callable;
  }
}
