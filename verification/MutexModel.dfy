/** Threads and priority-inheritance mutexes of rt-thread/src/ipc.c as values: what every
    operation keeps, and what the kept invariant means for priorities. Smaller numbers are
    higher priorities. All priority ceilings are 0xFF. */
module MutexModel {
  import opened Options
  import opened PrioOrder
  import opened Seqs

  // Priority of a mutex nobody waits for.
  const NOBODY: nat := 0xff
  // RT_THREAD_PRIORITY_MAX
  const LEVELS: nat := 32
  // RT_MUTEX_HOLD_MAX
  const HOLD_MAX: nat := 255

  /** Threads and mutexes are numbered; each field is indexed by the number. */
  datatype Sys = Sys(
    init: seq<nat>, curr: seq<nat>, pending: seq<Option<nat>>, taken: seq<seq<nat>>,
    owner: seq<Option<nat>>, prio: seq<nat>, hold: seq<nat>, waiters: seq<seq<nat>>)

  ghost predicate Shape(s: Sys) {
    && |s.init| == |s.curr| == |s.pending| == |s.taken|
    && |s.owner| == |s.prio| == |s.hold| == |s.waiters|
  }

  ghost predicate ThreadOk(s: Sys, t: nat)
    requires Shape(s) && t < |s.init|
  {
    && s.init[t] < LEVELS && s.curr[t] < LEVELS
    && (s.pending[t].Some? ==> s.pending[t].value < |s.owner| && t in s.waiters[s.pending[t].value])
    && Distinct(s.taken[t])
    && (forall m | m in s.taken[t] :: m < |s.owner| && s.owner[m] == Some(t))
  }

  ghost predicate MutexOk(s: Sys, m: nat)
    requires Shape(s) && m < |s.owner|
  {
    && (s.hold[m] > 0 <==> s.owner[m].Some?) && s.hold[m] <= HOLD_MAX
    && (s.owner[m].Some? ==> s.owner[m].value < |s.init| && m in s.taken[s.owner[m].value])
    && (s.owner[m].Some? ==> s.owner[m].value !in s.waiters[m])
    && (s.waiters[m] != [] ==> s.owner[m].Some?)
    && Distinct(s.waiters[m])
    && (forall t | t in s.waiters[m] :: t < |s.init| && s.pending[t] == Some(m))
  }

  /** The waits-for graph is consistent: a thread waits on the mutex whose list it is in, a
      mutex is held exactly while it is in its one owner's taken list, a waiter exists only
      if there is an owner, and nobody waits for a mutex it owns. */
  ghost predicate Graph(s: Sys) {
    && Shape(s)
    && (forall t | 0 <= t < |s.init| :: ThreadOk(s, t))
    && (forall m | 0 <= m < |s.owner| :: MutexOk(s, m))
  }

  /** Current priorities of the threads w, in order. */
  function Prios(curr: seq<nat>, w: seq<nat>): (ps: seq<nat>)
    ensures |ps| == |w|
  {
    seq(|w|, i requires 0 <= i < |w| => if w[i] < |curr| then curr[w[i]] else 0)
  }

  /** _mutex_update_priority */
  function HeadPrio(curr: seq<nat>, w: seq<nat>): nat {
    if w == [] then NOBODY else Prios(curr, w)[0]
  }

  /** The wait list is sorted by current priority and mutex->priority is that of its head. */
  ghost predicate QueueOk(s: Sys, m: nat)
    requires Shape(s) && m < |s.owner|
  {
    Sorted(Prios(s.curr, s.waiters[m])) && s.prio[m] == HeadPrio(s.curr, s.waiters[m])
  }

  /** The loop of _thread_get_mutex_priority over the taken mutexes ms. */
  function MinPrio(prio: seq<nat>, ms: seq<nat>, p: nat): nat {
    if ms == [] then p
    else
      var q := if ms[0] < |prio| then prio[ms[0]] else NOBODY;
      MinPrio(prio, ms[1..], if p > q then q else p)
  }

  /** _thread_get_mutex_priority */
  function Want(s: Sys, t: nat): nat
    requires t < |s.init| && t < |s.taken|
  {
    MinPrio(s.prio, s.taken[t], s.init[t])
  }

  ghost predicate PrioOk(s: Sys, t: nat)
    requires Shape(s) && t < |s.init|
  {
    s.curr[t] == Want(s, t)
  }

  ghost predicate InvBut(s: Sys, t: nat) {
    && Graph(s)
    && (forall m | 0 <= m < |s.owner| :: QueueOk(s, m))
    && (forall u | 0 <= u < |s.init| && u != t :: PrioOk(s, u))
  }

  /** What holds between operations. */
  ghost predicate Inv(s: Sys) {
    && Graph(s)
    && (forall m | 0 <= m < |s.owner| :: QueueOk(s, m))
    && (forall t | 0 <= t < |s.init| :: PrioOk(s, t))
  }

  // -- Wait lists ---------------------------------------------------------------

  function IndexOf(w: seq<nat>, x: nat): (i: nat)
    requires x in w
    ensures i < |w| && w[i] == x
  {
    if w[0] == x then 0 else 1 + IndexOf(w[1..], x)
  }

  function Without(w: seq<nat>, x: nat): seq<nat>
    requires x in w
  {
    w[..IndexOf(w, x)] + w[IndexOf(w, x) + 1..]
  }

  /** rt_susp_list_enqueue with RT_IPC_FLAG_PRIO */
  function Enqueue(curr: seq<nat>, w: seq<nat>, t: nat): seq<nat>
    requires t < |curr|
  {
    InsertAt(w, Slot(Prios(curr, w), curr[t]), t)
  }

  lemma WithoutKeeps(curr: seq<nat>, w: seq<nat>, x: nat)
    requires x in w && Distinct(w)
    ensures Distinct(Without(w, x))
    ensures forall y :: y in Without(w, x) <==> y in w && y != x
    ensures Sorted(Prios(curr, w)) ==> Sorted(Prios(curr, Without(w, x)))
    ensures w[0] != x ==> HeadPrio(curr, Without(w, x)) == HeadPrio(curr, w)
  {
    var i, r := IndexOf(w, x), Without(w, x);
    assert forall j | 0 <= j < |r| :: r[j] == w[if j < i then j else j + 1];
    forall y | y in w && y != x ensures y in r {
      var j :| 0 <= j < |w| && w[j] == y;
      assert r[if j < i then j else j - 1] == y;
    }
    if Sorted(Prios(curr, w)) {
      var ps := Prios(curr, w);
      forall j, k | 0 <= j < k < |r| ensures Prios(curr, r)[j] <= Prios(curr, r)[k] {
        assert ps[if j < i then j else j + 1] <= ps[if k < i then k else k + 1];
      }
    }
  }

  lemma EnqueueKeeps(curr: seq<nat>, w: seq<nat>, t: nat)
    requires t < |curr| && t !in w && Distinct(w) && Sorted(Prios(curr, w))
    ensures var r := Enqueue(curr, w, t);
      && Sorted(Prios(curr, r))
      && HeadPrio(curr, r) == (if w == [] || curr[t] < HeadPrio(curr, w) then curr[t] else HeadPrio(curr, w))
  {
    var k, r := Slot(Prios(curr, w), curr[t]), Enqueue(curr, w, t);
    SlotKeepsSorted(Prios(curr, w), curr[t]);
    assert Prios(curr, r) == InsertAt(Prios(curr, w), k, curr[t]);
  }

  /** The newcomer goes behind everyone of its priority or a higher one, in front of all others,
      who keep their order. */
  lemma EnqueueOrder(curr: seq<nat>, w: seq<nat>, t: nat) returns (k: nat)
    requires t < |curr| && Sorted(Prios(curr, w))
    ensures k <= |w| && Enqueue(curr, w, t) == w[..k] + [t] + w[k..]
    ensures forall i | 0 <= i < |w| :: i < k <==> Prios(curr, w)[i] <= curr[t]
  {
    k := Slot(Prios(curr, w), curr[t]);
    SlotKeepsSorted(Prios(curr, w), curr[t]);
  }

  /** Where it goes, an enqueued thread is added to the list once. */
  lemma EnqueueMembers(curr: seq<nat>, w: seq<nat>, t: nat)
    requires t < |curr| && t !in w && Distinct(w)
    ensures var r := Enqueue(curr, w, t); Distinct(r) && forall y :: y in r <==> y in w || y == t
  {
  }

  /** Priorities of threads outside the list do not matter to it. */
  lemma PriosFrame(curr: seq<nat>, w: seq<nat>, t: nat, p: nat)
    requires t < |curr| && t !in w
    ensures Prios(curr[t := p], w) == Prios(curr, w)
  {
  }

  // -- Inherited priority -----------------------------------------------------------

  lemma {:induction false} MinPrioIsMin(prio: seq<nat>, ms: seq<nat>, p: nat)
    ensures MinPrio(prio, ms, p) <= p
    ensures forall m | m in ms && m < |prio| :: MinPrio(prio, ms, p) <= prio[m]
    ensures p <= NOBODY ==>
      MinPrio(prio, ms, p) == p || exists m :: m in ms && m < |prio| && MinPrio(prio, ms, p) == prio[m]
  {
    if ms != [] {
      var q := if ms[0] < |prio| then prio[ms[0]] else NOBODY;
      MinPrioIsMin(prio, ms[1..], if p > q then q else p);
      forall m | m in ms && m < |prio| ensures MinPrio(prio, ms, p) <= prio[m] {
        assert m == ms[0] || m in ms[1..];
      }
    }
  }

  /** MinPrio is determined by being the minimum. */
  lemma MinPrioUnique(prio: seq<nat>, ms: seq<nat>, p: nat, q: nat)
    requires p <= NOBODY && q <= p && forall m | m in ms && m < |prio| :: q <= prio[m]
    requires q == p || exists m :: m in ms && m < |prio| && q == prio[m]
    ensures MinPrio(prio, ms, p) == q
  {
  }

  lemma {:induction false} MinPrioFrame(prio: seq<nat>, ms: seq<nat>, p: nat, m: nat, q: nat)
    requires m < |prio| && m !in ms
    ensures MinPrio(prio[m := q], ms, p) == MinPrio(prio, ms, p)
  {
    if ms != [] {
      var r := if ms[0] < |prio| then prio[ms[0]] else NOBODY;
      MinPrioFrame(prio, ms[1..], if p > r then r else p, m, q);
    }
  }

  /** The inherited priority follows a change of one taken mutex in the same direction. */
  lemma {:induction false} MinPrioMonotone(prio: seq<nat>, ms: seq<nat>, p: nat, p': nat, m: nat, q: nat)
    requires m < |prio|
    ensures p' <= p && q <= prio[m] ==> MinPrio(prio[m := q], ms, p') <= MinPrio(prio, ms, p)
    ensures p' >= p && q >= prio[m] ==> MinPrio(prio[m := q], ms, p') >= MinPrio(prio, ms, p)
  {
    if ms != [] {
      var r := if ms[0] < |prio| then prio[ms[0]] else NOBODY;
      var r' := if ms[0] < |prio| then prio[m := q][ms[0]] else NOBODY;
      MinPrioMonotone(prio, ms[1..], if p > r then r else p, if p' > r' then r' else p', m, q);
    }
  }

  // -- Settling a change of priority ------------------------------------------------

  function SetCurr(s: Sys, t: nat, p: nat): Sys
    requires t < |s.curr|
  {
    s.(curr := s.curr[t := p])
  }

  /** A waiting thread is re-inserted into its wait list and the mutex follows the new head. */
  function Resort(s: Sys, t: nat): Sys
    requires Graph(s) && t < |s.init|
  {
    if s.pending[t].None? then s
    else
      assert ThreadOk(s, t);
      var m := s.pending[t].value;
      var w := Enqueue(s.curr, Without(s.waiters[m], t), t);
      s.(waiters := s.waiters[m := w], prio := s.prio[m := HeadPrio(s.curr, w)])
  }

  /** The thread that t waits for. */
  function Succ(s: Sys, t: nat): (o: Option<nat>)
  {
    if t < |s.pending| && s.pending[t].Some? && s.pending[t].value < |s.owner|
    then s.owner[s.pending[t].value]
    else None
  }

  lemma SetCurrGraph(s: Sys, t: nat, p: nat)
    requires Graph(s) && t < |s.init| && p < LEVELS
    ensures Graph(SetCurr(s, t, p))
  {
    var r := SetCurr(s, t, p);
    forall u | 0 <= u < |r.init| ensures ThreadOk(r, u) { assert ThreadOk(s, u); }
    forall m | 0 <= m < |r.owner| ensures MutexOk(r, m) { assert MutexOk(s, m); }
  }

  /** The mutex t waits for has an owner, and that is not t. */
  lemma WaitsForOwner(s: Sys, t: nat)
    requires Graph(s) && t < |s.init| && s.pending[t].Some?
    ensures s.pending[t].value < |s.owner| && t in s.waiters[s.pending[t].value]
    ensures Succ(s, t).Some? && Succ(s, t).value < |s.init| && Succ(s, t).value != t
  {
    assert ThreadOk(s, t) && MutexOk(s, s.pending[t].value);
  }

  lemma ResortGraph(s: Sys, t: nat)
    requires Graph(s) && t < |s.init|
    ensures Graph(Resort(s, t))
  {
    if s.pending[t].Some? {
      var m, r := s.pending[t].value, Resort(s, t);
      assert ThreadOk(s, t) && MutexOk(s, m);
      WithoutKeeps(s.curr, s.waiters[m], t);
      EnqueueMembers(s.curr, Without(s.waiters[m], t), t);
      hide Enqueue, Without, HeadPrio;
      forall u | 0 <= u < |r.init| ensures ThreadOk(r, u) { assert ThreadOk(s, u); }
      forall k | 0 <= k < |r.owner| ensures MutexOk(r, k) { assert MutexOk(s, k); }
    }
  }

  /** One round of the propagation loop: t gets priority p, and the wait list and the mutex
      it waits in follow. */
  function Fix(s: Sys, t: nat, p: nat): Sys
    requires Graph(s) && t < |s.init| && p < LEVELS
  {
    SetCurrGraph(s, t, p);
    Resort(SetCurr(s, t, p), t)
  }

  /** Re-inserting t with its new priority keeps the list sorted and moves the head priority
      in the same direction. */
  lemma ResortedHead(curr: seq<nat>, w: seq<nat>, t: nat, p: nat)
    requires t < |curr| && t in w && Distinct(w) && Sorted(Prios(curr, w))
    ensures var c := curr[t := p];
      var r := Enqueue(c, Without(w, t), t);
      && Sorted(Prios(c, r))
      && (p <= curr[t] ==> HeadPrio(c, r) <= HeadPrio(curr, w))
      && (p >= curr[t] ==> HeadPrio(c, r) >= HeadPrio(curr, w))
  {
    var c, rest := curr[t := p], Without(w, t);
    WithoutKeeps(curr, w, t);
    PriosFrame(curr, rest, t, p);
    EnqueueKeeps(c, rest, t);
    var ps, i := Prios(curr, w), IndexOf(w, t);
    assert ps[0] <= ps[i] == curr[t];
    if rest != [] { assert HeadPrio(curr, rest) == ps[if i == 0 then 1 else 0]; }
    hide Enqueue, Without;
  }

  lemma FixGraph(s: Sys, t: nat, p: nat)
    requires Graph(s) && t < |s.init| && p < LEVELS
    ensures Graph(Fix(s, t, p))
  {
    SetCurrGraph(s, t, p);
    ResortGraph(SetCurr(s, t, p), t);
  }

  lemma FixQueues(s: Sys, t: nat, p: nat)
    requires Graph(s) && t < |s.init| && p < LEVELS
    requires forall m | 0 <= m < |s.owner| :: QueueOk(s, m)
    ensures var r := Fix(s, t, p); Graph(r) && forall m | 0 <= m < |s.owner| :: QueueOk(r, m)
  {
    var r := Fix(s, t, p);
    FixGraph(s, t, p);
    forall m | 0 <= m < |s.owner| ensures QueueOk(r, m) {
      assert MutexOk(s, m) && ThreadOk(s, t) && QueueOk(s, m);
      if s.pending[t] == Some(m) {
        ResortedHead(s.curr, s.waiters[m], t, p);
      } else {
        PriosFrame(s.curr, s.waiters[m], t, p);
      }
      hide Enqueue, Without, HeadPrio, Sorted;
    }
  }

  /** Besides t only the owner t waits for can have a new priority due. */
  lemma FixWants(s: Sys, t: nat, p: nat, u: nat)
    requires Graph(s) && t < |s.init| && p < LEVELS && u < |s.init| && Succ(s, t) != Some(u)
    ensures Want(Fix(s, t, p), u) == Want(s, u)
  {
    assert ThreadOk(s, t) && ThreadOk(s, u);
    if s.pending[t].Some? {
      var m := s.pending[t].value;
      var r := SetCurr(s, t, p);
      var w := Enqueue(r.curr, Without(s.waiters[m], t), t);
      MinPrioFrame(s.prio, s.taken[u], s.init[u], m, HeadPrio(r.curr, w));
    }
  }

  /** What the owner t waits for is due moves the same way as the priority of t. */
  lemma FixMoves(s: Sys, t: nat, p: nat)
    requires InvBut(s, t) && t < |s.init| && p < LEVELS && s.pending[t].Some?
    ensures var o := Succ(s, t);
      && o.Some? && o.value < |s.init| && o.value != t
      && (p <= s.curr[t] ==> Want(Fix(s, t, p), o.value) <= s.curr[o.value])
      && (p >= s.curr[t] ==> Want(Fix(s, t, p), o.value) >= s.curr[o.value])
  {
    WaitsForOwner(s, t);
    var m, o := s.pending[t].value, Succ(s, t).value;
    assert ThreadOk(s, t) && MutexOk(s, m) && QueueOk(s, m) && PrioOk(s, o);
    ResortedHead(s.curr, s.waiters[m], t, p);
    var r := SetCurr(s, t, p);
    var w := Enqueue(r.curr, Without(s.waiters[m], t), t);
    MinPrioMonotone(s.prio, s.taken[o], s.init[o], s.init[o], m, HeadPrio(r.curr, w));
  }

  lemma WantBelowLevels(s: Sys, t: nat)
    requires Graph(s) && t < |s.init|
    ensures Want(s, t) < LEVELS
  {
    assert ThreadOk(s, t);
    MinPrioIsMin(s.prio, s.taken[t], s.init[t]);
  }

  /** After a round with the priority t should have, at most its successor is out of date. */
  lemma FixKeeps(s: Sys, t: nat)
    requires InvBut(s, t) && t < |s.init|
    ensures Want(s, t) < LEVELS && (s.pending[t].Some? ==> Succ(s, t).Some?)
    ensures var r := Fix(s, t, Want(s, t)); if s.pending[t].None? then Inv(r) else InvBut(r, Succ(s, t).value)
  {
    WantBelowLevels(s, t);
    var p := Want(s, t);
    var r := Fix(s, t, p);
    FixGraph(s, t, p);
    FixQueues(s, t, p);
    if s.pending[t].Some? { WaitsForOwner(s, t); }
    hide Graph, Want, QueueOk, Succ;
    forall u | 0 <= u < |r.init| && Succ(s, t) != Some(u) ensures PrioOk(r, u) {
      FixWants(s, t, p, u);
      assert u != t ==> PrioOk(s, u);
    }
  }

  ghost function Sum(xs: seq<nat>): nat {
    if xs == [] then 0 else xs[0] + Sum(xs[1..])
  }

  lemma {:induction false} SumUpdate(xs: seq<nat>, i: nat, x: nat)
    requires i < |xs|
    ensures Sum(xs[i := x]) == Sum(xs) - xs[i] + x
  {
    if i > 0 { SumUpdate(xs[1..], i - 1, x); assert xs[i := x][1..] == xs[1..][i - 1 := x]; }
    else { assert xs[i := x][1..] == xs[1..]; }
  }

  lemma {:induction false} SumBound(xs: seq<nat>)
    requires forall i | 0 <= i < |xs| :: xs[i] < LEVELS
    ensures Sum(xs) <= LEVELS * |xs|
  {
    if xs != [] { SumBound(xs[1..]); }
  }

  /** The propagation moves every priority in one direction, so the distance of the sum of
      all priorities to its bound in that direction shrinks. */
  ghost function Measure(s: Sys, t: nat): (r: int)
    requires t < |s.init| && t < |s.taken| && t < |s.curr|
  {
    if Want(s, t) < s.curr[t] then Sum(s.curr) else LEVELS * |s.curr| - Sum(s.curr)
  }

  lemma MeasureShrinks(s: Sys, t: nat)
    requires InvBut(s, t) && t < |s.init| && s.pending[t].Some? && Want(s, t) != s.curr[t]
    ensures Want(s, t) < LEVELS && Succ(s, t).Some? && Succ(s, t).value < |s.init|
    ensures var (r, o) := (Fix(s, t, Want(s, t)), Succ(s, t).value);
      0 <= Measure(s, t) && (r.curr[o] != Want(r, o) ==> 0 <= Measure(r, o) < Measure(s, t))
  {
    WantBelowLevels(s, t);
    var p := Want(s, t);
    FixMoves(s, t, p);
    SumUpdate(s.curr, t, p);
    var r := Fix(s, t, p);
    FixGraph(s, t, p);
    CurrBelowLevels(s);
    CurrBelowLevels(r);
    SumBound(s.curr);
    SumBound(r.curr);
    hide Want, Graph, Succ;
  }

  /** Sum of priorities to go, zero once t has its due priority. */
  ghost function Rank(s: Sys, t: nat): nat
    requires InvBut(s, t) && t < |s.init|
  {
    if Want(s, t) == s.curr[t] then 0
    else
      CurrBelowLevels(s);
      SumBound(s.curr);
      1 + Measure(s, t)
  }

  lemma CurrBelowLevels(s: Sys)
    requires Graph(s)
    ensures forall u | 0 <= u < |s.curr| :: s.curr[u] < LEVELS
  {
    forall u | 0 <= u < |s.curr| ensures s.curr[u] < LEVELS { assert ThreadOk(s, u); }
  }

  /** _thread_update_priority of t and everything it brings along, up to the first thread
      that needs no change. No acyclicity is assumed: it ends even in a deadlock. */
  ghost function Settle(s: Sys, t: nat): (r: Sys)
    requires InvBut(s, t) && t < |s.init|
    ensures Inv(r)
    decreases Rank(s, t)
  {
    if Want(s, t) == s.curr[t] then s
    else
      FixKeeps(s, t);
      var r := Fix(s, t, Want(s, t));
      if s.pending[t].None? then r
      else
        MeasureShrinks(s, t);
        Settle(r, Succ(s, t).value)
  }

  /** Settling changes priorities and the order in wait lists, nothing else. */
  lemma {:induction false} SettleEdges(s: Sys, t: nat)
    requires InvBut(s, t) && t < |s.init|
    ensures var r := Settle(s, t); r.pending == s.pending && r.owner == s.owner
    ensures var r := Settle(s, t); r.init == s.init && r.taken == s.taken && r.hold == s.hold
    decreases Rank(s, t)
  {
    if Want(s, t) != s.curr[t] {
      FixKeeps(s, t);
      var r := Fix(s, t, Want(s, t));
      if s.pending[t].Some? {
        MeasureShrinks(s, t);
        SettleEdges(r, Succ(s, t).value);
      }
    }
  }
}
