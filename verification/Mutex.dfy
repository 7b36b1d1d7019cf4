/** The mutex code of rt-thread/src/ipc.c on mutable state: each method ends in the state that
    MutexCalls gives, although it recomputes priorities only behind the guards of the source. */
module Mutex {
  import opened Options
  import opened PrioOrder
  import opened Seqs
  import opened MutexModel
  import opened MutexCalls

  // -- Why the guards lose nothing ----------------------------------------------------

  /** Lowering the priority number of one taken mutex. */
  lemma MinPrioLowered(prio: seq<nat>, ms: seq<nat>, p: nat, m: nat, q: nat)
    requires m < |prio| && m in ms && q <= prio[m] && p <= NOBODY
    ensures MinPrio(prio[m := q], ms, p) == if q < MinPrio(prio, ms, p) then q else MinPrio(prio, ms, p)
  {
    MinPrioIsMin(prio, ms, p);
    MinPrioIsMin(prio[m := q], ms, p);
  }

  /** A taken mutex that does not give its owner the priority may change or go. */
  lemma MinPrioUnneeded(prio: seq<nat>, ms: seq<nat>, p: nat, m: nat, q: nat)
    requires m < |prio| && MinPrio(prio, ms, p) < prio[m] && MinPrio(prio, ms, p) < q && p <= NOBODY
    ensures MinPrio(prio[m := q], ms, p) == MinPrio(prio, ms, p)
    ensures m in ms && Distinct(ms) ==> MinPrio(prio, Without(ms, m), p) == MinPrio(prio, ms, p)
  {
    MinPrioIsMin(prio, ms, p);
    MinPrioUnique(prio[m := q], ms, p, MinPrio(prio, ms, p));
    if m in ms && Distinct(ms) {
      WithoutKeeps([], ms, m);
      MinPrioUnique(prio, Without(ms, m), p, MinPrio(prio, ms, p));
    }
  }

  /** A newcomer that is not below the owner's priority leaves the owner alone. */
  lemma WaitUnneeded(s: Sys, t: nat, m: nat, o: nat)
    requires Inv(s) && t < |s.init| && m < |s.owner| && o < |s.init|
    requires s.pending[t].None? && s.owner[m] == Some(o) && o != t
    ensures var r := Wait(s, t, m);
      && r.prio[m] == (if s.curr[t] < s.prio[m] then s.curr[t] else s.prio[m])
      && Want(r, o) == (if s.curr[t] < s.curr[o] then s.curr[t] else s.curr[o])
  {
    assert MutexOk(s, m) && QueueOk(s, m) && PrioOk(s, o) && ThreadOk(s, o) && ThreadOk(s, t);
    EnqueueKeeps(s.curr, s.waiters[m], t);
    MinPrioIsMin(s.prio, s.taken[o], s.init[o]);
    MinPrioLowered(s.prio, s.taken[o], s.init[o], m, Wait(s, t, m).prio[m]);
    hide Enqueue, Sorted;
  }

  /** A leaver of another priority than the owner's leaves the owner alone. */
  lemma LeaveUnneeded(s: Sys, t: nat, m: nat, o: nat)
    requires Inv(s) && t < |s.init| && s.pending[t] == Some(m) && m < |s.owner|
    requires t in s.waiters[m] && s.owner[m] == Some(o) && o < |s.init| && s.curr[o] != s.curr[t]
    ensures Want(Leave(s, t, m), o) == s.curr[o]
  {
    assert MutexOk(s, m) && QueueOk(s, m) && PrioOk(s, o) && ThreadOk(s, o) && ThreadOk(s, t);
    var w, rest := s.waiters[m], Without(s.waiters[m], t);
    WithoutKeeps(s.curr, w, t);
    MinPrioIsMin(s.prio, s.taken[o], s.init[o]);
    if w[0] != t {
      assert s.prio[m := s.prio[m]] == s.prio;
    } else {
      if rest != [] {
        assert rest[0] in w && Prios(s.curr, w)[0] <= HeadPrio(s.curr, rest) by { RestHead(s.curr, w); }
      }
      MinPrioUnneeded(s.prio, s.taken[o], s.init[o], m, HeadPrio(s.curr, rest));
    }
    hide Without, Sorted;
  }

  lemma RestHead(curr: seq<nat>, w: seq<nat>)
    requires w != [] && Sorted(Prios(curr, w)) && Distinct(w)
    ensures var rest := Without(w, w[0]); rest != [] ==> rest[0] in w && Prios(curr, w)[0] <= HeadPrio(curr, rest)
  {
    var rest := Without(w, w[0]);
    assert IndexOf(w, w[0]) == 0 && rest == w[1..];
    if rest != [] { assert rest[0] == w[1] && Prios(curr, w)[0] <= Prios(curr, w)[1]; }
  }

  /** Releasing a mutex that did not give its owner the priority leaves the owner alone. */
  lemma UntakeUnneeded(s: Sys, t: nat, m: nat)
    requires Inv(s) && t < |s.init| && m < |s.owner| && s.owner[m] == Some(t) && s.curr[t] != s.prio[m]
    ensures m in s.taken[t] && Untake(s, t, m).curr == s.curr
  {
    assert MutexOk(s, m) && PrioOk(s, t) && ThreadOk(s, t);
    MinPrioIsMin(s.prio, s.taken[t], s.init[t]);
    MinPrioUnneeded(s.prio, s.taken[t], s.init[t], m, s.prio[m]);
  }

  /** A mutex whose waiters already have priority over the newcomer does not move its owner. */
  lemma WaitedAbove(s: Sys, t: nat, m: nat)
    requires Inv(s) && t < |s.init| && m < |s.owner| && s.owner[m].Some? && s.curr[t] >= s.prio[m]
    ensures s.owner[m].value < |s.init| && s.curr[s.owner[m].value] <= s.curr[t]
  {
    var o := s.owner[m].value;
    assert MutexOk(s, m) && PrioOk(s, o);
    MinPrioIsMin(s.prio, s.taken[o], s.init[o]);
  }

  lemma SettleEnd(s: Sys, t: nat)
    requires InvBut(s, t) && t < |s.init|
    ensures Shape(s) && Want(s, t) < LEVELS && forall m | m in s.taken[t] :: m < |s.prio|
    ensures Want(s, t) == s.curr[t] ==> Settle(s, t) == s
    ensures Want(s, t) != s.curr[t] && s.pending[t].None? ==> Settle(s, t) == SetCurr(s, t, Want(s, t))
  {
    WantBelowLevels(s, t);
    assert ThreadOk(s, t);
  }

  lemma HandOverFacts(s: Sys, m: nat, k: nat)
    requires Loose(s, m) && k <= |s.waiters[m]|
    ensures var w := s.waiters[m];
      && (forall t | t in w[k..] :: t < |s.init|)
      && (k < |w| ==> w[k] < |s.init| && Cleared(s.pending, w[..k + 1]) == Cleared(s.pending, w[..k])[w[k] := None])
      && (k == |w| ==> w[..k] == w)
  {
    var w := s.waiters[m];
    forall t | t in w[k..] ensures t < |s.init| { assert t in w; }
    if k < |w| { assert w[k] in w && w[..k + 1] == w[..k] + [w[k]]; }
  }

  /** Threads and mutexes, by number. */
  class Kernel {
    const init: seq<nat>
    var curr: seq<nat>
    var pending: seq<Option<nat>>
    var taken: seq<seq<nat>>
    var owner: seq<Option<nat>>
    var prio: seq<nat>
    var hold: seq<nat>
    var waiters: seq<seq<nat>>

    ghost function State(): Sys
      reads this
    {
      Sys(init, curr, pending, taken, owner, prio, hold, waiters)
    }

    constructor (init: seq<nat>, n: nat)
      ensures State() == Start(init, n)
    {
      this.init, curr := init, init;
      pending, taken := seq(|init|, _ => None), seq(|init|, _ => []);
      owner, prio, hold, waiters := seq(n, _ => None), seq(n, _ => NOBODY), seq(n, _ => 0), seq(n, _ => []);
    }

    /** _mutex_update_priority */
    method UpdateMutexPriority(m: nat)
      requires m < |prio| == |waiters| && forall t | t in waiters[m] :: t < |curr|
      modifies this`prio
      ensures prio == old(prio)[m := HeadPrio(curr, waiters[m])]
    {
      if waiters[m] != [] {
        assert waiters[m][0] in waiters[m];
        prio := prio[m := curr[waiters[m][0]]];
      } else {
        prio := prio[m := 0xff];
      }
    }

    /** _thread_get_mutex_priority */
    method MutexPriority(t: nat) returns (priority: nat)
      requires Shape(State()) && t < |init| && forall m | m in taken[t] :: m < |prio|
      ensures priority == Want(State(), t)
    {
      priority := init[t];
      var i := 0;
      while i < |taken[t]|
        invariant i <= |taken[t]| && MinPrio(prio, taken[t][i..], priority) == Want(State(), t)
      {
        assert taken[t][i] in taken[t] && taken[t][i..][1..] == taken[t][i + 1..];
        var mutexPrio := prio[taken[t][i]];
        if priority > mutexPrio {
          priority := mutexPrio;
        }
        i := i + 1;
      }
    }

    /** rt_susp_list_enqueue, RT_IPC_FLAG_PRIO */
    method SuspEnqueue(m: nat, t: nat)
      requires m < |waiters| && t < |curr| && forall u | u in waiters[m] :: u < |curr|
      modifies this`waiters
      ensures waiters == old(waiters)[m := Enqueue(curr, old(waiters)[m], t)]
    {
      var w, n := waiters[m], 0;
      while n < |w|
        invariant n <= |w| && forall i | 0 <= i < n :: Prios(curr, w)[i] <= curr[t]
      {
        assert w[n] in w;
        if curr[t] < curr[w[n]] {
          break;
        }
        n := n + 1;
      }
      SlotUnique(Prios(curr, w), curr[t], n);
      waiters := waiters[m := w[..n] + [t] + w[n..]];
    }

    /** rt_list_remove of t from the wait list of m. */
    method SuspRemove(m: nat, t: nat)
      requires m < |waiters| && t in waiters[m]
      modifies this`waiters
      ensures waiters == old(waiters)[m := Without(old(waiters)[m], t)]
    {
      var i := IndexOf(waiters[m], t);
      waiters := waiters[m := waiters[m][..i] + waiters[m][i + 1..]];
    }

    /** One round of the loop below for a thread t waiting for m. */
    method Requeue(m: nat, t: nat, ghost s: Sys)
      requires Graph(s) && t < |s.init| && s.pending[t] == Some(m) && State() == s
      modifies this`waiters, this`prio
      ensures State() == Resort(s, t)
    {
      assert ThreadOk(s, t) && MutexOk(s, m);
      WithoutKeeps(curr, waiters[m], t);
      SuspRemove(m, t);
      EnqueueMembers(curr, waiters[m], t);
      SuspEnqueue(m, t);
      UpdateMutexPriority(m);
    }

    /** _thread_update_priority */
    method UpdatePriority(thread: nat, priority: nat)
      requires thread < |init| && InvBut(State(), thread)
      requires priority == Want(State(), thread) != curr[thread]
      modifies this`curr, this`waiters, this`prio
      ensures State() == Settle(old(State()), thread)
    {
      var t: nat, more := thread, true;
      ghost var s := State();
      WantBelowLevels(s, t);
      curr := curr[t := priority];
      SettleEnd(s, t);
      while more && pending[t].Some?
        invariant t < |init| && s.init == init && s.pending == pending && |init| == |pending| && InvBut(s, t)
        invariant Want(s, t) < LEVELS && Settle(s, t) == Settle(old(State()), thread)
        invariant more ==> Want(s, t) != s.curr[t] && State() == SetCurr(s, t, Want(s, t))
        invariant !more ==> State() == Settle(s, t)
        decreases Rank(s, t), more
      {
        hide Settle, Want, InvBut, Graph, Rank, Resort, Succ;
        t := Follow(s, t);
        s := State();
        SettleEnd(s, t);
        var mutexPriority := MutexPriority(t);
        if mutexPriority != curr[t] {
          curr := curr[t := mutexPriority];
        } else {
          more := false;
        }
      }
      SettleEnd(s, t);
    }

    /** The wait list t is in follows its new priority; next is the owner it waits for. */
    method Follow(ghost s: Sys, t: nat) returns (next: nat)
      requires t < |init| && s.init == init && InvBut(s, t) && s.pending[t].Some? && Want(s, t) < LEVELS
      requires Want(s, t) != s.curr[t] && State() == SetCurr(s, t, Want(s, t))
      modifies this`waiters, this`prio
      ensures next < |init| && InvBut(State(), next) && Want(State(), next) < LEVELS
      ensures Settle(State(), next) == Settle(s, t) && Rank(State(), next) < Rank(s, t)
    {
      WaitsForOwner(s, t);
      FixKeeps(s, t);
      MeasureShrinks(s, t);
      SetCurrGraph(s, t, Want(s, t));
      var m := pending[t].value;
      next := owner[m].value;
      Requeue(m, t, State());
      WantBelowLevels(State(), next);
    }

    /** rt_mutex_take by thread t. */
    method Take(t: nat, m: nat, timeout: int, suspends: bool) returns (e: Outcome)
      requires Inv(State()) && t < |init| && m < |owner| && pending[t].None?
      modifies this
      ensures (State(), e) == MutexCalls.Take(old(State()), t, m, timeout, suspends)
    {
      if owner[m] == Some(t) {
        if hold[m] < HOLD_MAX {
          hold := hold[m := hold[m] + 1];
        } else {
          return Full;
        }
      } else if owner[m].None? {
        owner := owner[m := Some(t)];
        prio := prio[m := 0xff];
        hold := hold[m := 1];
        taken := taken[t := [m] + taken[t]];
      } else if timeout == 0 {
        return TimedOut;
      } else if !suspends {
        return NotSuspended;
      } else {
        Block(t, m);
        return Blocked;
      }
      return Done;
    }

    /** The part of rt_mutex_take that waits. */
    method Block(t: nat, m: nat)
      requires Inv(State()) && t < |init| && m < |owner| && pending[t].None?
      requires owner[m].Some? && owner[m] != Some(t)
      modifies this`curr, this`waiters, this`prio, this`pending
      ensures owner[m].value < |init| && InvBut(Wait(old(State()), t, m), owner[m].value)
      ensures State() == Settle(Wait(old(State()), t, m), owner[m].value)
    {
      ghost var s := State();
      assert MutexOk(s, m);
      WaitKeeps(s, t, m);
      WaitUnneeded(s, t, m, owner[m].value);
      SettleEnd(Wait(s, t, m), owner[m].value);
      SuspEnqueue(m, t);
      pending := pending[t := Some(m)];
      var priority := curr[t];
      if priority < prio[m] {
        prio := prio[m := priority];
        assert State() == Wait(s, t, m);
        if prio[m] < curr[owner[m].value] {
          UpdatePriority(owner[m].value, priority);
        }
      } else {
        assert prio == prio[m := Wait(s, t, m).prio[m]];
        assert State() == Wait(s, t, m);
        WaitedAbove(s, t, m);
      }
    }

    /** rt_mutex_drop_thread */
    method Drop(m: nat, t: nat)
      requires Inv(State()) && t < |init| && pending[t] == Some(m)
      modifies this`curr, this`waiters, this`prio, this`pending
      ensures State() == MutexCalls.Drop(old(State()), t)
    {
      ghost var s := State();
      LeaveKeeps(s, t, m);
      var o := owner[m].value;
      if s.curr[o] != s.curr[t] { LeaveUnneeded(s, t, m, o); }
      SettleEnd(Leave(s, t, m), o);
      assert MutexOk(s, m);
      WithoutKeeps(curr, waiters[m], t);
      SuspRemove(m, t);
      pending := pending[t := None];
      var needUpdate := curr[o] == curr[t];
      UpdateMutexPriority(m);
      assert State() == Leave(s, t, m);
      if needUpdate {
        var priority := MutexPriority(o);
        if priority != curr[o] {
          UpdatePriority(o, priority);
        }
      }
    }

    /** _check_and_update_prio of the owner t, once m is off its taken list. */
    method CheckAndUpdatePrio(t: nat, m: nat, ghost s: Sys)
      requires Inv(s) && t < |s.init| && m < |s.owner| && s.owner[m] == Some(t) && s.pending[t].None?
      requires m in s.taken[t] && State() == s.(taken := s.taken[t := Without(s.taken[t], m)], hold := s.hold[m := 0])
      modifies this`curr
      ensures State() == Untake(s, t, m).(hold := s.hold[m := 0])
    {
      if s.curr[t] != s.prio[m] { UntakeUnneeded(s, t, m); }
      UntakeLoose(s, t, m);
      if curr[t] == prio[m] {
        var priority := MutexPriority(t);
        curr := curr[t := priority];
      } else {
        assert curr == Untake(s, t, m).curr;
      }
    }

    /** rt_mutex_release by thread t. */
    method Release(t: nat, m: nat, late: set<nat>) returns (e: Outcome)
      requires Inv(State()) && t < |init| && m < |owner| && pending[t].None?
      modifies this
      ensures (State(), e) == MutexCalls.Release(old(State()), t, m, late)
    {
      ghost var s := State();
      assert MutexOk(s, m);
      if owner[m] != Some(t) {
        return NotOwner;
      }
      hold := hold[m := hold[m] - 1];
      if hold[m] == 0 {
        UntakeLoose(s, t, m);
        assert MutexOk(s, m) && ThreadOk(s, t);
        var i := IndexOf(taken[t], m);
        taken := taken[t := taken[t][..i] + taken[t][i + 1..]];
        CheckAndUpdatePrio(t, m, s);
        HandOver(m, late, Untake(s, t, m));
      }
      return Done;
    }

    /** The wake-up loop of rt_mutex_release and what follows it. */
    method HandOver(m: nat, late: set<nat>, ghost s: Sys)
      requires Loose(s, m) && s.hold[m] == 1 && State() == s.(hold := s.hold[m := 0])
      modifies this
      ensures State() == HandOff(s, m, late)
    {
      ghost var k := FirstReady(s.waiters[m], late);
      HandOverFacts(s, m, k);
      if k < |s.waiters[m]| { HandOverFacts(s, m, k + 1); }
      hide Loose, FirstReady, Cleared;
      var next := WakeFirst(m, late, s);
      if next.Some? {
        owner := owner[m := next];
        hold := hold[m := 1];
        taken := taken[next.value := [m] + taken[next.value]];
        pending := pending[next.value := None];
        UpdateMutexPriority(m);
      } else {
        owner := owner[m := None];
        prio := prio[m := 0xff];
      }
    }

    /** Waiters leave the list until one can be made ready. */
    method WakeFirst(m: nat, late: set<nat>, ghost s: Sys) returns (next: Option<nat>)
      requires Loose(s, m) && State() == s.(hold := s.hold[m := 0])
      modifies this`waiters, this`pending
      ensures var (w, k) := (s.waiters[m], FirstReady(s.waiters[m], late));
        && next == (if k < |w| then Some(w[k]) else None)
        && waiters == s.waiters[m := if k < |w| then w[k + 1..] else []]
        && pending == Cleared(s.pending, w[..k])
    {
      next := None;
      ghost var w, i: nat := waiters[m], 0;
      assert pending == Cleared(s.pending, w[..0]);
      while next.None? && waiters[m] != []
        invariant m < |waiters| && i <= |w| && w == s.waiters[m]
        invariant next.Some? ==> i < |w| && next.value == w[i] && w[i] !in late
        invariant waiters == s.waiters[m := if next.None? then w[i..] else w[i + 1..]]
        invariant pending == Cleared(s.pending, w[..i])
        invariant forall j | 0 <= j < i :: w[j] in late
        decreases |w| - i, next.None?
      {
        HandOverFacts(s, m, i);
        var first := waiters[m][0];
        waiters := waiters[m := waiters[m][1..]];
        if first !in late {
          next := Some(first);
        } else {
          pending := pending[first := None];
          i := i + 1;
        }
      }
    }
  }
}
