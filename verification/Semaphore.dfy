/** The counting semaphore of rt-thread/src/ipc.c. */
module Semaphore {
  import opened Options
  import opened PrioOrder

  // RT_SEM_VALUE_MAX
  const VALUE_MAX: nat := 0xffff

  /** A suspended thread and its priority. */
  datatype Waiter = Waiter(thread: nat, prio: nat)

  datatype Err = OK | ETIMEOUT | EFULL | REFUSED | BLOCKED

  datatype State = State(value: nat, max: nat, waiters: seq<Waiter>)

  function Queued(ws: seq<Waiter>, w: Waiter, byPrio: bool): seq<Waiter> {
    Enlisted(ws, Prios(ws), w, w.prio, byPrio)
  }

  /** rt_sem_take up to its first return or its wait. REFUSED is the error of
      rt_thread_suspend_to_list, BLOCKED a caller left on the list. */
  function Taken(s: State, w: Waiter, byPrio: bool, timeout: int, suspends: bool): (State, Err) {
    if s.value > 0 then (s.(value := s.value - 1), OK)
    else if timeout == 0 then (s, ETIMEOUT)
    else if !suspends then (s, REFUSED)
    else (s.(waiters := Queued(s.waiters, w, byPrio)), BLOCKED)
  }

  /** rt_sem_release: the thread resumed, if any. `ready` tells whether the first waiter can
      be made ready; one whose timeout has just fired cannot, and stays for its own clean-up. */
  function Released(s: State, ready: bool): (State, Option<Waiter>, Err) {
    if s.waiters != [] then
      if ready then (s.(waiters := s.waiters[1..]), Some(s.waiters[0]), OK) else (s, None, OK)
    else if s.value < s.max then (s.(value := s.value + 1), None, OK)
    else (s, None, EFULL)
  }

  /** Threads wait only for an exhausted semaphore, and the count keeps to its limit. */
  ghost predicate Inv(s: State) {
    s.value <= s.max && (s.waiters != [] ==> s.value == 0)
  }

  function Prios(ws: seq<Waiter>): (ps: seq<nat>)
    ensures |ps| == |ws|
  {
    seq(|ws|, i requires 0 <= i < |ws| => ws[i].prio)
  }

  /** Which answer rt_sem_take gives and what it changes: a positive count is granted whatever
      the timeout, and a caller is left waiting only without one, at its place in the list. */
  lemma TakeOutcome(s: State, w: Waiter, byPrio: bool, timeout: int, suspends: bool) returns (k: nat)
    ensures k <= |s.waiters|
    ensures var (r, e) := Taken(s, w, byPrio, timeout, suspends);
      && (e == OK <==> s.value > 0)
      && (e == ETIMEOUT <==> s.value == 0 && timeout == 0)
      && (e == REFUSED <==> s.value == 0 && timeout != 0 && !suspends)
      && (e == BLOCKED <==> s.value == 0 && timeout != 0 && suspends)
      && (e == OK ==> r.value + 1 == s.value && r.waiters == s.waiters)
      && (e == BLOCKED ==> r.value == 0 && r.waiters == s.waiters[..k] + [w] + s.waiters[k..])
      && (e != OK && e != BLOCKED ==> r == s) && r.max == s.max
    ensures !byPrio ==> k == |s.waiters|
    ensures byPrio && Sorted(Prios(s.waiters)) ==> forall i | 0 <= i < |s.waiters| :: i < k <==> s.waiters[i].prio <= w.prio
  {
    k := EnlistedOrder(s.waiters, Prios(s.waiters), w, w.prio, byPrio);
    assert forall i | 0 <= i < |s.waiters| :: Prios(s.waiters)[i] == s.waiters[i].prio;
    hide Enlisted, Sorted;
  }

  /** Whom rt_sem_release resumes: the first waiter, if it can be made ready; only without
      waiters does the count go up, and only at the limit is the release refused. */
  lemma ReleaseOutcome(s: State, ready: bool)
    requires Inv(s)
    ensures var (r, resumed, e) := Released(s, ready);
      && (e == EFULL <==> s.waiters == [] && s.value == s.max) && (e != EFULL ==> e == OK)
      && (if s.waiters != [] && ready then resumed.Some? && s.waiters == [resumed.value] + r.waiters
          else resumed.None? && r.waiters == s.waiters)
      && r.value == (if s.waiters == [] && s.value < s.max then s.value + 1 else s.value) && r.max == s.max
  {
  }

  lemma TakeSorted(s: State, w: Waiter, timeout: int, suspends: bool)
    requires Sorted(Prios(s.waiters))
    ensures Sorted(Prios(Taken(s, w, true, timeout, suspends).0.waiters))
  {
    SlotKeepsSorted(Prios(s.waiters), w.prio);
    assert Prios(Queued(s.waiters, w, true)) == InsertAt(Prios(s.waiters), Slot(Prios(s.waiters), w.prio), w.prio);
    hide Sorted;
  }

  lemma LessSorted(ws: seq<Waiter>, i: nat)
    requires Sorted(Prios(ws)) && i < |ws|
    ensures Sorted(Prios(ws[..i] + ws[i + 1..])) && Sorted(Prios(ws[1..]))
  {
    var ps := Prios(ws);
    assert Prios(ws[..i] + ws[i + 1..]) == ps[..i] + ps[i + 1..] && Prios(ws[1..]) == ps[1..];
  }

  /** With RT_IPC_FLAG_PRIO the list of waiters stays sorted over every run, so that a release
      resumes a waiter of the highest priority, of those the one that came first. */
  lemma {:induction false} RunSorted(value: nat, max: nat, calls: seq<Call>)
    ensures Sorted(Prios(Run(value, max, true, calls).s.waiters))
  {
    if calls != [] {
      RunSorted(value, max, calls[..|calls| - 1]);
      var s := Run(value, max, true, calls[..|calls| - 1]).s;
      match calls[|calls| - 1]
      case DoTake(w, timeout, suspends) => TakeSorted(s, w, timeout, suspends);
      case DoRelease(_) => if s.waiters != [] { LessSorted(s.waiters, 0); }
      case DoTimeout(i) => if i < |s.waiters| { LessSorted(s.waiters, i); }
    }
    hide Sorted, Taken, Prios;
  }

  datatype Call = DoTake(w: Waiter, timeout: int, suspends: bool) | DoRelease(ready: bool) | DoTimeout(i: nat)

  /** What a run of calls has come to: takes that were granted, at once or by a release;
      releases that returned OK; and those of them that found only a late waiter. */
  datatype Account = Account(s: State, granted: nat, released: nat, wasted: nat)

  ghost function Run(value: nat, max: nat, byPrio: bool, calls: seq<Call>): Account {
    if calls == [] then Account(State(value, max, []), 0, 0, 0)
    else
      var a := Run(value, max, byPrio, calls[..|calls| - 1]);
      match calls[|calls| - 1]
      case DoTake(w, timeout, suspends) =>
        var (s, e) := Taken(a.s, w, byPrio, timeout, suspends);
        a.(s := s, granted := if e == OK then a.granted + 1 else a.granted)
      case DoRelease(ready) =>
        var (s, w, e) := Released(a.s, ready);
        Account(s, if w.Some? then a.granted + 1 else a.granted, if e == OK then a.released + 1 else a.released,
                if a.s.waiters != [] && !ready then a.wasted + 1 else a.wasted)
      case DoTimeout(i) =>
        if i < |a.s.waiters| then a.(s := a.s.(waiters := a.s.waiters[..i] + a.s.waiters[i + 1..])) else a
  }

  /** Over every run the count is what it began with, plus the releases that returned OK, less
      the takes granted and the releases spent on late waiters. */
  lemma {:induction false} Balance(value: nat, max: nat, byPrio: bool, calls: seq<Call>)
    requires value <= max
    ensures var a := Run(value, max, byPrio, calls);
      Inv(a.s) && a.s.max == max && a.s.value + a.granted + a.wasted == value + a.released
  {
    if calls != [] {
      Balance(value, max, byPrio, calls[..|calls| - 1]);
      hide Queued, Prios, Sorted;
    }
  }

  class Sem {
    const byPrio: bool
    var value: nat
    var max: nat
    var waiters: seq<Waiter>

    ghost function Now(): State
      reads this
    {
      State(value, max, waiters)
    }

    /** rt_sem_init */
    constructor (value: nat, byPrio: bool)
      requires value <= VALUE_MAX
      ensures Now() == State(value, VALUE_MAX, []) && this.byPrio == byPrio
    {
      this.value, max, waiters, this.byPrio := value, VALUE_MAX, [], byPrio;
    }

    /** rt_sem_take */
    method Take(thread: nat, prio: nat, timeout: int, suspends: bool) returns (e: Err)
      modifies this
      ensures (Now(), e) == Taken(old(Now()), Waiter(thread, prio), byPrio, timeout, suspends)
    {
      if value > 0 {
        value := value - 1;
      } else {
        if timeout == 0 {
          return ETIMEOUT;
        }
        if !suspends {
          return REFUSED;
        }
        waiters := Queued(waiters, Waiter(thread, prio), byPrio);
        return BLOCKED;
      }
      return OK;
    }

    /** rt_sem_release */
    method Release(ready: bool) returns (resumed: Option<Waiter>, e: Err)
      modifies this
      ensures (Now(), resumed, e) == Released(old(Now()), ready)
    {
      resumed := None;
      if waiters != [] {
        if ready {
          resumed := Some(waiters[0]);
          waiters := waiters[1..];
        }
      } else {
        if value < max {
          value := value + 1;
        } else {
          return resumed, EFULL;
        }
      }
      return resumed, OK;
    }
  }
}
