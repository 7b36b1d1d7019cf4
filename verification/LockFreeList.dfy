/** rt_ll_slist_enqueue and rt_ll_slist_dequeue of rt-thread/include/rtatomic.h, split at
    every load, store and compare-exchange, under all interleavings of their callers. */
module LockFreeList {
  import opened Chains
  import opened Options
  import opened Seqs

  /** Inside enqueue: exp has been loaded; n->next has been stored. */
  datatype Enq = Outside | Loaded(n: nat, exp: Option<nat>) | Stored(n: nat, exp: Option<nat>)

  /** Inside dequeue: exp has been loaded; head->next has been loaded too. */
  datatype Deq = Ready | Got(exp: Option<nat>) | Read(h: nat, after: Option<nat>)

  /** What the calls amount to, each at the moment it takes effect. */
  datatype Op = Push(n: nat) | Pop(n: nat) | Nothing

  /** l->next, the next field of every node, the callers, and the log of effects. */
  datatype World = World(head: Option<nat>, next: seq<Option<nat>>, enq: seq<Enq>, deq: seq<Deq>, log: seq<Op>)

  datatype Event = EnqLoad(e: nat, n: nat) | EnqStore(e: nat) | EnqCas(e: nat)
                 | DeqLoad(d: nat) | DeqNext(d: nat) | DeqCas(d: nat)

  /** The stack the log builds, or None if a pop or an empty answer does not fit it. */
  function Stack(log: seq<Op>): Option<seq<nat>> {
    if log == [] then Some([])
    else
      match Stack(log[..|log| - 1])
      case None => None
      case Some(l) =>
        match log[|log| - 1]
        case Push(n) => Some([n] + l)
        case Pop(n) => if l != [] && l[0] == n then Some(l[1..]) else None
        case Nothing => if l == [] then Some([]) else None
  }

  /** Nobody is enqueueing n. */
  predicate Idle(s: World, n: nat) {
    forall e | 0 <= e < |s.enq| :: s.enq[e] == Outside || s.enq[e].n != n
  }

  /** A caller enqueues a node that is neither in the list nor being enqueued. */
  predicate Enabled(s: World, ev: Event) {
    match ev
    case EnqLoad(e, n) =>
      e < |s.enq| && s.enq[e].Outside? && n < |s.next| && Idle(s, n) && Stack(s.log).Some? && n !in Stack(s.log).value
    case EnqStore(e) => e < |s.enq| && s.enq[e].Loaded? && s.enq[e].n < |s.next|
    case EnqCas(e) => e < |s.enq| && s.enq[e].Stored?
    case DeqLoad(d) => d < |s.deq| && s.deq[d].Ready?
    case DeqNext(d) => d < |s.deq| && s.deq[d].Got? && (s.deq[d].exp.Some? ==> s.deq[d].exp.value < |s.next|)
    case DeqCas(d) => d < |s.deq| && s.deq[d].Read?
  }

  /** The dequeuer sees this value of l->next; NULL means that the list is empty now. */
  function Seen(s: World, d: nat): World
    requires d < |s.deq|
  {
    s.(deq := s.deq[d := Got(s.head)], log := if s.head.None? then s.log + [Nothing] else s.log)
  }

  function Step(s: World, ev: Event): World
    requires Enabled(s, ev)
  {
    match ev
    case EnqLoad(e, n) => s.(enq := s.enq[e := Loaded(n, s.head)])
    case EnqStore(e) =>
      var Loaded(n, exp) := s.enq[e];
      s.(next := s.next[n := exp], enq := s.enq[e := Stored(n, exp)])
    case EnqCas(e) =>
      var Stored(n, exp) := s.enq[e];
      if s.head == exp then s.(head := Some(n), enq := s.enq[e := Outside], log := s.log + [Push(n)])
      else s.(enq := s.enq[e := Loaded(n, s.head)])
    case DeqLoad(d) => Seen(s, d)
    case DeqNext(d) =>
      var exp := s.deq[d].exp;
      if exp.None? then s.(deq := s.deq[d := Ready])
      else s.(deq := s.deq[d := Read(exp.value, s.next[exp.value])])
    case DeqCas(d) =>
      var Read(h, after) := s.deq[d];
      if s.head == Some(h) then s.(head := after, deq := s.deq[d := Ready], log := s.log + [Pop(h)])
      else Seen(s, d)
  }

  /** A dequeuer in its loop has seen node n at the head. */
  ghost predicate Held(s: World, n: nat) {
    exists d :: 0 <= d < |s.deq| && (s.deq[d] == Got(Some(n)) || (s.deq[d].Read? && s.deq[d].h == n))
  }

  ghost predicate EnqOk(s: World, l: seq<nat>, e: nat)
    requires e < |s.enq|
  {
    match s.enq[e]
    case Outside => true
    case Loaded(n, _) => n < |s.next| && n !in l && !Held(s, n)
    case Stored(n, exp) => n < |s.next| && n !in l && !Held(s, n) && s.next[n] == exp
  }

  ghost predicate DeqOk(s: World, d: nat)
    requires d < |s.deq|
  {
    match s.deq[d]
    case Ready => true
    case Got(exp) => exp.Some? ==> exp.value < |s.next|
    case Read(h, after) => h < |s.next| && s.next[h] == after
  }

  /** No two callers enqueue the same node. */
  ghost predicate Apart(enq: seq<Enq>) {
    forall e, f | 0 <= e < f < |enq| && enq[e] != Outside && enq[f] != Outside :: enq[e].n != enq[f].n
  }

  /** The linked list in memory is the stack l. */
  ghost predicate Holds(s: World, l: seq<nat>) {
    Stack(s.log) == Some(l) && Distinct(l) && s.head == Head(l) && Chain(s.next, l)
  }

  /** Nobody enqueues a node that a dequeuer still holds, so what a dequeuer has read of it
      stays true. */
  ghost predicate Inv(s: World, l: seq<nat>) {
    && Holds(s, l) && Apart(s.enq)
    && (forall e | 0 <= e < |s.enq| :: EnqOk(s, l, e))
    && (forall d | 0 <= d < |s.deq| :: DeqOk(s, d))
  }

  /** An enqueue starts only when no dequeuer holds its node. */
  ghost predicate Careful(s: World, ev: Event) {
    ev.EnqLoad? ==> !Held(s, ev.n)
  }

  lemma StackNext(log: seq<Op>, op: Op)
    ensures Stack(log + [op]) ==
      match Stack(log)
      case None => None
      case Some(l) =>
        match op
        case Push(n) => Some([n] + l)
        case Pop(n) => if l != [] && l[0] == n then Some(l[1..]) else None
        case Nothing => if l == [] then Some([]) else None
  {
  }

  /** What a step adds to the history: a push when a compare-exchange of an enqueue succeeds,
      a pop when one of a dequeue does, and an empty answer when a dequeuer sees NULL. */
  lemma LogOutcome(s: World, ev: Event)
    requires Enabled(s, ev)
    ensures Step(s, ev).log == s.log +
      match ev
      case EnqCas(e) => if s.head == s.enq[e].exp then [Push(s.enq[e].n)] else []
      case DeqLoad(d) => if s.head == None then [Nothing] else []
      case DeqCas(d) => if s.head == Some(s.deq[d].h) then [Pop(s.deq[d].h)] else if s.head == None then [Nothing] else []
      case _ => []
  {
    assert s.log + [] == s.log;
  }

  lemma EnqStep(s: World, l: seq<nat>, ev: Event)
    requires Inv(s, l) && Enabled(s, ev) && Careful(s, ev) && (ev.EnqLoad? || ev.EnqStore?)
    ensures Inv(Step(s, ev), l)
  {
    var r := Step(s, ev);
    assert EnqOk(s, l, ev.e);
    SameHeld(s, r);
    if ev.EnqStore? { ChainFrame(s.next, l, s.enq[ev.e].n, s.enq[ev.e].exp); }
    hide Chain, Stack;
    forall e | 0 <= e < |r.enq| ensures EnqOk(r, l, e) { assert EnqOk(s, l, e); }
    forall d | 0 <= d < |r.deq| ensures DeqOk(r, d) {
      assert DeqOk(s, d);
      if s.deq[d].Read? { assert Held(s, s.deq[d].h); }
    }
  }

  lemma SameHeld(s: World, r: World)
    requires r.deq == s.deq
    ensures forall n: nat :: Held(r, n) == Held(s, n)
  {
  }

  lemma EnqCasStep(s: World, l: seq<nat>, e: nat)
    requires Inv(s, l) && Enabled(s, EnqCas(e))
    ensures var r := Step(s, EnqCas(e)); Inv(r, if s.head == s.enq[e].exp then [s.enq[e].n] + l else l)
  {
    var r := Step(s, EnqCas(e));
    var n := s.enq[e].n;
    assert EnqOk(s, l, e);
    SameHeld(s, r);
    var k := if s.head == s.enq[e].exp then [n] + l else l;
    if s.head == s.enq[e].exp {
      StackNext(s.log, Push(n));
      ChainPrepend(s.next, l, n);
      assert s.next[n := Head(l)] == s.next;
    }
    assert Holds(r, k) && forall x :: x in k ==> x in l || x == n;
    hide Chain, Stack, Held, Holds, DeqOk;
    forall f | 0 <= f < |r.enq| ensures EnqOk(r, k, f) { assert EnqOk(s, l, f); }
    forall d | 0 <= d < |r.deq| ensures DeqOk(r, d) { DeqOkFrame(s, r, d); }
  }

  lemma DeqOkFrame(s: World, r: World, d: nat)
    requires d < |s.deq| && r.deq == s.deq && r.next == s.next && DeqOk(s, d)
    ensures DeqOk(r, d)
  {
  }

  /** What a step of a dequeuer adds to the nodes held is the head. */
  lemma DeqHeld(s: World, ev: Event, n: nat)
    requires Enabled(s, ev) && (ev.DeqLoad? || ev.DeqNext? || ev.DeqCas?) && s.head != Some(n) && !Held(s, n)
    ensures !Held(Step(s, ev), n)
  {
    var r := Step(s, ev);
    forall d | 0 <= d < |r.deq| ensures r.deq[d] != Got(Some(n)) && !(r.deq[d].Read? && r.deq[d].h == n) {
      assert s.deq[d] != Got(Some(n)) && !(s.deq[d].Read? && s.deq[d].h == n);
    }
  }

  /** A successful compare-exchange of a dequeuer removes the head; the list in memory is
      still the stack exactly when the successor read before is the head's successor now. */
  lemma DeqCasIff(s: World, l: seq<nat>, d: nat)
    requires Holds(s, l) && Enabled(s, DeqCas(d)) && s.head == Some(s.deq[d].h)
    ensures var r, h := Step(s, DeqCas(d)), s.deq[d].h;
      && l != [] && l[0] == h < |s.next| && Stack(r.log) == Some(l[1..])
      && (Holds(r, l[1..]) <==> s.deq[d].after == s.next[h])
  {
    StackNext(s.log, Pop(s.deq[d].h));
    ChainTail(s.next, l);
    hide Chain, Stack;
  }

  lemma DeqHolds(s: World, l: seq<nat>, ev: Event)
    requires Holds(s, l) && Enabled(s, ev) && (ev.DeqLoad? || ev.DeqNext? || ev.DeqCas?) && DeqOk(s, ev.d)
    ensures var pops := ev.DeqCas? && s.head == Some(s.deq[ev.d].h);
      (pops ==> l != [] && s.deq[ev.d].h == l[0]) && Holds(Step(s, ev), if pops then l[1..] else l)
  {
    StackNext(s.log, Nothing);
    if ev.DeqCas? && s.head == Some(s.deq[ev.d].h) { DeqCasIff(s, l, ev.d); }
    hide Chain, Stack;
  }

  lemma DeqSeen(s: World, ev: Event)
    requires Enabled(s, ev) && (ev.DeqLoad? || ev.DeqNext? || ev.DeqCas?)
    requires (forall d | 0 <= d < |s.deq| :: DeqOk(s, d)) && (s.head.Some? ==> s.head.value < |s.next|)
    ensures forall d | 0 <= d < |s.deq| :: DeqOk(Step(s, ev), d)
  {
    assert DeqOk(s, ev.d);
    forall d | 0 <= d < |s.deq| ensures DeqOk(Step(s, ev), d) { assert DeqOk(s, d); }
  }

  lemma HeadInList(s: World, l: seq<nat>)
    requires Holds(s, l)
    ensures s.head.Some? ==> s.head.value < |s.next| && s.head.value in l
  {
    if l != [] { assert LinkedAt(s.next, l, 0); }
  }

  lemma DeqStep(s: World, l: seq<nat>, ev: Event)
    requires Inv(s, l) && Enabled(s, ev) && (ev.DeqLoad? || ev.DeqNext? || ev.DeqCas?)
    ensures var pops := ev.DeqCas? && s.head == Some(s.deq[ev.d].h);
      (pops ==> l != [] && s.deq[ev.d].h == l[0]) && Inv(Step(s, ev), if pops then l[1..] else l)
  {
    hide Holds, Held, DeqOk;
    var r := Step(s, ev);
    DeqHolds(s, l, ev);
    HeadInList(s, l);
    DeqSeen(s, ev);
    var k := if ev.DeqCas? && s.head == Some(s.deq[ev.d].h) then l[1..] else l;
    assert forall x :: x in k ==> x in l;
    forall e | 0 <= e < |r.enq| ensures EnqOk(r, k, e) {
      assert EnqOk(s, l, e);
      if !s.enq[e].Outside? { DeqHeld(s, ev, s.enq[e].n); }
    }
  }

  ghost function After(s: World, l: seq<nat>, ev: Event): (k: seq<nat>)
    requires Inv(s, l) && Enabled(s, ev) && Careful(s, ev)
    ensures Inv(Step(s, ev), k)
  {
    match ev
    case EnqLoad(_, _) => EnqStep(s, l, ev); l
    case EnqStore(_) => EnqStep(s, l, ev); l
    case EnqCas(e) => EnqCasStep(s, l, e); if s.head == s.enq[e].exp then [s.enq[e].n] + l else l
    case DeqLoad(_) => DeqStep(s, l, ev); l
    case DeqNext(_) => DeqStep(s, l, ev); l
    case DeqCas(d) => DeqStep(s, l, ev); if s.head == Some(s.deq[d].h) then l[1..] else l
  }

  // -- Runs -----------------------------------------------------------------------------

  /** rt_ll_slist_init; the next fields of the nodes are arbitrary. */
  function Start(next: seq<Option<nat>>, enqueuers: nat, dequeuers: nat): World {
    World(None, next, seq(enqueuers, _ => Outside), seq(dequeuers, _ => Ready), [])
  }

  function Run(start: World, evs: seq<Event>): Option<World> {
    if evs == [] then Some(start)
    else
      match Run(start, evs[..|evs| - 1])
      case None => None
      case Some(s) => if Enabled(s, evs[|evs| - 1]) then Some(Step(s, evs[|evs| - 1])) else None
  }

  /** Every enqueue of the run started when no dequeuer held its node. */
  ghost predicate CarefulRun(start: World, evs: seq<Event>) {
    evs == [] ||
    var before := Run(start, evs[..|evs| - 1]);
    CarefulRun(start, evs[..|evs| - 1]) && before.Some? && Careful(before.value, evs[|evs| - 1])
  }

  lemma {:induction false} RunInv(start: World, l: seq<nat>, evs: seq<Event>) returns (k: seq<nat>)
    requires Inv(start, l) && Run(start, evs).Some? && CarefulRun(start, evs)
    ensures Inv(Run(start, evs).value, k)
  {
    hide Inv, Careful, Step, Enabled;
    if evs == [] {
      k := l;
    } else {
      k := RunInv(start, l, evs[..|evs| - 1]);
      k := After(Run(start, evs[..|evs| - 1]).value, k, evs[|evs| - 1]);
    }
  }

  lemma StartInv(next: seq<Option<nat>>, enqueuers: nat, dequeuers: nat)
    ensures Inv(Start(next, enqueuers, dequeuers), [])
  {
  }

  ghost function Pushed(log: seq<Op>): multiset<nat> {
    if log == [] then multiset{}
    else
      var m := Pushed(log[..|log| - 1]);
      if log[|log| - 1].Push? then m + multiset{log[|log| - 1].n} else m
  }

  ghost function Popped(log: seq<Op>): multiset<nat> {
    if log == [] then multiset{}
    else
      var m := Popped(log[..|log| - 1]);
      if log[|log| - 1].Pop? then m + multiset{log[|log| - 1].n} else m
  }

  /** In a legal history every node pushed is popped once or still there. */
  lemma {:induction false} Conserved(log: seq<Op>)
    requires Stack(log).Some?
    ensures Pushed(log) == Popped(log) + multiset(Stack(log).value)
  {
    if log != [] {
      Conserved(log[..|log| - 1]);
      var l := Stack(log[..|log| - 1]).value;
      if l != [] { assert l == [l[0]] + l[1..]; }
    }
  }

  /** The calls take effect as pushes and pops of one stack: the list in memory is that
      stack, a dequeue returns its top, NULL only when it was empty, and no node is lost or
      given out twice. */
  ghost predicate Linear(s: World) {
    && Stack(s.log).Some? && Holds(s, Stack(s.log).value)
    && Pushed(s.log) == Popped(s.log) + multiset(Stack(s.log).value)
  }

  /** Linearizability in every interleaving of any number of enqueuers and dequeuers in which
      no node is enqueued while a dequeuer still holds it. */
  lemma Linearizable(next: seq<Option<nat>>, enqueuers: nat, dequeuers: nat, evs: seq<Event>)
    requires Run(Start(next, enqueuers, dequeuers), evs).Some?
    requires CarefulRun(Start(next, enqueuers, dequeuers), evs)
    ensures Linear(Run(Start(next, enqueuers, dequeuers), evs).value)
  {
    StartInv(next, enqueuers, dequeuers);
    var l := RunInv(Start(next, enqueuers, dequeuers), [], evs);
    Conserved(Run(Start(next, enqueuers, dequeuers), evs).value.log);
  }

  // -- Calls return only with an effect ---------------------------------------------------

  /** How often an enqueue of node x has begun. */
  ghost function Begun(evs: seq<Event>, x: nat): nat {
    if evs == [] then 0
    else Begun(evs[..|evs| - 1], x) + if evs[|evs| - 1].EnqLoad? && evs[|evs| - 1].n == x then 1 else 0
  }

  predicate Holding(e: Enq, x: nat) {
    e != Outside && e.n == x
  }

  /** How many callers are enqueueing node x. */
  ghost function InHands(enq: seq<Enq>, x: nat): nat {
    if enq == [] then 0
    else InHands(enq[..|enq| - 1], x) + if Holding(enq[|enq| - 1], x) then 1 else 0
  }

  lemma {:induction false} InHandsUpdate(enq: seq<Enq>, i: nat, e: Enq, x: nat)
    requires i < |enq|
    ensures InHands(enq[i := e], x) + (if Holding(enq[i], x) then 1 else 0)
         == InHands(enq, x) + if Holding(e, x) then 1 else 0
  {
    var n := |enq| - 1;
    if i < n {
      assert enq[i := e][..n] == enq[..n][i := e];
      InHandsUpdate(enq[..n], i, e, x);
    } else {
      assert enq[i := e][..n] == enq[..n];
    }
  }

  lemma {:induction false} NoHands(enq: seq<Enq>, x: nat)
    requires forall e | 0 <= e < |enq| :: enq[e].Outside?
    ensures InHands(enq, x) == 0
  {
    if enq != [] { NoHands(enq[..|enq| - 1], x); }
  }

  /** The history with one more step. */
  lemma LogCounts(s: World, ev: Event)
    requires Enabled(s, ev)
    ensures var pushed := if ev.EnqCas? && s.head == s.enq[ev.e].exp then multiset{s.enq[ev.e].n} else multiset{};
      Pushed(Step(s, ev).log) == Pushed(s.log) + pushed
    ensures var answers := (ev.DeqLoad? && s.head == None)
                        || (ev.DeqCas? && (s.head == Some(s.deq[ev.d].h) || s.head == None));
      Answers(Step(s, ev).log) == Answers(s.log) + if answers then 1 else 0
  {
    LogOutcome(s, ev);
    var more := Step(s, ev).log[|s.log|..];
    if more != [] { assert Step(s, ev).log[..|s.log|] == s.log; } else { assert Step(s, ev).log == s.log; }
    hide Step, Enabled;
  }

  /** In every run, careful or not, an enqueue returns only after its push: each node has been
      pushed as often as its enqueue has begun, less the enqueues still going on. */
  lemma {:induction false} EnqueueBalance(next: seq<Option<nat>>, enqueuers: nat, dequeuers: nat, evs: seq<Event>, x: nat)
    requires Run(Start(next, enqueuers, dequeuers), evs).Some?
    ensures var s := Run(Start(next, enqueuers, dequeuers), evs).value;
      Begun(evs, x) == Pushed(s.log)[x] + InHands(s.enq, x)
  {
    if evs == [] {
      NoHands(Start(next, enqueuers, dequeuers).enq, x);
    } else {
      EnqueueBalance(next, enqueuers, dequeuers, evs[..|evs| - 1], x);
      var s, ev := Run(Start(next, enqueuers, dequeuers), evs[..|evs| - 1]).value, evs[|evs| - 1];
      LogCounts(s, ev);
      EnqHands(s, ev, x);
    }
    hide Step, Enabled, Start, Pushed, Answers, InHands;
  }

  lemma EnqHands(s: World, ev: Event, x: nat)
    requires Enabled(s, ev)
    ensures InHands(Step(s, ev).enq, x)
         + (if ev.EnqCas? && s.head == s.enq[ev.e].exp && s.enq[ev.e].n == x then 1 else 0)
         == InHands(s.enq, x) + if ev.EnqLoad? && ev.n == x then 1 else 0
  {
    if ev.EnqLoad? || ev.EnqStore? || ev.EnqCas? { InHandsUpdate(s.enq, ev.e, Step(s, ev).enq[ev.e], x); }
    hide InHands;
  }

  /** Pops and empty answers. */
  ghost function Answers(log: seq<Op>): nat {
    if log == [] then 0
    else Answers(log[..|log| - 1]) + if log[|log| - 1].Push? then 0 else 1
  }

  /** Dequeues begun. */
  ghost function Asked(evs: seq<Event>): nat {
    if evs == [] then 0
    else Asked(evs[..|evs| - 1]) + if evs[|evs| - 1].DeqLoad? then 1 else 0
  }

  /** The dequeuer has seen a node and has not got it yet. */
  predicate Trying(d: Deq) {
    d.Read? || (d.Got? && d.exp.Some?)
  }

  ghost function Looping(deq: seq<Deq>): nat {
    if deq == [] then 0
    else Looping(deq[..|deq| - 1]) + if Trying(deq[|deq| - 1]) then 1 else 0
  }

  lemma {:induction false} LoopingUpdate(deq: seq<Deq>, i: nat, x: Deq)
    requires i < |deq|
    ensures Looping(deq[i := x]) + (if Trying(deq[i]) then 1 else 0) == Looping(deq) + if Trying(x) then 1 else 0
  {
    var n := |deq| - 1;
    if i < n {
      assert deq[i := x][..n] == deq[..n][i := x];
      LoopingUpdate(deq[..n], i, x);
    } else {
      assert deq[i := x][..n] == deq[..n];
    }
  }

  lemma {:induction false} NoneLooping(deq: seq<Deq>)
    requires forall d | 0 <= d < |deq| :: deq[d].Ready?
    ensures Looping(deq) == 0
  {
    if deq != [] { NoneLooping(deq[..|deq| - 1]); }
  }

  lemma DeqLooping(s: World, ev: Event)
    requires Enabled(s, ev)
    ensures var answers := (ev.DeqLoad? && s.head == None)
                        || (ev.DeqCas? && (s.head == Some(s.deq[ev.d].h) || s.head == None));
      Looping(Step(s, ev).deq) + (if answers then 1 else 0) == Looping(s.deq) + if ev.DeqLoad? then 1 else 0
  {
    if ev.DeqLoad? || ev.DeqNext? || ev.DeqCas? { LoopingUpdate(s.deq, ev.d, Step(s, ev).deq[ev.d]); }
    hide Looping;
  }

  /** In every run, careful or not, a dequeue ends with one answer, a node or NULL. */
  lemma {:induction false} DequeueBalance(next: seq<Option<nat>>, enqueuers: nat, dequeuers: nat, evs: seq<Event>)
    requires Run(Start(next, enqueuers, dequeuers), evs).Some?
    ensures var s := Run(Start(next, enqueuers, dequeuers), evs).value;
      Asked(evs) == Answers(s.log) + Looping(s.deq)
  {
    if evs == [] {
      NoneLooping(Start(next, enqueuers, dequeuers).deq);
    } else {
      DequeueBalance(next, enqueuers, dequeuers, evs[..|evs| - 1]);
      var s, ev := Run(Start(next, enqueuers, dequeuers), evs[..|evs| - 1]).value, evs[|evs| - 1];
      LogCounts(s, ev);
      DeqLooping(s, ev);
    }
    hide Step, Enabled, Start, Pushed, Answers, Looping;
  }

  // -- One dequeuer -----------------------------------------------------------------------

  /** The nodes a lone dequeuer holds stay in the list until it takes them out. */
  ghost predicate Lone(s: World, l: seq<nat>) {
    |s.deq| <= 1 && forall n: nat | Held(s, n) :: n in l
  }

  lemma LoneStep(s: World, l: seq<nat>, ev: Event)
    requires Inv(s, l) && Enabled(s, ev) && Careful(s, ev) && Lone(s, l)
    ensures Lone(Step(s, ev), After(s, l, ev))
  {
    var r, k := Step(s, ev), After(s, l, ev);
    if ev.DeqLoad? || ev.DeqNext? || ev.DeqCas? {
      DeqStep(s, l, ev);
      forall n: nat | Held(r, n) ensures n in k {
        if s.head != Some(n) && !Held(s, n) { DeqHeld(s, ev, n); }
      }
    } else {
      SameHeld(s, r);
    }
    hide Chain, Stack;
  }

  /** With at most one dequeuer every run is careful. */
  lemma {:induction false} LoneRun(start: World, l: seq<nat>, evs: seq<Event>) returns (k: seq<nat>)
    requires Inv(start, l) && Lone(start, l) && Run(start, evs).Some?
    ensures CarefulRun(start, evs)
    ensures Inv(Run(start, evs).value, k) && Lone(Run(start, evs).value, k)
  {
    k := l;
    if evs != [] {
      k := LoneRun(start, l, evs[..|evs| - 1]);
      var s, ev := Run(start, evs[..|evs| - 1]).value, evs[|evs| - 1];
      assert Stack(s.log) == Some(k);
      LoneStep(s, k, ev);
      k := After(s, k, ev);
    }
    hide Inv, Step, Held;
  }

  lemma OneDequeuer(next: seq<Option<nat>>, enqueuers: nat, dequeuers: nat, evs: seq<Event>)
    requires dequeuers <= 1 && Run(Start(next, enqueuers, dequeuers), evs).Some?
    ensures Linear(Run(Start(next, enqueuers, dequeuers), evs).value)
  {
    StartInv(next, enqueuers, dequeuers);
    var k := LoneRun(Start(next, enqueuers, dequeuers), [], evs);
    Linearizable(next, enqueuers, dequeuers, evs);
  }

  // -- No enqueuer, or one node -------------------------------------------------------------

  lemma {:induction false} NoEnqueuer(start: World, evs: seq<Event>)
    requires start.enq == [] && Run(start, evs).Some?
    ensures CarefulRun(start, evs) && Run(start, evs).value.enq == []
  {
    if evs != [] { NoEnqueuer(start, evs[..|evs| - 1]); }
  }

  /** The only node is last in every list it is in. */
  ghost predicate Last(s: World, n: nat) {
    n < |s.next| && s.next[n] == None
  }

  ghost predicate SingleEnq(s: World, l: seq<nat>, e: nat)
    requires e < |s.enq|
  {
    match s.enq[e]
    case Outside => true
    case Loaded(n, exp) => l == [] && n < |s.next| && exp == None
    case Stored(n, exp) => l == [] && Last(s, n) && exp == None
  }

  ghost predicate SingleDeq(s: World, d: nat)
    requires d < |s.deq|
  {
    match s.deq[d]
    case Ready => true
    case Got(exp) => exp.Some? ==> Last(s, exp.value)
    case Read(h, after) => Last(s, h) && after == None
  }

  ghost predicate Single(s: World, l: seq<nat>) {
    && |s.next| <= 1 && Holds(s, l) && Apart(s.enq)
    && (forall e | 0 <= e < |s.enq| :: SingleEnq(s, l, e))
    && (forall d | 0 <= d < |s.deq| :: SingleDeq(s, d))
  }

  lemma FirstTwo(l: seq<nat>)
    requires Distinct(l)
    ensures |l| > 1 ==> l[0] != l[1]
  {
  }

  lemma SingleList(s: World, l: seq<nat>)
    requires |s.next| <= 1 && Holds(s, l)
    ensures l == [] || (l == [0] && Last(s, 0))
  {
    forall i | 0 <= i < |l| ensures l[i] == 0 && (l[i..] == [0] ==> Last(s, 0)) { assert LinkedAt(s.next, l, i); }
    FirstTwo(l);
    assert l[0..] == l;
  }

  lemma SingleStore(s: World, l: seq<nat>, ev: Event)
    requires Single(s, l) && Enabled(s, ev) && (ev.EnqLoad? || ev.EnqStore?)
    ensures Single(Step(s, ev), l)
  {
    var r := Step(s, ev);
    SingleList(s, l);
    assert SingleEnq(s, l, ev.e);
    if ev.EnqStore? { ChainFrame(s.next, l, s.enq[ev.e].n, s.enq[ev.e].exp); }
    hide Stack, Chain;
    forall e | 0 <= e < |r.enq| ensures SingleEnq(r, l, e) { assert SingleEnq(s, l, e); }
    forall d | 0 <= d < |r.deq| ensures SingleDeq(r, d) { assert SingleDeq(s, d); }
  }

  lemma SinglePush(s: World, l: seq<nat>, e: nat)
    requires Holds(s, l) && Enabled(s, EnqCas(e)) && l == [] && s.enq[e].exp == None && Last(s, s.enq[e].n)
    ensures Step(s, EnqCas(e)).head == Some(s.enq[e].n) && Holds(Step(s, EnqCas(e)), [s.enq[e].n])
  {
    var n := s.enq[e].n;
    hide Stack, Chain;
    StackNext(s.log, Push(n));
    ChainPrepend(s.next, l, n);
    assert [n] + l == [n] && s.next[n := None] == s.next;
  }

  lemma SingleCas(s: World, l: seq<nat>, e: nat)
    requires Single(s, l) && Enabled(s, EnqCas(e))
    ensures Single(Step(s, EnqCas(e)), [s.enq[e].n])
  {
    var r, n := Step(s, EnqCas(e)), s.enq[e].n;
    assert SingleEnq(s, l, e);
    SinglePush(s, l, e);
    hide Holds, Last;
    forall f | 0 <= f < |r.enq| ensures r.enq[f] == Outside { assert SingleEnq(s, l, f) && n == 0; }
    forall d | 0 <= d < |r.deq| ensures SingleDeq(r, d) { assert SingleDeq(s, d); }
  }

  lemma SingleSeen(s: World, ev: Event)
    requires Enabled(s, ev) && (ev.DeqLoad? || ev.DeqNext? || ev.DeqCas?)
    requires (forall d | 0 <= d < |s.deq| :: SingleDeq(s, d)) && (s.head.Some? ==> Last(s, s.head.value))
    ensures forall d | 0 <= d < |s.deq| :: SingleDeq(Step(s, ev), d)
  {
    assert SingleDeq(s, ev.d);
    forall d | 0 <= d < |s.deq| ensures SingleDeq(Step(s, ev), d) { assert SingleDeq(s, d); }
  }

  lemma SingleDequeue(s: World, l: seq<nat>, ev: Event) returns (k: seq<nat>)
    requires Single(s, l) && Enabled(s, ev) && (ev.DeqLoad? || ev.DeqNext? || ev.DeqCas?)
    ensures Single(Step(s, ev), k)
  {
    var r := Step(s, ev);
    SingleList(s, l);
    assert SingleDeq(s, ev.d);
    DeqHolds(s, l, ev);
    assert s.head == Head(l);
    hide Holds, Last;
    SingleSeen(s, ev);
    k := if ev.DeqCas? && s.head == Some(s.deq[ev.d].h) then l[1..] else l;
    hide SingleDeq;
    forall e | 0 <= e < |r.enq| ensures SingleEnq(r, k, e) { assert SingleEnq(s, l, e); }
  }

  lemma {:induction false} SingleRun(start: World, l: seq<nat>, evs: seq<Event>) returns (k: seq<nat>)
    requires Single(start, l) && Run(start, evs).Some?
    ensures Single(Run(start, evs).value, k)
  {
    hide Single, Step;
    k := l;
    if evs != [] {
      k := SingleRun(start, l, evs[..|evs| - 1]);
      var s, ev := Run(start, evs[..|evs| - 1]).value, evs[|evs| - 1];
      if ev.EnqCas? {
        SingleCas(s, k, ev.e);
        k := [s.enq[ev.e].n];
      } else if ev.EnqLoad? || ev.EnqStore? { SingleStore(s, k, ev); }
      else { k := SingleDequeue(s, k, ev); }
    }
  }

  lemma OneNode(next: seq<Option<nat>>, enqueuers: nat, dequeuers: nat, evs: seq<Event>)
    requires |next| <= 1 && Run(Start(next, enqueuers, dequeuers), evs).Some?
    ensures Linear(Run(Start(next, enqueuers, dequeuers), evs).value)
  {
    assert Single(Start(next, enqueuers, dequeuers), []);
    var k := SingleRun(Start(next, enqueuers, dequeuers), [], evs);
    Conserved(Run(Start(next, enqueuers, dequeuers), evs).value.log);
  }

  // -- Two dequeuers --------------------------------------------------------------------

  lemma RunOneMore(start: World, evs: seq<Event>, ev: Event, before: World)
    requires Run(start, evs) == Some(before) && Enabled(before, ev)
    ensures Run(start, evs + [ev]) == Some(Step(before, ev))
  {
  }

  /** A run of one enqueue. */
  lemma EnqueueAlone(start: World, evs: seq<Event>, s: World, n: nat, l: seq<nat>)
    requires Run(start, evs) == Some(s) && s.enq != [] && forall e | 0 <= e < |s.enq| :: s.enq[e] == Outside
    requires Stack(s.log) == Some(l) && n < |s.next| && n !in l
    ensures var r := s.(head := Some(n), next := s.next[n := s.head], log := s.log + [Push(n)]);
      Run(start, evs + [EnqLoad(0, n)] + [EnqStore(0)] + [EnqCas(0)]) == Some(r) && Stack(r.log) == Some([n] + l)
  {
    var a := Step(s, EnqLoad(0, n));
    RunOneMore(start, evs, EnqLoad(0, n), s);
    var b := Step(a, EnqStore(0));
    RunOneMore(start, evs + [EnqLoad(0, n)], EnqStore(0), a);
    RunOneMore(start, evs + [EnqLoad(0, n)] + [EnqStore(0)], EnqCas(0), b);
    StackNext(s.log, Push(n));
    assert Step(b, EnqCas(0)).enq == s.enq;
  }

  /** A run of one dequeue by caller d of a list that is not empty in memory. */
  lemma DequeueAlone(start: World, evs: seq<Event>, s: World, d: nat)
    requires Run(start, evs) == Some(s) && d < |s.deq| && s.deq[d] == Ready
    requires s.head.Some? && s.head.value < |s.next|
    ensures var r := s.(head := s.next[s.head.value], log := s.log + [Pop(s.head.value)]);
      Run(start, evs + [DeqLoad(d)] + [DeqNext(d)] + [DeqCas(d)]) == Some(r)
  {
    var a := Step(s, DeqLoad(d));
    RunOneMore(start, evs, DeqLoad(d), s);
    var b := Step(a, DeqNext(d));
    RunOneMore(start, evs + [DeqLoad(d)], DeqNext(d), a);
    RunOneMore(start, evs + [DeqLoad(d)] + [DeqNext(d)], DeqCas(d), b);
    assert Step(b, DeqCas(d)).deq == s.deq;
  }

  function Enqueue(n: nat): seq<Event> {
    [EnqLoad(0, n)] + [EnqStore(0)] + [EnqCas(0)]
  }

  function Dequeue(d: nat): seq<Event> {
    [DeqLoad(d)] + [DeqNext(d)] + [DeqCas(d)]
  }

  /** Nodes 1 and 0 are enqueued; dequeuer 0 stops before its compare-exchange on node 0;
      dequeuer 1 takes both nodes and gives node 0 back; dequeuer 0 goes on, and with one
      more dequeue node 1 is given out a second time. */
  function TwoDequeuers(): seq<Event> {
    Enqueue(1) + Enqueue(0) + [DeqLoad(0)] + [DeqNext(0)] + Dequeue(1) + Dequeue(1) +
    Enqueue(0) + [DeqCas(0)] + Dequeue(1)
  }

  lemma Grouped(x: seq<Event>, a: Event, b: Event, c: Event)
    ensures x + ([a] + [b] + [c]) == x + [a] + [b] + [c]
  {
  }

  /** All enqueuers outside, dequeuer 0 as given, the others ready. */
  function At(start: World, head: Option<nat>, next: seq<Option<nat>>, d: Deq, log: seq<Op>): World
    requires start.deq != []
  {
    World(head, next, start.enq, start.deq[0 := d], log)
  }

  /** The next fields: node 1 is last, and node 0 points to p. */
  function Ends(next: seq<Option<nat>>, p: Option<nat>): seq<Option<nat>>
    requires |next| >= 2
  {
    next[1 := None][0 := p]
  }

  ghost predicate Roomy(start: World, next: seq<Option<nat>>) {
    && |next| >= 2 && start.enq != [] && |start.deq| >= 2
    && start == Start(next, |start.enq|, |start.deq|)
  }

  function Log(k: nat): seq<Op> {
    ([Push(1)] + [Push(0)] + [Pop(0)] + [Pop(1)] + [Push(0)] + [Pop(0)] + [Pop(1)])[..if k <= 7 then k else 7]
  }

  lemma LogNext()
    ensures Log(0) == []
    ensures Log(1) == Log(0) + [Push(1)] && Log(2) == Log(1) + [Push(0)] && Log(3) == Log(2) + [Pop(0)]
    ensures Log(4) == Log(3) + [Pop(1)] && Log(5) == Log(4) + [Push(0)] && Log(6) == Log(5) + [Pop(0)]
    ensures Log(7) == Log(6) + [Pop(1)]
  {
  }

  /** The history fits a stack up to the second time node 1 is popped. */
  lemma LogStack()
    ensures Stack(Log(0)) == Some([]) && Stack(Log(1)) == Some([1]) && Stack(Log(4)) == Some([])
    ensures Stack(Log(7)) == None
  {
    LogNext();
    hide Log;
    StackNext(Log(0), Push(1));
    assert [1] + [] == [1];
    StackNext(Log(1), Push(0));
    assert [0] + [1] == [0, 1] && [0, 1][1..] == [1] && [1][1..] == [];
    StackNext(Log(2), Pop(0));
    StackNext(Log(3), Pop(1));
    StackNext(Log(4), Push(0));
    assert [0] + [] == [0] && [0][1..] == [];
    hide Stack;
    StackNext(Log(5), Pop(0));
    StackNext(Log(6), Pop(1));
  }

  lemma PoppedNext(log: seq<Op>, op: Op)
    ensures Popped(log + [op]) == if op.Pop? then Popped(log) + multiset{op.n} else Popped(log)
  {
  }

  lemma PoppedTwice()
    ensures Popped(Log(7))[1] == 2
  {
    LogNext();
    hide Log;
    PoppedNext(Log(2), Pop(0));
    PoppedNext(Log(3), Pop(1));
    PoppedNext(Log(4), Push(0));
    PoppedNext(Log(5), Pop(0));
    PoppedNext(Log(6), Pop(1));
    PoppedNext(Log(0), Push(1));
    PoppedNext(Log(1), Push(0));
  }

  lemma BothIn(start: World, next: seq<Option<nat>>)
    requires Roomy(start, next)
    ensures Run(start, Enqueue(1) + Enqueue(0)) == Some(At(start, Some(0), Ends(next, Some(1)), Ready, Log(2)))
  {
    LogStack();
    LogNext();
    hide Log, Stack;
    var s := At(start, None, next, Ready, Log(0));
    assert start.deq[0 := Ready] == start.deq;
    assert start == s;
    assert Run(start, []) == Some(s);
    hide Run, Start;
    EnqueueAlone(start, [], s, 1, []);
    Grouped([], EnqLoad(0, 1), EnqStore(0), EnqCas(0));
    assert [] + Enqueue(1) == Enqueue(1);
    var t := At(start, Some(1), next[1 := None], Ready, Log(1));
    EnqueueAlone(start, Enqueue(1), t, 0, [1]);
    Grouped(Enqueue(1), EnqLoad(0, 0), EnqStore(0), EnqCas(0));
  }

  lemma UpToTheStop(start: World, next: seq<Option<nat>>)
    requires Roomy(start, next)
    ensures Run(start, Enqueue(1) + Enqueue(0) + [DeqLoad(0)] + [DeqNext(0)])
         == Some(At(start, Some(0), Ends(next, Some(1)), Read(0, Some(1)), Log(2)))
  {
    BothIn(start, next);
    hide Log, Stack, Run, Start, Enqueue;
    var u := At(start, Some(0), Ends(next, Some(1)), Ready, Log(2));
    var evs := Enqueue(1) + Enqueue(0);
    RunOneMore(start, evs, DeqLoad(0), u);
    RunOneMore(start, evs + [DeqLoad(0)], DeqNext(0), Step(u, DeqLoad(0)));
    assert Step(Step(u, DeqLoad(0)), DeqNext(0)).deq == start.deq[0 := Read(0, Some(1))];
  }

  lemma AfterTheStop(start: World, next: seq<Option<nat>>, x: seq<Event>)
    requires Roomy(start, next)
    requires Run(start, x) == Some(At(start, Some(0), Ends(next, Some(1)), Read(0, Some(1)), Log(2)))
    ensures Run(start, x + Dequeue(1) + Dequeue(1))
         == Some(At(start, None, Ends(next, Some(1)), Read(0, Some(1)), Log(4)))
  {
    LogNext();
    hide Log, Stack, Run;
    var n, d := Ends(next, Some(1)), Read(0, Some(1));
    DequeueAlone(start, x, At(start, Some(0), n, d, Log(2)), 1);
    Grouped(x, DeqLoad(1), DeqNext(1), DeqCas(1));
    DequeueAlone(start, x + Dequeue(1), At(start, Some(1), n, d, Log(3)), 1);
    Grouped(x + Dequeue(1), DeqLoad(1), DeqNext(1), DeqCas(1));
  }

  lemma GoingOn(start: World, next: seq<Option<nat>>, x: seq<Event>)
    requires Roomy(start, next)
    requires Run(start, x) == Some(At(start, None, Ends(next, Some(1)), Read(0, Some(1)), Log(4)))
    ensures Run(start, x + Enqueue(0) + [DeqCas(0)] + Dequeue(1)) == Some(At(start, None, Ends(next, None), Ready, Log(7)))
  {
    LogStack();
    LogNext();
    hide Log, Stack, Run;
    var d := Read(0, Some(1));
    var s := At(start, None, Ends(next, Some(1)), d, Log(4));
    EnqueueAlone(start, x, s, 0, []);
    Grouped(x, EnqLoad(0, 0), EnqStore(0), EnqCas(0));
    var t := At(start, Some(0), Ends(next, None), d, Log(5));
    assert s.next[0 := s.head] == t.next;
    RunOneMore(start, x + Enqueue(0), DeqCas(0), t);
    assert Step(t, DeqCas(0)).deq == start.deq[0 := Ready];
    DequeueAlone(start, x + Enqueue(0) + [DeqCas(0)], At(start, Some(1), Ends(next, None), Ready, Log(6)), 1);
    Grouped(x + Enqueue(0) + [DeqCas(0)], DeqLoad(1), DeqNext(1), DeqCas(1));
  }

  /** The part of that run in front of the second enqueue of node 0. */
  function UpToReuse(): seq<Event> {
    Enqueue(1) + Enqueue(0) + [DeqLoad(0)] + [DeqNext(0)] + Dequeue(1) + Dequeue(1)
  }

  /** From every start with two nodes, an enqueuer and two dequeuers node 1 can be given out
      twice after being enqueued once. Node 0 is enqueued while dequeuer 0 holds it. */
  lemma TwoDequeuersFail(next: seq<Option<nat>>, enqueuers: nat, dequeuers: nat)
    requires |next| >= 2 && enqueuers >= 1 && dequeuers >= 2
    ensures var r := Run(Start(next, enqueuers, dequeuers), TwoDequeuers());
      r.Some? && Stack(r.value.log) == None && Popped(r.value.log)[1] == 2
    ensures UpToReuse() + [EnqLoad(0, 0)] <= TwoDequeuers()
    ensures var s := Run(Start(next, enqueuers, dequeuers), UpToReuse());
      s.Some? && Enabled(s.value, EnqLoad(0, 0)) && !Careful(s.value, EnqLoad(0, 0))
  {
    var start := Start(next, enqueuers, dequeuers);
    LogStack();
    PoppedTwice();
    assert TwoDequeuers() == UpToReuse() + Enqueue(0) + [DeqCas(0)] + Dequeue(1);
    assert Enqueue(0)[0] == EnqLoad(0, 0);
    UpToTheStop(start, next);
    var x := Enqueue(1) + Enqueue(0) + [DeqLoad(0)] + [DeqNext(0)];
    hide Log, Stack, Popped, Run, Start, Enqueue, Dequeue;
    AfterTheStop(start, next, x);
    GoingOn(start, next, x + Dequeue(1) + Dequeue(1));
    var s := At(start, None, Ends(next, Some(1)), Read(0, Some(1)), Log(4));
    assert s.deq[0].Read? && s.deq[0].h == 0;
    assert Held(s, 0);
  }

  ghost predicate AlwaysLinear(start: World) {
    forall evs: seq<Event> | Run(start, evs).Some? :: Linear(Run(start, evs).value)
  }

  /** The list is linearizable in all runs of a set of callers exactly when there is at most
      one dequeuer, unless nobody enqueues or there is only one node. */
  lemma LinearizableIff(next: seq<Option<nat>>, enqueuers: nat, dequeuers: nat)
    ensures AlwaysLinear(Start(next, enqueuers, dequeuers)) <==> dequeuers <= 1 || enqueuers == 0 || |next| <= 1
  {
    var start := Start(next, enqueuers, dequeuers);
    if dequeuers <= 1 || enqueuers == 0 || |next| <= 1 {
      forall evs: seq<Event> | Run(start, evs).Some? ensures Linear(Run(start, evs).value) {
        if dequeuers <= 1 { OneDequeuer(next, enqueuers, dequeuers, evs); }
        else if enqueuers == 0 {
          NoEnqueuer(start, evs);
          Linearizable(next, enqueuers, dequeuers, evs);
        } else { OneNode(next, enqueuers, dequeuers, evs); }
      }
    } else {
      TwoDequeuersFail(next, enqueuers, dequeuers);
    }
    hide Linear;
  }
}
