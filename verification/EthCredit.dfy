/** The credit notification of applications/backends/eth_backend.c: the core's ready callback
    stores a flag and releases the semaphore, the worker takes the semaphore and consumes the
    flag; interrupts and other threads release the same semaphore. */
module EthCredit {
  import opened Options
  import opened Semaphore

  /** A callback before its store or after its release, or between the two. */
  datatype Callback = Outside | Stored

  /** eth_worker_thread: in front of rt_sem_take; suspended in it; past it but in front of the
      flag (the completion scan runs here); past the flag, with its local retry_rx. */
  datatype Worker = Top | Asleep | Awake | Decided(retry: bool)

  datatype World = World(flag: bool, sem: State, worker: Worker, callbacks: seq<Callback>)

  // The worker as a waiting thread.
  const WORKER: Waiter := Waiter(0, 0)

  datatype Event = DoStore(c: nat)     // s_rx_credit_ready = 1
                 | DoSignal(c: nat)    // the callback's rt_sem_release
                 | DoOther             // any other rt_sem_release
                 | DoTake              // rt_sem_take by the worker
                 | DoConsume           // retry_rx = s_rx_credit_ready; s_rx_credit_ready = 0
                 | DoLoop              // drain or not, and back to the top

  predicate Enabled(w: World, ev: Event) {
    match ev
    case DoStore(c) => c < |w.callbacks| && w.callbacks[c] == Outside
    case DoSignal(c) => c < |w.callbacks| && w.callbacks[c] == Stored
    case DoOther => true
    case DoTake => w.worker.Top?
    case DoConsume => w.worker.Awake?
    case DoLoop => w.worker.Decided?
  }

  /** The worker waits without a timeout, so it can always be made ready. */
  function Signal(w: World): World {
    var (sem, resumed, _) := Released(w.sem, true);
    w.(sem := sem, worker := if resumed.Some? then Awake else w.worker)
  }

  function Step(w: World, ev: Event): World
    requires Enabled(w, ev)
  {
    match ev
    case DoStore(c) => w.(flag := true, callbacks := w.callbacks[c := Stored])
    case DoSignal(c) => Signal(w).(callbacks := w.callbacks[c := Outside])
    case DoOther => Signal(w)
    case DoTake =>
      var (sem, e) := Taken(w.sem, WORKER, true, -1, true);
      w.(sem := sem, worker := if e == OK then Awake else Asleep)
    case DoConsume => w.(worker := Decided(w.flag), flag := false)
    case DoLoop => w.(worker := Top)
  }

  ghost predicate Signalling(w: World) {
    exists c :: 0 <= c < |w.callbacks| && w.callbacks[c] == Stored
  }

  /** A stored credit is in the semaphore's count, in a callback about to release, or with a
      worker that is about to consume it. */
  ghost predicate Credited(w: World) {
    w.flag ==> w.sem.value > 0 || Signalling(w) || w.worker == Awake
  }

  ghost predicate Inv(w: World) {
    && Credited(w) && Semaphore.Inv(w.sem) && w.sem.max > 0
    && (w.worker == Asleep <==> w.sem.waiters != []) && |w.sem.waiters| <= 1
  }

  /** A release leaves a count or an awake worker behind, also when the count is saturated. */
  lemma SignalEffect(w: World)
    requires Inv(w)
    ensures var r := Signal(w);
      && (r.sem.value > 0 || r.worker == Awake)
      && r.sem.value >= w.sem.value && (w.worker == Awake ==> r.worker == Awake)
      && Semaphore.Inv(r.sem) && r.sem.max == w.sem.max
      && (r.worker == Asleep <==> r.sem.waiters != []) && |r.sem.waiters| <= 1
  {
  }

  lemma StepKeeps(w: World, ev: Event)
    requires Inv(w) && Enabled(w, ev)
    ensures Inv(Step(w, ev))
  {
    var r := Step(w, ev);
    match ev
    case DoStore(c) => assert r.callbacks[c] == Stored;
    case DoSignal(_) => SignalEffect(w);
    case DoOther =>
      SignalEffect(w);
      if Signalling(w) { assert r.callbacks == w.callbacks; }
    case DoTake =>
      if Signalling(w) { assert r.callbacks == w.callbacks; }
    case DoConsume =>
    case DoLoop =>
      if Signalling(w) { assert r.callbacks == w.callbacks; }
  }

  /** rt_sem_create with count 0, and n callers of the callback. */
  function Start(n: nat): World {
    World(false, State(0, VALUE_MAX, []), Top, seq(n, _ => Outside))
  }

  function Run(n: nat, evs: seq<Event>): Option<World> {
    if evs == [] then Some(Start(n))
    else
      var before := Run(n, evs[..|evs| - 1]);
      var ev := evs[|evs| - 1];
      if before.None? || !Enabled(before.value, ev) then None else Some(Step(before.value, ev))
  }

  lemma {:induction false} RunKeeps(n: nat, evs: seq<Event>)
    requires Run(n, evs).Some?
    ensures Inv(Run(n, evs).value)
  {
    if evs != [] {
      RunKeeps(n, evs[..|evs| - 1]);
      StepKeeps(Run(n, evs[..|evs| - 1]).value, evs[|evs| - 1]);
    }
  }

  /** In every interleaving a credit is never lost: while one is stored, the semaphore is
      positive, a callback is about to release it, or the worker is on its way to the flag; so
      the worker never sleeps on a credit unless a callback is just about to wake it. */
  lemma CreditNeverLost(n: nat, evs: seq<Event>)
    requires Run(n, evs).Some?
    ensures var w := Run(n, evs).value;
      Credited(w) && (w.worker == Asleep && !Signalling(w) ==> !w.flag)
  {
    RunKeeps(n, evs);
  }

  /** -RT_EFULL is returned only while the count is positive, so nothing is lost by it. */
  lemma FullIsPositive(n: nat, evs: seq<Event>)
    requires Run(n, evs).Some?
    ensures var w := Run(n, evs).value;
      Released(w.sem, true).2 == EFULL ==> w.sem.value == w.sem.max > 0 && w.worker != Asleep
  {
    RunKeeps(n, evs);
  }

  /** How many steps of its own the worker needs from here until it has consumed the flag. */
  function StepsToFlag(w: World): nat {
    match w.worker
    case Awake => 1
    case Top => 2
    case Decided(_) => 3
    case Asleep => 2
  }

  /** With a credit stored and no callback in between, the worker is not asleep and each step
      of its own brings it closer to the flag, where it retries the drain. */
  lemma CreditIsTaken(w: World, ev: Event)
    requires Inv(w) && w.flag && !Signalling(w) && Enabled(w, ev) && (ev.DoTake? || ev.DoConsume? || ev.DoLoop?)
    ensures w.worker != Asleep
    ensures var r := Step(w, ev);
      if ev.DoConsume? then r.worker == Decided(true) else r.flag && StepsToFlag(r) < StepsToFlag(w)
  {
  }
}
