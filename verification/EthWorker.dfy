/** eth_worker_thread of applications/backends/eth_backend.c around its drain: the receive
    ring of EthRx and the credit flag of EthCredit under one worker. A frame retained for lack
    of credit is offered to the core again after the credit has come. */
module EthWorker {
  import opened Options
  import Credit = EthCredit
  import Rx = EthRx

  /** While the ring's worker drains, the one of the credit is on its way back to the top. */
  datatype World = World(rx: Rx.State, credit: Credit.World)

  datatype Event = DoRing(rx: Rx.Event)             // reception, a round of the drain, link, transport
                 | DoCredit(credit: Credit.Event)   // a callback, a release, the worker up to the flag
                 | DoDrain(coreReady: bool)         // the worker calls eth_rx_drain
                 | DoSkip                           // the worker does not

  /** The condition in front of eth_rx_drain. */
  predicate Drains(rx: Rx.State, retry: bool) {
    !rx.backpressured || retry || rx.dead || !rx.linkUp
  }

  predicate Enabled(w: World, ev: Event) {
    match ev
    case DoRing(e) => !e.DoBegin? && Rx.Enabled(w.rx, e)
    case DoCredit(e) => !e.DoLoop? && Credit.Enabled(w.credit, e) && (e.DoTake? ==> w.rx.worker.Waiting?)
    case DoDrain(_) =>
      Rx.Bounds(w.rx) && w.rx.worker.Waiting? && w.credit.worker.Decided? && Drains(w.rx, w.credit.worker.retry)
    case DoSkip => w.credit.worker.Decided? && !Drains(w.rx, w.credit.worker.retry)
  }

  function Step(w: World, ev: Event): World
    requires Enabled(w, ev)
  {
    match ev
    case DoRing(e) => w.(rx := Rx.Step(w.rx, e))
    case DoCredit(e) => w.(credit := Credit.Step(w.credit, e))
    case DoDrain(ready) =>
      World(Rx.Step(w.rx, Rx.DoBegin(w.credit.worker.retry, ready)), Credit.Step(w.credit, Credit.DoLoop))
    case DoSkip => w.(credit := Credit.Step(w.credit, Credit.DoLoop))
  }

  /** The worker does one thing at a time. */
  predicate OneWorker(w: World) {
    w.rx.worker.Draining? ==> w.credit.worker.Top?
  }

  /** The frame for which credit was missing is the next to be looked at. */
  predicate FrameHeld(rx: Rx.State) {
    rx.backpressured && rx.worker.Waiting? ==>
      Rx.Bounds(rx) && !rx.descs[rx.cur].own && rx.descs[rx.cur].frame.whole && Rx.Fits(rx.descs[rx.cur].frame)
  }

  ghost predicate Inv(w: World, p: nat) {
    Rx.Inv(w.rx, p) && Credit.Inv(w.credit) && OneWorker(w) && FrameHeld(w.rx)
  }

  lemma FrameStaysHeld(rx: Rx.State, ev: Rx.Event)
    requires Rx.Enabled(rx, ev) && FrameHeld(rx)
    ensures FrameHeld(Rx.Step(rx, ev))
  {
    hide Rx.Fits, Rx.Payload;
  }

  lemma StepKeeps(w: World, p: nat, ev: Event) returns (q: nat)
    requires Inv(w, p) && Enabled(w, ev)
    ensures Inv(Step(w, ev), q)
  {
    q := p;
    match ev
    case DoRing(e) =>
      q := Rx.StepKeeps(w.rx, p, e);
      FrameStaysHeld(w.rx, e);
    case DoCredit(e) => Credit.StepKeeps(w.credit, e);
    case DoDrain(ready) =>
      q := Rx.StepKeeps(w.rx, p, Rx.DoBegin(w.credit.worker.retry, ready));
      Credit.StepKeeps(w.credit, Credit.DoLoop);
    case DoSkip => Credit.StepKeeps(w.credit, Credit.DoLoop);
    hide Rx.Inv, Credit.Inv, FrameHeld;
  }

  // -- Runs -------------------------------------------------------------------------------

  function Start(n: nat, linkUp: bool, fullDuplex: bool, callers: nat): World {
    World(Rx.Start(n, linkUp, fullDuplex), Credit.Start(callers))
  }

  function Run(w: World, evs: seq<Event>): Option<World> {
    if evs == [] then Some(w)
    else
      match Run(w, evs[..|evs| - 1])
      case None => None
      case Some(r) => if Enabled(r, evs[|evs| - 1]) then Some(Step(r, evs[|evs| - 1])) else None
  }

  lemma {:induction false} RunKeeps(n: nat, linkUp: bool, fullDuplex: bool, callers: nat, evs: seq<Event>)
    returns (p: nat)
    requires n > 0 && Run(Start(n, linkUp, fullDuplex, callers), evs).Some?
    ensures Inv(Run(Start(n, linkUp, fullDuplex, callers), evs).value, p)
  {
    if evs == [] {
      p := 0;
      Rx.StartInv(n, linkUp, fullDuplex);
    } else {
      p := RunKeeps(n, linkUp, fullDuplex, callers, evs[..|evs| - 1]);
      p := StepKeeps(Run(Start(n, linkUp, fullDuplex, callers), evs[..|evs| - 1]).value, p, evs[|evs| - 1]);
    }
    hide Rx.Inv, Step, Enabled;
  }

  // -- Each half alone --------------------------------------------------------------------

  lemma {:induction false} RxRunOneMore(s: Rx.State, evs: seq<Rx.Event>, ev: Rx.Event, before: Rx.State)
    requires Rx.Run(s, evs) == Some(before) && Rx.Enabled(before, ev)
    ensures Rx.Run(s, evs + [ev]) == Some(Rx.Step(before, ev))
    decreases |evs|
  {
    if evs == [] {
      assert [ev][1..] == [];
    } else {
      RxRunOneMore(Rx.Step(s, evs[0]), evs[1..], ev, before);
      assert (evs + [ev])[1..] == evs[1..] + [ev];
    }
    hide Rx.Step, Rx.Enabled;
  }

  lemma CreditRunOneMore(callers: nat, evs: seq<Credit.Event>, ev: Credit.Event, before: Credit.World)
    requires Credit.Run(callers, evs) == Some(before) && Credit.Enabled(before, ev)
    ensures Credit.Run(callers, evs + [ev]) == Some(Credit.Step(before, ev))
  {
    assert (evs + [ev])[..|evs|] == evs;
    hide Credit.Step, Credit.Enabled;
  }

  /** As Rx.Steady, for the events of the ring alone. */
  predicate Steady(ev: Event) {
    match ev
    case DoRing(e) => Rx.Steady(e)
    case DoDrain(coreReady) => coreReady
    case DoCredit(_) => true
    case DoSkip => true
  }

  /** What the ring does in a step of both. */
  function RxEvents(w: World, ev: Event): seq<Rx.Event> {
    match ev
    case DoRing(e) => [e]
    case DoDrain(ready) => if w.credit.worker.Decided? then [Rx.DoBegin(w.credit.worker.retry, ready)] else []
    case DoCredit(_) => []
    case DoSkip => []
  }

  function CreditEvents(ev: Event): seq<Credit.Event> {
    match ev
    case DoRing(_) => []
    case DoCredit(e) => [e]
    case DoDrain(_) => [Credit.DoLoop]
    case DoSkip => [Credit.DoLoop]
  }

  /** The ring and the credit each make a run of their own: whatever holds of all runs of
      EthRx and of EthCredit holds of both together. */
  lemma {:induction false} Halves(n: nat, linkUp: bool, fullDuplex: bool, callers: nat, evs: seq<Event>)
    returns (rs: seq<Rx.Event>, cs: seq<Credit.Event>)
    requires Run(Start(n, linkUp, fullDuplex, callers), evs).Some?
    ensures var w := Run(Start(n, linkUp, fullDuplex, callers), evs).value;
      Rx.Run(Rx.Start(n, linkUp, fullDuplex), rs) == Some(w.rx) && Credit.Run(callers, cs) == Some(w.credit)
    ensures (forall ev | ev in evs :: Steady(ev)) ==> forall r | r in rs :: Rx.Steady(r)
  {
    rs, cs := [], [];
    if evs != [] {
      rs, cs := Halves(n, linkUp, fullDuplex, callers, evs[..|evs| - 1]);
      var w, ev := Run(Start(n, linkUp, fullDuplex, callers), evs[..|evs| - 1]).value, evs[|evs| - 1];
      if RxEvents(w, ev) != [] { RxRunOneMore(Rx.Start(n, linkUp, fullDuplex), rs, RxEvents(w, ev)[0], w.rx); }
      if CreditEvents(ev) != [] { CreditRunOneMore(callers, cs, CreditEvents(ev)[0], w.credit); }
      assert forall r | r in RxEvents(w, ev) :: Steady(ev) ==> Rx.Steady(r);
      assert rs + [] == rs && cs + [] == cs;
      rs, cs := rs + RxEvents(w, ev), cs + CreditEvents(ev);
    }
    hide Rx.Run, Credit.Run, Rx.Step, Credit.Step, Credit.Enabled;
  }

  /** Lossless in-order delivery holds with the worker's own condition for draining. */
  lemma LosslessDelivery(n: nat, fullDuplex: bool, callers: nat, evs: seq<Event>)
    requires n > 0 && Run(Start(n, true, fullDuplex, callers), evs).Some? && forall ev | ev in evs :: Steady(ev)
    ensures var s := Run(Start(n, true, fullDuplex, callers), evs).value.rx;
      Rx.Retained(s) && forall j | 0 <= j < |s.sent| :: s.sent[j] == Rx.Payload(s.received[j])
  {
    var rs, cs := Halves(n, true, fullDuplex, callers, evs);
    Rx.LosslessDelivery(n, fullDuplex, rs);
    hide Run, Rx.Run, Rx.Retained;
  }

  // -- The retry --------------------------------------------------------------------------

  /** A frame is retained, and credit has come that the drain has not used yet. */
  predicate Owed(w: World) {
    w.rx.backpressured && w.rx.worker.Waiting? && (w.credit.flag || w.credit.worker == Credit.Decided(true))
  }

  /** How many steps of the worker, or wake-ups of it, remain until the drain. */
  function Distance(w: World): nat {
    match w.credit.worker
    case Decided(retry) => if retry then 1 else 5
    case Awake => 2
    case Asleep => 3
    case Top => if w.credit.sem.value > 0 then 3 else 4
  }

  /** A step of the worker, or the release that wakes it. */
  predicate Advances(w: World, ev: Event) {
    match ev
    case DoRing(_) => false
    case DoDrain(_) => true
    case DoSkip => true
    case DoCredit(e) => e.DoTake? || e.DoConsume? || (w.credit.worker.Asleep? && (e.DoSignal? || e.DoOther?))
  }

  /** The drain begins at the oldest frame not yet given back, and offers it to the core if
      the session is READY and the link up. */
  ghost predicate Retries(w: World, ev: Event)
    requires Enabled(w, ev)
  {
    var r := Step(w, ev).rx;
    && ev.DoDrain? && Rx.Bounds(r) && r.worker.Draining? && !r.descs[r.cur].own
    && |r.outcomes| < |r.received| && r.descs[r.cur].frame == r.received[|r.outcomes|]
    && (ev.coreReady && !r.dead && r.linkUp ==> Rx.Offered(r))
  }

  lemma DrainRetries(w: World, p: nat, ev: Event)
    requires Inv(w, p) && Owed(w) && Enabled(w, ev) && ev.DoDrain?
    ensures Retries(w, ev)
  {
    var b := Rx.DoBegin(w.credit.worker.retry, ev.coreReady);
    var q := Rx.StepKeeps(w.rx, p, b);
    Rx.LookRing(Rx.Step(w.rx, b), q, Rx.NO_CREDIT);
    hide Rx.Ring, Rx.Books, Rx.Fits;
  }

  /** While a frame is retained the ready callback's store makes the retry due. */
  lemma CallbackOwes(w: World, c: nat)
    requires Enabled(w, DoCredit(Credit.DoStore(c))) && w.rx.backpressured && w.rx.worker.Waiting?
    ensures Owed(Step(w, DoCredit(Credit.DoStore(c))))
  {
  }

  /** On a live link a retained frame is not drained again before credit has come: of the two
      things the worker can do with its flag read, it drains just if the flag was set. */
  lemma DrainsIff(w: World, ready: bool)
    requires Rx.Bounds(w.rx) && w.rx.worker.Waiting? && w.credit.worker.Decided?
    ensures Enabled(w, DoSkip) <==> !Enabled(w, DoDrain(ready))
    ensures w.rx.backpressured && !w.rx.dead && w.rx.linkUp ==>
      (Enabled(w, DoDrain(ready)) <==> w.credit.worker == Credit.Decided(true))
    ensures !w.rx.backpressured || w.rx.dead || !w.rx.linkUp ==> Enabled(w, DoDrain(ready))
  {
  }

  /** No step takes the retry further away, and every step of the worker brings it closer. */
  lemma RetryStep(w: World, p: nat, ev: Event)
    requires Inv(w, p) && Owed(w) && Enabled(w, ev)
    ensures Retries(w, ev) ||
      (Owed(Step(w, ev)) && Distance(Step(w, ev)) <= Distance(w)
       && (Advances(w, ev) ==> Distance(Step(w, ev)) < Distance(w)))
  {
    if ev.DoDrain? { DrainRetries(w, p, ev); }
    hide Rx.Inv, Retries, FrameHeld, Rx.Fits, Rx.Payload;
  }

  /** There always is such a step: the worker is not asleep, or a callback is about to wake it. */
  lemma RetryPossible(w: World, p: nat) returns (ev: Event)
    requires Inv(w, p) && Owed(w)
    ensures Enabled(w, ev) && Advances(w, ev)
  {
    match w.credit.worker
    case Top => ev := DoCredit(Credit.DoTake);
    case Awake => ev := DoCredit(Credit.DoConsume);
    case Decided(retry) => ev := if Drains(w.rx, retry) then DoDrain(true) else DoSkip;
    case Asleep =>
      assert Credit.Signalling(w.credit);
      var c :| 0 <= c < |w.credit.callbacks| && w.credit.callbacks[c] == Credit.Stored;
      ev := DoCredit(Credit.DoSignal(c));
    hide Rx.Ring, Rx.Books;
  }

  /** A NO_CREDIT frame is retried: in every run, while a frame is retained and credit has
      come, the worker or a release that wakes it can go on, each such step brings the next
      drain closer, no other step takes it further away, and that drain starts at this frame. */
  lemma RetainedIsRetried(n: nat, linkUp: bool, fullDuplex: bool, callers: nat, evs: seq<Event>)
    requires n > 0 && Run(Start(n, linkUp, fullDuplex, callers), evs).Some?
    requires Owed(Run(Start(n, linkUp, fullDuplex, callers), evs).value)
    ensures var w := Run(Start(n, linkUp, fullDuplex, callers), evs).value;
      && (exists ev :: Enabled(w, ev) && Advances(w, ev))
      && forall ev | Enabled(w, ev) ::
           Retries(w, ev) ||
           (Owed(Step(w, ev)) && Distance(Step(w, ev)) <= Distance(w)
            && (Advances(w, ev) ==> Distance(Step(w, ev)) < Distance(w)))
  {
    var p := RunKeeps(n, linkUp, fullDuplex, callers, evs);
    var w := Run(Start(n, linkUp, fullDuplex, callers), evs).value;
    var ev := RetryPossible(w, p);
    forall ev | Enabled(w, ev)
      ensures Retries(w, ev) ||
        (Owed(Step(w, ev)) && Distance(Step(w, ev)) <= Distance(w)
         && (Advances(w, ev) ==> Distance(Step(w, ev)) < Distance(w)))
    {
      RetryStep(w, p, ev);
    }
    hide *;
  }
}
