/** The receive side of applications/backends/eth_backend.c: the DMA fills descriptors in
    ring order, the worker hands their frames to the core and keeps a frame for which the
    core has no credit. Each received frame and each round of the drain loop is one step. */
module EthRx {
  import opened Octets
  import opened Options
  import opened Rings

  // WLH_ETH_MIN_FRAME and WLH_ETH_MAX_FRAME
  const MIN_FRAME: nat := 14
  const MAX_FRAME: nat := 1518

  /** What the DMA writes back: the bytes with their CRC, and whether ES is clear and FS and
      LS are set. */
  datatype Frame = Frame(data: Bytes, whole: bool)

  datatype Desc = Desc(own: bool, frame: Frame)

  /** The answer of wlh_coproc_ethernet_eth_send. */
  datatype Result = OK | NO_CREDIT | REFUSED

  /** What became of a frame the worker has given back to the DMA. */
  datatype Outcome = Delivered | Dropped | Erroneous

  /** The worker outside the drain loop, or in it with its local `ready`. */
  datatype Worker = Waiting | Draining(ready: bool)

  /** `cur` is s_rx_cur, `dma` the descriptor the DMA fills next. The last three fields record
      the frames received, what became of those given back, and what the core was sent. */
  datatype State = State(descs: seq<Desc>, cur: nat, dma: nat, stalled: bool, dead: bool, linkUp: bool,
    fullDuplex: bool, backpressured: bool, pauseActive: bool, worker: Worker,
    received: seq<Frame>, outcomes: seq<Outcome>, sent: seq<Bytes>)

  datatype Event = DoReceive(frame: Frame)
                 | DoStall
                 | DoBegin(retry: bool, coreReady: bool)
                 | DoLook(result: Result)
                 | DoFinish(idle: bool)
                 | DoDead(dead: bool)
                 | DoLink(up: bool, fullDuplex: bool)

  /** The frame without its CRC. */
  function Payload(f: Frame): Bytes {
    if |f.data| >= 4 then f.data[..|f.data| - 4] else f.data
  }

  predicate Fits(f: Frame) {
    MIN_FRAME <= |Payload(f)| <= MAX_FRAME
  }

  /** With its four bytes of CRC a frame that may be forwarded has 18 to 1522 bytes. */
  lemma FitsIff(f: Frame)
    ensures Fits(f) <==> 18 <= |f.data| <= 1522
    ensures Fits(f) ==> Payload(f) <= f.data && |Payload(f)| + 4 == |f.data|
  {
  }

  predicate Bounds(s: State) {
    s.cur < |s.descs| && s.dma < |s.descs|
  }

  predicate Enabled(s: State, ev: Event) {
    Bounds(s) &&
    match ev
    case DoReceive(_) => s.descs[s.dma].own && !s.stalled
    case DoStall => !s.descs[s.dma].own
    case DoBegin(retry, _) => s.worker.Waiting? && (!s.backpressured || retry || s.dead || !s.linkUp)
    case DoLook(_) => s.worker.Draining? && !s.descs[s.cur].own
    case DoFinish(_) => s.worker.Draining? && s.descs[s.cur].own
    case DoDead(_) => true
    case DoLink(_, _) => true
  }

  /** The DMA writes a frame into its descriptor and gives it to the CPU. */
  function Receive(s: State, f: Frame): (r: State)
    requires Bounds(s)
    ensures Bounds(r)
  {
    s.(descs := s.descs[s.dma := Desc(false, f)], dma := (s.dma + 1) % |s.descs|, received := s.received + [f])
  }

  /** The descriptor goes back to the DMA. */
  function Rearm(s: State, outcome: Outcome): (r: State)
    requires Bounds(s)
    ensures Bounds(r)
  {
    s.(descs := s.descs[s.cur := s.descs[s.cur].(own := true)], cur := (s.cur + 1) % |s.descs|,
       outcomes := s.outcomes + [outcome])
  }

  /** The frame is offered to the core. */
  predicate Offered(s: State)
    requires Bounds(s) && s.worker.Draining?
  {
    var f := s.descs[s.cur].frame;
    f.whole && s.worker.ready && Fits(f)
  }

  /** What a round of the loop decides about its frame; None keeps it. */
  function Verdict(s: State, result: Result): Option<Outcome>
    requires Bounds(s) && s.worker.Draining?
  {
    if !s.descs[s.cur].frame.whole then Some(Erroneous)
    else if !Offered(s) then Some(Dropped)
    else match result
      case OK => Some(Delivered)
      case NO_CREDIT => None
      case REFUSED => Some(Dropped)
  }

  /** The frame is given back, after the core has taken a copy if it is delivered. */
  function GiveBack(s: State, outcome: Outcome): (r: State)
    requires Bounds(s)
    ensures Bounds(r)
  {
    Rearm(s, outcome).(sent := if outcome == Delivered then s.sent + [Payload(s.descs[s.cur].frame)] else s.sent)
  }

  /** Without credit the descriptor stays with the CPU and the peer is paused. */
  function Retain(s: State): State {
    s.(backpressured := true, pauseActive := s.pauseActive || (s.linkUp && s.fullDuplex), worker := Waiting)
  }

  /** A round of the loop of eth_rx_drain that finds a CPU-owned descriptor. */
  function Look(s: State, result: Result): (r: State)
    requires Bounds(s) && s.worker.Draining?
    ensures Bounds(r)
  {
    match Verdict(s, result)
    case None => Retain(s)
    case Some(outcome) => GiveBack(s, outcome)
  }

  /** The end of eth_rx_drain when it is not blocked; `idle` tells whether the MAC could send
      the control frame that resumes the peer. */
  function Finish(s: State, idle: bool): State {
    s.(stalled := false, backpressured := false, worker := Waiting,
       pauseActive := s.pauseActive && !(s.linkUp && s.fullDuplex && idle))
  }

  function Step(s: State, ev: Event): State
    requires Enabled(s, ev)
  {
    match ev
    case DoReceive(f) => Receive(s, f)
    case DoStall => s.(stalled := true)
    case DoBegin(_, coreReady) => s.(worker := Draining(!s.dead && coreReady && s.linkUp))
    case DoLook(result) => Look(s, result)
    case DoFinish(idle) => Finish(s, idle)
    case DoDead(dead) => s.(dead := dead)
    case DoLink(up, fullDuplex) =>
      s.(linkUp := up, fullDuplex := fullDuplex, pauseActive := s.pauseActive && up && fullDuplex)
  }

  // -- The ring ---------------------------------------------------------------------------

  /** Slot i is the d-th from the worker's position. */
  function Ahead(s: State, i: nat): nat
    requires s.cur < |s.descs| && i < |s.descs|
  {
    if i >= s.cur then i - s.cur else i + |s.descs| - s.cur
  }

  /** The CPU owns exactly the p descriptors from s_rx_cur up to the DMA's position, and they
      hold the p frames received last, in order. */
  ghost predicate Ring(s: State, p: nat) {
    && Bounds(s) && p <= |s.descs| && |s.received| == |s.outcomes| + p && s.dma == Wrap(s.cur + p, |s.descs|)
    && (forall i | 0 <= i < |s.descs| :: s.descs[i].own <==> Ahead(s, i) >= p)
    && (forall i | 0 <= i < |s.descs| && Ahead(s, i) < p :: s.descs[i].frame == s.received[|s.outcomes| + Ahead(s, i)])
  }

  /** The payloads of the delivered frames, in order. */
  function DeliveredOf(frames: seq<Frame>, outcomes: seq<Outcome>): seq<Bytes>
    requires |outcomes| <= |frames|
  {
    if outcomes == [] then []
    else
      var n := |outcomes| - 1;
      DeliveredOf(frames, outcomes[..n]) + if outcomes[n] == Delivered then [Payload(frames[n])] else []
  }

  ghost predicate OutcomeOk(s: State, j: nat)
    requires j < |s.outcomes| <= |s.received|
  {
    var f := s.received[j];
    (s.outcomes[j] == Erroneous <==> !f.whole) && (s.outcomes[j] == Delivered ==> Fits(f))
  }

  /** Each frame given back has one outcome, and the core was sent the delivered ones. */
  ghost predicate Books(s: State) {
    && |s.outcomes| <= |s.received|
    && s.sent == DeliveredOf(s.received, s.outcomes)
    && (forall j | 0 <= j < |s.outcomes| :: OutcomeOk(s, j))
  }

  /** Outside the loop, backpressure means that a frame is retained, and a DMA that has
      stalled that frames wait to be drained; the peer is only paused on a full-duplex link. */
  ghost predicate Held(s: State, p: nat) {
    && (s.worker.Waiting? && (s.backpressured || s.stalled) ==> p > 0)
    && (s.pauseActive ==> s.linkUp && s.fullDuplex)
  }

  ghost predicate Inv(s: State, p: nat) {
    Ring(s, p) && Books(s) && Held(s, p)
  }

  lemma ReceiveRing(s: State, p: nat, f: Frame)
    requires Ring(s, p) && s.descs[s.dma].own
    ensures p < |s.descs| && Ring(Receive(s, f), p + 1)
  {
    WrapIsMod(s.dma + 1, |s.descs|);
    var r := Receive(s, f);
    assert Ahead(s, s.dma) == if p < |s.descs| then p else 0;
    assert forall i | 0 <= i < |s.descs| :: Ahead(r, i) == Ahead(s, i);
  }

  lemma {:induction false} MoreFrames(frames: seq<Frame>, f: Frame, outcomes: seq<Outcome>)
    requires |outcomes| <= |frames|
    ensures DeliveredOf(frames + [f], outcomes) == DeliveredOf(frames, outcomes)
  {
    if outcomes != [] { MoreFrames(frames, f, outcomes[..|outcomes| - 1]); }
  }

  lemma ReceiveBooks(s: State, f: Frame)
    requires Bounds(s) && Books(s)
    ensures Books(Receive(s, f))
  {
    var r := Receive(s, f);
    MoreFrames(s.received, f, s.outcomes);
    forall j | 0 <= j < |r.outcomes| ensures OutcomeOk(r, j) { assert OutcomeOk(s, j); }
    hide DeliveredOf, Fits, Payload;
  }

  lemma RearmRing(s: State, p: nat, outcome: Outcome)
    requires Ring(s, p) && !s.descs[s.cur].own
    ensures p > 0 && Ring(Rearm(s, outcome), p - 1)
  {
    WrapIsMod(s.cur + 1, |s.descs|);
    var r := Rearm(s, outcome);
    assert Ahead(s, s.cur) == 0;
    assert forall i | 0 <= i < |s.descs| && i != s.cur :: Ahead(r, i) == Ahead(s, i) - 1;
    assert Ahead(r, s.cur) == |s.descs| - 1;
  }

  /** Only descriptors, positions and records matter to the ring. */
  lemma RingFrame(s: State, r: State, p: nat)
    requires Ring(s, p) && r.descs == s.descs && r.cur == s.cur && r.dma == s.dma
    requires r.received == s.received && r.outcomes == s.outcomes
    ensures Ring(r, p)
  {
    assert forall i | 0 <= i < |s.descs| :: Ahead(r, i) == Ahead(s, i);
  }

  lemma LookRing(s: State, p: nat, result: Result)
    requires Ring(s, p) && s.worker.Draining? && !s.descs[s.cur].own
    ensures p > 0 && s.descs[s.cur].frame == s.received[|s.outcomes|]
    ensures Ring(Look(s, result), if Verdict(s, result).None? then p else p - 1)
  {
    assert p > 0 && s.descs[s.cur].frame == s.received[|s.outcomes|] by { assert Ahead(s, s.cur) == 0; }
    hide Ring, Verdict, Rearm;
    match Verdict(s, result)
    case None => RingFrame(s, Retain(s), p);
    case Some(outcome) =>
      RearmRing(s, p, outcome);
      RingFrame(Rearm(s, outcome), GiveBack(s, outcome), p - 1);
  }

  lemma GiveBackBooks(s: State, outcome: Outcome)
    requires Bounds(s) && Books(s) && |s.outcomes| < |s.received|
    requires var f := s.received[|s.outcomes|];
      f == s.descs[s.cur].frame && (outcome == Erroneous <==> !f.whole) && (outcome == Delivered ==> Fits(f))
    ensures Books(GiveBack(s, outcome))
  {
    var r, n := GiveBack(s, outcome), |s.outcomes|;
    assert r.outcomes[..n] == s.outcomes;
    assert r.sent == DeliveredOf(r.received, r.outcomes);
    hide DeliveredOf, Fits, Payload;
    forall j | 0 <= j < |r.outcomes| ensures OutcomeOk(r, j) { assert j < n ==> OutcomeOk(s, j); }
  }

  lemma LookBooks(s: State, result: Result)
    requires Bounds(s) && Books(s) && s.worker.Draining? && |s.outcomes| < |s.received|
    requires s.descs[s.cur].frame == s.received[|s.outcomes|]
    ensures Books(Look(s, result))
  {
    match Verdict(s, result)
    case None => BooksFrame(s, Retain(s));
    case Some(outcome) => GiveBackBooks(s, outcome);
    hide Books, GiveBack;
  }

  lemma BooksFrame(s: State, r: State)
    requires Books(s) && r.received == s.received && r.outcomes == s.outcomes && r.sent == s.sent
    ensures Books(r)
  {
    forall j | 0 <= j < |r.outcomes| ensures OutcomeOk(r, j) { assert OutcomeOk(s, j); }
  }

  /** In a ring without frames every descriptor is the DMA's. */
  lemma NothingPending(s: State)
    requires Ring(s, 0)
    ensures forall i | 0 <= i < |s.descs| :: s.descs[i].own
  {
  }

  lemma StallStep(s: State, p: nat)
    requires Inv(s, p) && !s.descs[s.dma].own
    ensures p > 0
  {
    if p == 0 { NothingPending(s); }
  }

  lemma StepKeeps(s: State, p: nat, ev: Event) returns (q: nat)
    requires Inv(s, p) && Enabled(s, ev)
    ensures Inv(Step(s, ev), q)
  {
    q := p;
    hide Ring, Books, Receive, Rearm, Verdict;
    match ev
    case DoReceive(f) =>
      q := p + 1;
      ReceiveStep(s, p, f);
    case DoLook(result) =>
      LookStep(s, p, result);
      q := if Verdict(s, result).None? then p else p - 1;
    case _ =>
      if ev.DoStall? { StallStep(s, p); }
      RingFrame(s, Step(s, ev), p);
      BooksFrame(s, Step(s, ev));
  }

  lemma ReceiveStep(s: State, p: nat, f: Frame)
    requires Inv(s, p) && s.descs[s.dma].own
    ensures Inv(Receive(s, f), p + 1)
  {
    ReceiveRing(s, p, f);
    ReceiveBooks(s, f);
    hide Ring, Books;
  }

  lemma LookStep(s: State, p: nat, result: Result)
    requires Inv(s, p) && s.worker.Draining? && !s.descs[s.cur].own
    ensures p > 0 && Inv(Look(s, result), if Verdict(s, result).None? then p else p - 1)
  {
    LookRing(s, p, result);
    LookBooks(s, result);
    hide Ring, Books;
  }

  // -- Runs -------------------------------------------------------------------------------

  /** n descriptors owned by the DMA. */
  function Start(n: nat, linkUp: bool, fullDuplex: bool): State {
    State(seq(n, _ => Desc(true, Frame([], false))), 0, 0, false, false, linkUp, fullDuplex,
          false, false, Waiting, [], [], [])
  }

  function Run(s: State, evs: seq<Event>): Option<State>
    decreases |evs|
  {
    if evs == [] then Some(s)
    else if !Enabled(s, evs[0]) then None
    else Run(Step(s, evs[0]), evs[1..])
  }

  lemma StartInv(n: nat, linkUp: bool, fullDuplex: bool)
    requires n > 0
    ensures Inv(Start(n, linkUp, fullDuplex), 0)
  {
  }

  lemma {:induction false} RunKeeps(s: State, p: nat, evs: seq<Event>) returns (q: nat)
    requires Inv(s, p) && Run(s, evs).Some?
    ensures Inv(Run(s, evs).value, q)
    decreases |evs|
  {
    hide Inv, Step;
    q := p;
    if evs != [] {
      q := StepKeeps(s, p, evs[0]);
      q := RunKeeps(Step(s, evs[0]), q, evs[1..]);
    }
  }

  /** After every run each received frame has been given back once, in order, with one
      outcome, or waits in the ring in order from s_rx_cur; the core was sent the payloads of
      exactly the delivered ones; and outside a drain, under backpressure or with the DMA
      stalled, a frame is waiting. */
  lemma InOrder(n: nat, linkUp: bool, fullDuplex: bool, evs: seq<Event>)
    requires n > 0 && Run(Start(n, linkUp, fullDuplex), evs).Some?
    ensures var s := Run(Start(n, linkUp, fullDuplex), evs).value;
      && |s.outcomes| <= |s.received| && Ring(s, |s.received| - |s.outcomes|) && Books(s)
      && (s.worker.Waiting? && (s.backpressured || s.stalled) ==> |s.outcomes| < |s.received|)
  {
    StartInv(n, linkUp, fullDuplex);
    var q := RunKeeps(Start(n, linkUp, fullDuplex), 0, evs);
    hide Run, Start, Books;
  }

  /** A drain that has caught up leaves reception possible: every frame received has been given
      back, the DMA is not stalled and owns its descriptor, so it can receive any frame. */
  lemma DrainReopens(n: nat, linkUp: bool, fullDuplex: bool, evs: seq<Event>, idle: bool, f: Frame)
    requires n > 0 && Run(Start(n, linkUp, fullDuplex), evs).Some?
    requires Enabled(Run(Start(n, linkUp, fullDuplex), evs).value, DoFinish(idle))
    ensures var r := Step(Run(Start(n, linkUp, fullDuplex), evs).value, DoFinish(idle));
      && Enabled(r, DoReceive(f)) && |r.outcomes| == |r.received| && !r.backpressured && r.worker.Waiting?
      && (forall i | 0 <= i < |r.descs| :: r.descs[i].own)
  {
    StartInv(n, linkUp, fullDuplex);
    var s := Run(Start(n, linkUp, fullDuplex), evs).value;
    var q := RunKeeps(Start(n, linkUp, fullDuplex), 0, evs);
    assert Ahead(s, s.cur) == 0 && q == 0;
    NothingPending(s);
    hide Run, Start, Books, Ahead;
  }

  /** What becomes of the oldest frame in a round, and whether the core and the peer hear of it. */
  lemma LookOutcome(s: State, p: nat, result: Result)
    requires Inv(s, p) && s.worker.Draining? && !s.descs[s.cur].own
    ensures |s.outcomes| < |s.received|
    ensures var (r, f) := (Look(s, result), s.received[|s.outcomes|]);
      var offered := f.whole && s.worker.ready && Fits(f);
      && (offered && result == OK <==> r.outcomes == s.outcomes + [Delivered] && r.sent == s.sent + [Payload(f)])
      && (offered && result == NO_CREDIT <==>
          r.outcomes == s.outcomes && r.sent == s.sent && r.backpressured && r.worker.Waiting?)
      && (!f.whole <==> r.outcomes == s.outcomes + [Erroneous] && r.sent == s.sent)
      && (f.whole && !(offered && (result == OK || result == NO_CREDIT)) <==>
          r.outcomes == s.outcomes + [Dropped] && r.sent == s.sent)
      && (offered && result == NO_CREDIT ==> r.pauseActive == (s.linkUp && s.fullDuplex))
      && (!(offered && result == NO_CREDIT) ==> r.worker == s.worker && r.pauseActive == s.pauseActive)
  {
    LookRing(s, p, result);
    var n := |s.outcomes|;
    assert forall o: Outcome :: (s.outcomes + [o])[n] == o;
    hide Ring, Books, Fits, Payload;
  }

  /** A drain may offer frames to the core exactly if the transport lives, the session is READY
      and the link is up when it begins. */
  lemma BeginOutcome(s: State, retry: bool, coreReady: bool)
    requires Enabled(s, DoBegin(retry, coreReady))
    ensures var r := Step(s, DoBegin(retry, coreReady));
      r.worker.Draining? && (r.worker.ready <==> !s.dead && coreReady && s.linkUp)
      && r == s.(worker := r.worker)
  {
  }

  /** Link and transport events set their flags; a peer stays paused only on a full-duplex link. */
  lemma FlagOutcome(s: State, up: bool, fullDuplex: bool, dead: bool)
    requires Bounds(s)
    ensures var r := Step(s, DoLink(up, fullDuplex));
      r == s.(linkUp := up, fullDuplex := fullDuplex, pauseActive := r.pauseActive)
      && (r.pauseActive <==> s.pauseActive && up && fullDuplex)
    ensures Step(s, DoDead(dead)) == s.(dead := dead)
  {
  }

  /** The end of a drain resumes a paused peer exactly if the MAC could send the frame. */
  lemma FinishOutcome(s: State, p: nat, idle: bool)
    requires Inv(s, p)
    ensures var r := Finish(s, idle);
      && !r.stalled && !r.backpressured && r.worker.Waiting? && (r.pauseActive <==> s.pauseActive && !idle)
      && r.descs == s.descs && r.outcomes == s.outcomes && r.sent == s.sent
  {
  }

  /** Session READY, link up, frames valid, and a core that answers OK or NO_CREDIT. */
  predicate Steady(ev: Event) {
    match ev
    case DoReceive(f) => f.whole && Fits(f)
    case DoStall => true
    case DoBegin(_, coreReady) => coreReady
    case DoLook(result) => result != REFUSED
    case DoFinish(_) => true
    case DoDead(_) => false
    case DoLink(up, _) => up
  }

  ghost predicate Lossless(s: State) {
    && s.linkUp && !s.dead && (s.worker.Draining? ==> s.worker.ready)
    && (forall j | 0 <= j < |s.received| :: s.received[j].whole && Fits(s.received[j]))
    && (forall j | 0 <= j < |s.outcomes| :: s.outcomes[j] == Delivered)
  }

  lemma SteadyStep(s: State, p: nat, ev: Event)
    requires Inv(s, p) && Lossless(s) && Enabled(s, ev) && Steady(ev)
    ensures Lossless(Step(s, ev))
  {
    hide Books, Fits, Payload;
    if ev.DoLook? { LookRing(s, p, ev.result); }
    hide Ring;
  }

  lemma {:induction false} SteadyRun(s: State, p: nat, evs: seq<Event>)
    requires Inv(s, p) && Lossless(s) && Run(s, evs).Some? && forall ev | ev in evs :: Steady(ev)
    ensures Lossless(Run(s, evs).value)
    decreases |evs|
  {
    hide Inv, Step, Lossless, Steady;
    if evs != [] {
      SteadyStep(s, p, evs[0]);
      var q := StepKeeps(s, p, evs[0]);
      SteadyRun(Step(s, evs[0]), q, evs[1..]);
    }
  }

  lemma {:induction false} AllDelivered(frames: seq<Frame>, outcomes: seq<Outcome>)
    requires |outcomes| <= |frames| && forall j | 0 <= j < |outcomes| :: outcomes[j] == Delivered
    ensures var d := DeliveredOf(frames, outcomes);
      |d| == |outcomes| && forall j | 0 <= j < |d| :: d[j] == Payload(frames[j])
  {
    if outcomes != [] { AllDelivered(frames, outcomes[..|outcomes| - 1]); }
  }

  lemma LosslessSent(s: State)
    requires Books(s) && Lossless(s)
    ensures |s.sent| == |s.outcomes| && forall j | 0 <= j < |s.sent| :: s.sent[j] == Payload(s.received[j])
  {
    AllDelivered(s.received, s.outcomes);
    hide DeliveredOf, Payload, Fits;
  }

  /** The frames received and not sent to the core are in the ring, in order from s_rx_cur. */
  ghost predicate Retained(s: State) {
    && |s.sent| <= |s.received| && Bounds(s)
    && (forall i | 0 <= i < |s.descs| :: s.descs[i].own <==> Ahead(s, i) >= |s.received| - |s.sent|)
    && (forall i | 0 <= i < |s.descs| && Ahead(s, i) < |s.received| - |s.sent| ::
          s.descs[i].frame == s.received[|s.sent| + Ahead(s, i)])
  }

  /** Lossless in-order delivery under backpressure: in such a run the core has been sent
      exactly the first frames received, in order, each once, and all later ones are retained. */
  lemma LosslessDelivery(n: nat, fullDuplex: bool, evs: seq<Event>)
    requires n > 0 && Run(Start(n, true, fullDuplex), evs).Some? && forall ev | ev in evs :: Steady(ev)
    ensures var s := Run(Start(n, true, fullDuplex), evs).value;
      Retained(s) && forall j | 0 <= j < |s.sent| :: s.sent[j] == Payload(s.received[j])
  {
    var start := Start(n, true, fullDuplex);
    StartInv(n, true, fullDuplex);
    SteadyRun(start, 0, evs);
    InOrder(n, true, fullDuplex, evs);
    LosslessSent(Run(start, evs).value);
    hide Run, Start, Books, Lossless, Steady;
  }
}
