/** The transmit side of applications/backends/eth_backend.c: the core hands in frames, the
    DMA sends them in ring order, the worker reports completions, the USB transport comes
    and goes. Each callback, each look at one slot and each DMA transfer is one step. */
module EthTx {
  import opened Octets
  import opened Options
  import opened Rings

  // WLH_ETH_MIN_FRAME and ETH_MAX_PACKET_SIZE
  const MIN_FRAME: nat := 14
  const MAX_PACKET: nat := 1536

  datatype Job = Job(session: nat, channel: nat, frame: Bytes)

  /** A call of wlh_coproc_ethernet_rx_complete, for the job with this number. */
  datatype Report = Report(job: nat, session: nat, channel: nat, status: int)

  /** Slot and descriptor: the OWN and ES bits, the buffer, and which job was put there. */
  datatype Slot = Slot(inFlight: bool, own: bool, failed: bool, session: nat, channel: nat, buffer: Bytes, job: nat)

  /** What has become of an accepted job: in flight, in report number `at`, or discarded. */
  datatype Fate = Pending | Reported(at: nat) | Discarded

  /** `next` is s_tx_next, `fetch` the descriptor the DMA looks at. The rest records what has
      happened: jobs accepted and the fate of each, calls made, how many jobs were discarded,
      frames sent and for each of them whether its transfer failed, and whether a buffer was
      overwritten while the DMA owned it. */
  datatype State = State(slots: seq<Slot>, next: nat, fetch: nat, dead: bool, linkUp: bool,
    accepted: seq<Job>, fate: seq<Fate>, reports: seq<Report>, lost: nat, wire: seq<Bytes>, failures: seq<bool>,
    clobbered: bool)

  datatype Answer = REJECTED | PENDING

  datatype Event = DoRx(frame: Bytes, session: nat, channel: nat)
                 | DoScan(i: nat)
                 | DoDma(failed: bool)
                 | DoDead
                 | DoAlive
                 | DoLink(up: bool)

  predicate Bounds(s: State) {
    s.next < |s.slots| && s.fetch < |s.slots|
  }

  /** wlh_eth_rx_from_core */
  function RxFromCore(s: State, frame: Bytes, session: nat, channel: nat): (State, Answer)
    requires Bounds(s)
  {
    if |frame| < MIN_FRAME || |frame| > MAX_PACKET || !s.linkUp || s.dead || s.slots[s.next].inFlight
    then (s, REJECTED)
    else (Arm(s, Job(session, channel, frame)), PENDING)
  }

  /** The frame goes into the buffer of slot s_tx_next, which the DMA then owns. */
  function Arm(s: State, job: Job): State
    requires Bounds(s)
  {
    s.(slots := s.slots[s.next := Slot(true, true, false, job.session, job.channel, job.frame, |s.accepted|)],
       next := (s.next + 1) % |s.slots|,
       accepted := s.accepted + [job],
       fate := s.fate + [Pending],
       clobbered := s.clobbered || s.slots[s.next].own)
  }

  /** The look of eth_tx_complete_scan at slot i. */
  function Scan(s: State, i: nat): State
    requires i < |s.slots|
  {
    var slot := s.slots[i];
    if !slot.inFlight || slot.own then s
    else s.(slots := s.slots[i := slot.(inFlight := false)],
            fate := if slot.job < |s.fate| then s.fate[slot.job := Reported(|s.reports|)] else s.fate,
            reports := s.reports + [Report(slot.job, slot.session, slot.channel, if slot.failed then -1 else 0)])
  }

  /** The DMA sends the descriptor it looks at and gives it back; it waits at one it does
      not own. */
  function Dma(s: State, failed: bool): State
    requires Bounds(s) && s.slots[s.fetch].own
  {
    s.(slots := s.slots[s.fetch := s.slots[s.fetch].(own := false, failed := failed)],
       fetch := (s.fetch + 1) % |s.slots|,
       wire := s.wire + [s.slots[s.fetch].buffer],
       failures := s.failures + [failed])
  }

  /** How many slots are in flight. */
  function InFlight(slots: seq<Slot>): nat {
    if slots == [] then 0
    else InFlight(slots[..|slots| - 1]) + if slots[|slots| - 1].inFlight then 1 else 0
  }

  function Dropped(slots: seq<Slot>): (r: seq<Slot>)
    ensures |r| == |slots| && forall i | 0 <= i < |r| :: r[i] == slots[i].(inFlight := false)
  {
    seq(|slots|, i requires 0 <= i < |slots| => slots[i].(inFlight := false))
  }

  /** wlh_eth_transport_dead: jobs in flight are discarded, the DMA keeps its descriptors. */
  function Dead(s: State): State {
    s.(dead := true, slots := Dropped(s.slots), lost := s.lost + InFlight(s.slots),
       fate := seq(|s.fate|, j requires 0 <= j < |s.fate| => if s.fate[j].Pending? then Discarded else s.fate[j]))
  }

  /** wlh_eth_transport_alive */
  function Alive(s: State): State {
    s.(dead := false)
  }

  predicate Enabled(s: State, ev: Event) {
    Bounds(s) && (ev.DoScan? ==> ev.i < |s.slots|) && (ev.DoDma? ==> s.slots[s.fetch].own)
  }

  function Step(s: State, ev: Event): (r: State)
    requires Enabled(s, ev)
    ensures Bounds(r) && |r.slots| == |s.slots|
  {
    match ev
    case DoRx(frame, session, channel) => RxFromCore(s, frame, session, channel).0
    case DoScan(i) => Scan(s, i)
    case DoDma(failed) => Dma(s, failed)
    case DoDead => Dead(s)
    case DoAlive => Alive(s)
    case DoLink(up) => s.(linkUp := up)
  }

  // -- The ring ---------------------------------------------------------------------------

  /** Slot i is the d-th after the DMA's position. */
  function Ahead(s: State, i: nat): nat
    requires s.fetch < |s.slots| && i < |s.slots|
  {
    if i >= s.fetch then i - s.fetch else i + |s.slots| - s.fetch
  }

  /** The DMA owns exactly the k slots from its position up to s_tx_next, and they hold the
      k frames accepted last, in order; all earlier ones are on the wire. */
  ghost predicate Ring(s: State, k: nat) {
    && Bounds(s) && k <= |s.slots| && k <= |s.accepted| && s.next == Wrap(s.fetch + k, |s.slots|)
    && (forall i | 0 <= i < |s.slots| :: s.slots[i].own <==> Ahead(s, i) < k)
    && (forall i | 0 <= i < |s.slots| && Ahead(s, i) < k ::
          s.slots[i].job == |s.accepted| - k + Ahead(s, i) && s.slots[i].buffer == s.accepted[s.slots[i].job].frame)
    && |s.wire| == |s.failures| == |s.accepted| - k
    && (forall j | 0 <= j < |s.wire| :: s.wire[j] == s.accepted[j].frame)
    && !s.clobbered
  }

  /** While the transport lives, whatever the DMA owns is in flight; while it is dead,
      nothing is. */
  ghost predicate Guarded(s: State) {
    forall i | 0 <= i < |s.slots| :: if s.dead then !s.slots[i].inFlight else s.slots[i].own ==> s.slots[i].inFlight
  }

  /** The job of a slot in flight is pending and the slot carries its session and channel and,
      once the DMA has given it back, how the transfer of that job ended. */
  ghost predicate SlotOk(s: State, i: nat)
    requires i < |s.slots|
  {
    var slot := s.slots[i];
    slot.inFlight ==>
      && slot.job < |s.accepted| && slot.job < |s.fate| && s.fate[slot.job].Pending?
      && slot.session == s.accepted[slot.job].session && slot.channel == s.accepted[slot.job].channel
      && (!slot.own ==> slot.job < |s.failures| && slot.failed == s.failures[slot.job])
  }

  /** A pending job is in flight, a reported one is in its report. */
  ghost predicate FateOk(s: State, j: nat)
    requires j < |s.fate|
  {
    match s.fate[j]
    case Pending => exists i :: 0 <= i < |s.slots| && s.slots[i].inFlight && s.slots[i].job == j
    case Reported(at) => at < |s.reports| && s.reports[at].job == j
    case Discarded => true
  }

  /** A report is the only one of its job, names its session and channel, and has status -1
      exactly if the transfer of that job has failed. */
  ghost predicate ReportOk(s: State, at: nat)
    requires at < |s.reports|
  {
    var r := s.reports[at];
    r.job < |s.accepted| && r.job < |s.fate| && s.fate[r.job] == Reported(at)
    && r.session == s.accepted[r.job].session && r.channel == s.accepted[r.job].channel
    && r.job < |s.failures| && r.status == if s.failures[r.job] then -1 else 0
  }

  /** Every accepted job is in flight in one slot, reported once or discarded. */
  ghost predicate Accounted(s: State) {
    && |s.fate| == |s.accepted|
    && (forall i | 0 <= i < |s.slots| :: SlotOk(s, i))
    && (forall j | 0 <= j < |s.fate| :: FateOk(s, j))
    && (forall at | 0 <= at < |s.reports| :: ReportOk(s, at))
    && (forall i, j | 0 <= i < j < |s.slots| && s.slots[i].inFlight && s.slots[j].inFlight ::
          s.slots[i].job != s.slots[j].job)
  }

  ghost predicate Books(s: State) {
    |s.accepted| == |s.reports| + s.lost + InFlight(s.slots) && |s.fate| == |s.accepted| && Accounted(s)
  }

  ghost predicate Inv(s: State, k: nat) {
    Ring(s, k) && Guarded(s) && Books(s)
  }

  lemma {:induction false} InFlightUpdate(slots: seq<Slot>, i: nat, x: Slot)
    requires i < |slots|
    ensures InFlight(slots[i := x]) + (if slots[i].inFlight then 1 else 0)
         == InFlight(slots) + if x.inFlight then 1 else 0
  {
    var n, t := |slots| - 1, slots[i := x];
    if i < n {
      assert t[..n] == slots[..n][i := x];
      InFlightUpdate(slots[..n], i, x);
    } else {
      assert t[..n] == slots[..n];
    }
  }

  lemma {:induction false} InFlightDropped(slots: seq<Slot>)
    ensures InFlight(Dropped(slots)) == 0
  {
    if slots != [] {
      InFlightDropped(slots[..|slots| - 1]);
      assert Dropped(slots)[..|slots| - 1] == Dropped(slots[..|slots| - 1]);
    }
  }

  lemma {:induction false} InFlightBound(slots: seq<Slot>)
    ensures InFlight(slots) <= |slots|
  {
    if slots != [] { InFlightBound(slots[..|slots| - 1]); }
  }

  lemma ArmRing(s: State, k: nat, job: Job)
    requires Ring(s, k) && !s.slots[s.next].own
    ensures k < |s.slots| && Ring(Arm(s, job), k + 1)
  {
    WrapIsMod(s.next + 1, |s.slots|);
    var r := Arm(s, job);
    assert Ahead(s, s.next) == if k < |s.slots| then k else 0;
    assert forall i | 0 <= i < |s.slots| :: Ahead(r, i) == Ahead(s, i);
  }

  lemma ArmBooks(s: State, job: Job)
    requires Bounds(s) && Books(s) && !s.slots[s.next].inFlight
    ensures Books(Arm(s, job))
  {
    var r := Arm(s, job);
    InFlightUpdate(s.slots, s.next, r.slots[s.next]);
    forall i | 0 <= i < |r.slots|
      ensures SlotOk(r, i) && (i != s.next && r.slots[i].inFlight ==> r.slots[i].job < |s.accepted|)
    {
      assert SlotOk(s, i);
    }
    forall at | 0 <= at < |r.reports| ensures ReportOk(r, at) { assert ReportOk(s, at); }
    forall j | 0 <= j < |r.fate| ensures FateOk(r, j) {
      if j == |s.fate| { assert r.slots[s.next].job == j; } else { FateFrame(s, r, j, s.next); }
    }
    hide InFlight;
  }

  /** A pending job of another slot stays pending there. */
  lemma FateFrame(s: State, r: State, j: nat, k: nat)
    requires j < |s.fate| && j < |r.fate| && FateOk(s, j) && r.fate[j] == s.fate[j] && s.reports <= r.reports
    requires |r.slots| == |s.slots| && k < |s.slots| && (s.slots[k].inFlight ==> s.slots[k].job != j)
    requires forall i | 0 <= i < |s.slots| && i != k :: r.slots[i] == s.slots[i]
    ensures FateOk(r, j)
  {
    if s.fate[j].Pending? {
      var i :| 0 <= i < |s.slots| && s.slots[i].inFlight && s.slots[i].job == j;
      assert r.slots[i].inFlight;
    }
  }

  lemma ScanRing(s: State, k: nat, i: nat)
    requires Ring(s, k) && Guarded(s) && i < |s.slots|
    ensures Ring(Scan(s, i), k) && Guarded(Scan(s, i))
  {
    var r := Scan(s, i);
    assert forall j | 0 <= j < |s.slots| :: Ahead(r, j) == Ahead(s, j);
  }

  lemma ScanBooks(s: State, i: nat)
    requires Books(s) && i < |s.slots|
    ensures Books(Scan(s, i))
  {
    var r := Scan(s, i);
    if s.slots[i].inFlight && !s.slots[i].own {
      InFlightUpdate(s.slots, i, r.slots[i]);
      assert SlotOk(s, i);
      forall k | 0 <= k < |r.slots| ensures SlotOk(r, k) { assert SlotOk(s, k); }
      forall at | 0 <= at < |r.reports| ensures ReportOk(r, at) { assert at < |s.reports| ==> ReportOk(s, at); }
      forall j | 0 <= j < |r.fate| ensures FateOk(r, j) {
        if j != s.slots[i].job { FateFrame(s, r, j, i); }
      }
    }
    hide InFlight;
  }

  lemma DmaRing(s: State, k: nat, failed: bool)
    requires Ring(s, k) && s.slots[s.fetch].own
    ensures k > 0 && Ring(Dma(s, failed), k - 1)
    ensures var j := |s.wire|;
      j < |s.accepted| && s.slots[s.fetch].job == j && Dma(s, failed).wire == s.wire + [s.accepted[j].frame]
      && Dma(s, failed).failures == s.failures + [failed]
  {
    WrapIsMod(s.fetch + 1, |s.slots|);
    var r := Dma(s, failed);
    assert Ahead(s, s.fetch) == 0;
    assert forall i | 0 <= i < |s.slots| && i != s.fetch :: Ahead(r, i) == Ahead(s, i) - 1;
    assert Ahead(r, s.fetch) == |s.slots| - 1;
  }

  lemma DmaBooks(s: State, failed: bool)
    requires Bounds(s) && Books(s) && s.slots[s.fetch].own && s.slots[s.fetch].job == |s.failures|
    ensures Books(Dma(s, failed))
  {
    var r := Dma(s, failed);
    InFlightUpdate(s.slots, s.fetch, r.slots[s.fetch]);
    forall k | 0 <= k < |r.slots| ensures SlotOk(r, k) { assert SlotOk(s, k); }
    forall at | 0 <= at < |r.reports| ensures ReportOk(r, at) { assert ReportOk(s, at); }
    forall j | 0 <= j < |r.fate| ensures FateOk(r, j) {
      assert FateOk(s, j);
      if s.fate[j].Pending? {
        var i :| 0 <= i < |s.slots| && s.slots[i].inFlight && s.slots[i].job == j;
        assert r.slots[i].inFlight;
      }
    }
    hide InFlight;
  }

  lemma DeadRing(s: State, k: nat)
    requires Ring(s, k)
    ensures Ring(Dead(s), k) && Guarded(Dead(s))
  {
    var r := Dead(s);
    assert forall j | 0 <= j < |s.slots| :: Ahead(r, j) == Ahead(s, j);
  }

  lemma DeadBooks(s: State)
    requires Books(s)
    ensures Books(Dead(s))
  {
    InFlightDropped(s.slots);
    var r := Dead(s);
    forall at | 0 <= at < |r.reports| ensures ReportOk(r, at) { assert ReportOk(s, at); }
    forall j | 0 <= j < |r.fate| ensures FateOk(r, j) { assert FateOk(s, j); }
    hide InFlight;
  }

  /** Coming alive, the DMA has given back every descriptor. */
  predicate Settled(s: State, ev: Event) {
    ev.DoAlive? && s.dead ==> forall i | 0 <= i < |s.slots| :: !s.slots[i].own
  }

  lemma StepKeeps(s: State, k: nat, ev: Event) returns (j: nat)
    requires Inv(s, k) && Enabled(s, ev) && Settled(s, ev)
    ensures Inv(Step(s, ev), j)
  {
    j := k;
    hide Ring, Books, Arm, Scan, Dma, Dead;
    match ev
    case DoRx(frame, session, channel) =>
      if RxFromCore(s, frame, session, channel).1 == PENDING {
        j := k + 1;
        ArmKeeps(s, k, Job(session, channel, frame));
      }
    case DoScan(i) =>
      ScanRing(s, k, i);
      ScanBooks(s, i);
    case DoDma(failed) =>
      DmaRing(s, k, failed);
      DmaBooks(s, failed);
      DmaGuarded(s, failed);
      j := k - 1;
    case DoDead =>
      DeadRing(s, k);
      DeadBooks(s);
    case DoAlive => IdleKeeps(s, k, ev);
    case DoLink(_) => IdleKeeps(s, k, ev);
  }

  lemma ArmKeeps(s: State, k: nat, job: Job)
    requires Inv(s, k) && !s.dead && !s.slots[s.next].inFlight
    ensures Inv(Arm(s, job), k + 1)
  {
    ArmRing(s, k, job);
    ArmBooks(s, job);
    hide Ring, Books;
  }

  lemma DmaGuarded(s: State, failed: bool)
    requires Bounds(s) && Guarded(s) && s.slots[s.fetch].own
    ensures Guarded(Dma(s, failed))
  {
  }

  /** The flags of transport and link are not part of the ring or of the books. */
  lemma IdleKeeps(s: State, k: nat, ev: Event)
    requires Inv(s, k) && Enabled(s, ev) && Settled(s, ev) && (ev.DoAlive? || ev.DoLink?)
    ensures Inv(Step(s, ev), k)
  {
    var r := Step(s, ev);
    assert Ring(r, k) by { assert forall j | 0 <= j < |s.slots| :: Ahead(r, j) == Ahead(s, j); }
    hide Ring;
    forall i | 0 <= i < |r.slots| ensures SlotOk(r, i) { assert SlotOk(s, i); }
    forall at | 0 <= at < |r.reports| ensures ReportOk(r, at) { assert ReportOk(s, at); }
    forall j | 0 <= j < |r.fate| ensures FateOk(r, j) { assert FateOk(s, j); }
  }

  // -- Runs -------------------------------------------------------------------------------

  /** n free descriptors, transport alive, link down. */
  function Start(n: nat): State {
    State(seq(n, _ => Slot(false, false, false, 0, 0, [], 0)), 0, 0, false, false, [], [], [], 0, [], [], false)
  }

  /** The state after the events, if each can happen and the transport only comes alive with
      the ring at rest. */
  function Run(s: State, evs: seq<Event>): Option<State>
    decreases |evs|
  {
    if evs == [] then Some(s)
    else if !Enabled(s, evs[0]) || !Settled(s, evs[0]) then None
    else Run(Step(s, evs[0]), evs[1..])
  }

  lemma {:induction false} RunKeeps(s: State, k: nat, evs: seq<Event>) returns (j: nat)
    requires Inv(s, k) && Run(s, evs).Some?
    ensures Inv(Run(s, evs).value, j)
    decreases |evs|
  {
    hide Inv, Step, Settled;
    j := k;
    if evs != [] {
      j := StepKeeps(s, k, evs[0]);
      j := RunKeeps(Step(s, evs[0]), j, evs[1..]);
    }
  }

  lemma {:induction false} NoneInFlight(slots: seq<Slot>)
    requires forall i | 0 <= i < |slots| :: !slots[i].inFlight
    ensures InFlight(slots) == 0
  {
    if slots != [] { NoneInFlight(slots[..|slots| - 1]); }
  }

  lemma StartInv(n: nat)
    requires n > 0
    ensures Inv(Start(n), 0)
  {
    NoneInFlight(Start(n).slots);
  }

  /** After every run: frames go onto the wire in the order they were accepted, each once;
      what is accepted and not yet sent is what the DMA owns, contiguous from its position to
      s_tx_next, so it waits behind nothing; no owned buffer was ever overwritten. */
  lemma RingOrder(n: nat, evs: seq<Event>)
    requires n > 0 && Run(Start(n), evs).Some?
    ensures var s := Run(Start(n), evs).value;
      && Bounds(s) && |s.slots| == n && !s.clobbered
      && |s.wire| <= |s.accepted| <= |s.wire| + n
      && (forall j | 0 <= j < |s.wire| :: s.wire[j] == s.accepted[j].frame)
      && (forall i | 0 <= i < n :: s.slots[i].own <==> Ahead(s, i) < |s.accepted| - |s.wire|)
      && s.next == Wrap(s.fetch + |s.accepted| - |s.wire|, n)
  {
    StartInv(n);
    var k := RunKeeps(Start(n), 0, evs);
    RunSlots(Start(n), evs);
    hide Run, Start;
  }

  lemma {:induction false} RunSlots(s: State, evs: seq<Event>)
    requires Run(s, evs).Some?
    ensures |Run(s, evs).value.slots| == |s.slots|
    decreases |evs|
  {
    if evs != [] { RunSlots(Step(s, evs[0]), evs[1..]); }
  }

  /** After every run: each accepted frame has been reported exactly once with its own session
      and channel and with how its transfer ended, or discarded, or is in one of at most n
      slots; and while the transport is dead a look at any slot makes no call. */
  lemma Conservation(n: nat, evs: seq<Event>)
    requires n > 0 && Run(Start(n), evs).Some?
    ensures var s := Run(Start(n), evs).value;
      && Accounted(s) && |s.accepted| == |s.reports| + s.lost + InFlight(s.slots) && InFlight(s.slots) <= n
      && (s.dead ==> forall i | 0 <= i < |s.slots| :: Scan(s, i) == s)
  {
    StartInv(n);
    var k := RunKeeps(Start(n), 0, evs);
    RunSlots(Start(n), evs);
    InFlightBound(Run(Start(n), evs).value.slots);
    hide Run, Start, Ring;
  }

  // -- What single callbacks answer ------------------------------------------------------------

  /** A frame is accepted exactly if its length is in range, the link up, the transport alive
      and the next slot free; then it is the last one accepted, pending, and owned by the DMA. */
  lemma RxOutcome(s: State, frame: Bytes, session: nat, channel: nat)
    requires Bounds(s)
    ensures var (r, answer) := RxFromCore(s, frame, session, channel);
      && (answer == PENDING <==> MIN_FRAME <= |frame| <= MAX_PACKET && s.linkUp && !s.dead && !s.slots[s.next].inFlight)
      && (answer == REJECTED ==> r == s)
      && (answer == PENDING ==>
            && r.accepted == s.accepted + [Job(session, channel, frame)] && r.fate == s.fate + [Pending]
            && |r.slots| == |s.slots| && r.slots[s.next].own && r.slots[s.next].inFlight
            && r.slots[s.next].job == |s.accepted| && r.slots[s.next].buffer == frame
            && (forall i | 0 <= i < |s.slots| && i != s.next :: r.slots[i] == s.slots[i])
            && r.reports == s.reports && r.wire == s.wire && r.failures == s.failures)
  {
  }

  /** A slot in flight that the DMA has given back is reported by a look at it, and freed. */
  lemma ScanOutcome(s: State, k: nat, i: nat)
    requires Inv(s, k) && i < |s.slots|
    ensures var (r, slot) := (Scan(s, i), s.slots[i]);
      if slot.inFlight && !slot.own then
        && slot.job < |s.accepted| && slot.job < |s.failures|
        && var job := s.accepted[slot.job];
        && r.reports == s.reports + [Report(slot.job, job.session, job.channel, if s.failures[slot.job] then -1 else 0)]
        && r.slots == s.slots[i := slot.(inFlight := false)]
      else r == s
  {
    assert SlotOk(s, i);
  }

  /** When the transport dies every job in flight is discarded, nothing is reported, and the
      DMA goes on owning what it owns. */
  lemma DeadOutcome(s: State)
    ensures var r := Dead(s);
      && r.dead && r.reports == s.reports && r.accepted == s.accepted && r.wire == s.wire && r.failures == s.failures
      && |r.slots| == |s.slots| && |r.fate| == |s.fate|
      && (forall i | 0 <= i < |s.slots| ::
            !r.slots[i].inFlight && r.slots[i].own == s.slots[i].own && r.slots[i].buffer == s.slots[i].buffer)
      && (forall j | 0 <= j < |s.fate| :: r.fate[j] == if s.fate[j].Pending? then Discarded else s.fate[j])
  {
  }

  /** Link events and transport-alive set their flags and nothing else. */
  lemma FlagOutcome(s: State, up: bool)
    requires Bounds(s)
    ensures Step(s, DoLink(up)).linkUp == up && Step(s, DoLink(up)).(linkUp := s.linkUp) == s
    ensures !Alive(s).dead && Alive(s).(dead := s.dead) == s
  {
  }

  // -- Coming alive too early -----------------------------------------------------------------

  /** With a descriptor still owned but no longer in flight, accepting frames until the ring
      has come around overwrites its buffer. */
  lemma {:induction false} Overrun(s: State, k: nat) returns (evs: seq<Event>)
    requires Bounds(s) && !s.dead && s.linkUp && 0 < k <= |s.slots| && s.next == Wrap(s.fetch + k, |s.slots|)
    requires s.slots[s.fetch].own && !s.slots[s.fetch].inFlight
    requires forall i | 0 <= i < |s.slots| && Ahead(s, i) >= k :: !s.slots[i].inFlight
    ensures Run(s, evs).Some? && Run(s, evs).value.clobbered
    decreases |s.slots| - k
  {
    var frame: Bytes := seq(MIN_FRAME, _ => 0);
    var ev := DoRx(frame, 0, 0);
    var r := Arm(s, Job(0, 0, frame));
    WrapIsMod(s.next + 1, |s.slots|);
    assert Step(s, ev) == r by { assert Ahead(s, s.next) == if k < |s.slots| then k else 0; }
    if k == |s.slots| {
      evs := [ev];
      assert Run(r, []) == Some(r);
    } else {
      assert forall i | 0 <= i < |s.slots| :: Ahead(r, i) == Ahead(s, i);
      var rest := Overrun(r, k + 1);
      evs := [ev] + rest;
      assert evs[1..] == rest;
    }
  }

  /** No later run overwrites a buffer the DMA owns. */
  ghost predicate Safe(s: State) {
    forall evs :: Run(s, evs).Some? ==> !Run(s, evs).value.clobbered
  }

  /** wlh_eth_transport_alive is safe exactly when every OWN bit has cleared. */
  lemma AliveSafeIff(s: State, k: nat)
    requires Inv(s, k) && s.dead
    ensures Safe(Alive(s)) <==> forall i | 0 <= i < |s.slots| :: !s.slots[i].own
  {
    if forall i | 0 <= i < |s.slots| :: !s.slots[i].own {
      IdleKeeps(s, k, DoAlive);
      forall evs | Run(Alive(s), evs).Some? ensures !Run(Alive(s), evs).value.clobbered {
        var j := RunKeeps(Alive(s), k, evs);
      }
    } else {
      var r := Step(Alive(s), DoLink(true));
      assert k > 0 && Ahead(s, s.fetch) == 0;
      var rest := Overrun(r, k);
      var evs := [DoLink(true)] + rest;
      assert evs[1..] == rest;
      assert Run(Alive(s), evs) == Run(r, rest);
    }
  }

  /** In every ring a frame accepted and not yet sent when the transport dies leaves its OWN
      bit set, and coming alive then is not safe. */
  lemma AliveTooEarly(n: nat)
    requires n > 0
    ensures var r := Run(Start(n), [DoLink(true), DoRx(seq(MIN_FRAME, _ => 0), 0, 0), DoDead]);
      r.Some? && r.value.dead && r.value.slots != [] && r.value.slots[0].own && !Safe(Alive(r.value))
  {
    var a, b, c := DoLink(true), DoRx(seq(MIN_FRAME, _ => 0), 0, 0), DoDead;
    var s := Start(n);
    var t := Step(s, a);
    var u := Step(t, b);
    var v := Step(u, c);
    assert [a, b, c][1..] == [b, c] && [b, c][1..] == [c] && [c][1..] == [];
    assert Run(v, []) == Some(v) && Run(u, [c]) == Some(v) && Run(t, [b, c]) == Some(v);
    StartInv(n);
    var k := RunKeeps(s, 0, [a, b, c]);
    AliveSafeIff(v, k);
  }
}
