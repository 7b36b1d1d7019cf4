/** The transmit callbacks of applications/backends/eth_backend.c on mutable state. */
module EthTxCallbacks {
  import opened EthTx
  import opened Octets
  import opened Options

  /** eth_tx_complete_scan with nothing in between: slots 0, ..., n - 1. */
  function ScanAll(s: State, n: nat): (r: State)
    requires n <= |s.slots|
    ensures |r.slots| == |s.slots|
  {
    if n == 0 then s else Scan(ScanAll(s, n - 1), n - 1)
  }

  /** A whole scan keeps the invariant, and makes no call while the transport is dead. */
  lemma {:induction false} ScanAllKeeps(s: State, k: nat, n: nat)
    requires Inv(s, k) && n <= |s.slots|
    ensures Inv(ScanAll(s, n), k) && (s.dead ==> ScanAll(s, n) == s)
  {
    hide Ring, Books;
    if n > 0 {
      ScanAllKeeps(s, k, n - 1);
      var t := ScanAll(s, n - 1);
      ScanRing(t, k, n - 1);
      ScanBooks(t, n - 1);
      assert s.dead ==> Scan(t, n - 1) == t;
      hide Guarded, Scan;
    }
  }

  /** After a whole scan no slot is in flight that the DMA has given back, and the slots it
      still owns are as before. */
  lemma {:induction false} ScanAllReports(s: State, n: nat)
    requires n <= |s.slots|
    ensures forall i | 0 <= i < n :: ScanAll(s, n).slots[i].inFlight ==> ScanAll(s, n).slots[i].own
    ensures forall i | 0 <= i < |s.slots| && (i >= n || s.slots[i].own) :: ScanAll(s, n).slots[i] == s.slots[i]
    ensures s.reports <= ScanAll(s, n).reports
  {
    if n > 0 { ScanAllReports(s, n - 1); }
  }

  /** The arguments of the completion calls made so far. */
  ghost predicate Called(calls: seq<(nat, nat, int)>, reports: seq<Report>) {
    |calls| == |reports| &&
    forall i | 0 <= i < |calls| :: calls[i] == (reports[i].session, reports[i].channel, reports[i].status)
  }

  /** A slot as the source has it, without the number of its job. */
  function Plain(slot: Slot): Slot {
    slot.(job := 0)
  }

  class Backend {
    const slots: array<Slot>
    var next: nat
    var dead: bool
    var linkUp: bool
    var calls: seq<(nat, nat, int)>
    ghost var state: State

    ghost predicate Valid()
      reads this, slots
    {
      var ok :=
        && Bounds(state) && |state.slots| == slots.Length && state.next == next
        && (forall i | 0 <= i < slots.Length :: slots[i] == Plain(state.slots[i]))
        && state.dead == dead && state.linkUp == linkUp && Called(calls, state.reports);
      ok
    }

    /** emac_init, as far as transmission goes */
    constructor (n: nat)
      requires n > 0
      ensures Valid() && state == Start(n) && fresh(slots)
    {
      slots := new Slot[n](_ => Slot(false, false, false, 0, 0, [], 0));
      next, dead, linkUp, calls := 0, false, false, [];
      state := Start(n);
    }

    /** wlh_eth_rx_from_core; None is a NULL frame. */
    method FromCore(frame: Option<Bytes>, session: nat, channel: nat) returns (answer: Answer)
      requires Valid()
      modifies this`next, this`state, slots
      ensures Valid()
      ensures frame.None? ==> answer == REJECTED && state == old(state)
      ensures frame.Some? ==> (state, answer) == RxFromCore(old(state), frame.value, session, channel)
    {
      if frame == None || |frame.value| < MIN_FRAME || |frame.value| > MAX_PACKET || !linkUp || dead {
        return REJECTED;
      }
      var slot := slots[next];
      if slot.inFlight {
        return REJECTED;
      }
      slot := slot.(inFlight := true, session := session, channel := channel, buffer := frame.value);
      slot := slot.(own := true, failed := false);
      slots[next] := slot;
      next := (next + 1) % slots.Length;
      state := Arm(state, Job(session, channel, frame.value));
      return PENDING;
    }

    /** The body of the loop below. */
    method ScanSlot(i: nat)
      requires Valid() && i < slots.Length
      modifies this`calls, this`state, slots
      ensures i < |old(state).slots| && Valid() && state == Scan(old(state), i)
    {
      var slot := slots[i];
      if slot.inFlight && !slot.own {
        slots[i] := slot.(inFlight := false);
        calls := calls + [(slot.session, slot.channel, if slot.failed then -1 else 0)];
      }
      state := Scan(state, i);
    }

    /** eth_tx_complete_scan */
    method CompleteScan()
      requires Valid()
      modifies this`calls, this`state, slots
      ensures slots.Length == |old(state).slots| && Valid() && state == ScanAll(old(state), slots.Length)
    {
      Sizes();
      ghost var start := state;
      hide Valid, Scan;
      for i := 0 to slots.Length
        invariant Valid() && state == ScanAll(start, i)
      {
        ScanSlot(i);
      }
    }

    lemma Sizes()
      requires Valid()
      ensures slots.Length == |state.slots|
    {
    }

    /** wlh_eth_transport_dead */
    method TransportDead()
      requires Valid()
      modifies this`dead, this`state, slots
      ensures Valid() && state == Dead(old(state))
    {
      dead := true;
      for i := 0 to slots.Length
        modifies slots
        invariant forall j | 0 <= j < slots.Length ::
          slots[j] == if j < i then old(slots[j]).(inFlight := false) else old(slots[j])
      {
        slots[i] := slots[i].(inFlight := false);
      }
      state := Dead(state);
    }

    /** wlh_eth_transport_alive */
    method TransportAlive()
      requires Valid()
      modifies this`dead, this`state
      ensures Valid() && state == Alive(old(state))
    {
      dead := false;
      state := Alive(state);
    }
  }
}
