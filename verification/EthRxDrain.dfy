/** eth_rx_drain of applications/backends/eth_backend.c as one call, with its loop. */
module EthRxDrain {
  import opened EthRx
  import opened Octets
  import opened Options

  /** What the core answers in each round of a drain. */
  type Answers = nat -> Result

  /** eth_rx_drain from a round on, with nothing received in between: core(j) is the answer
      in round j, `idle` tells whether the peer could be resumed. */
  function DrainFrom(s: State, p: nat, core: Answers, j: nat, idle: bool): State
    requires Bounds(s) && s.worker.Draining?
    decreases p
  {
    if s.descs[s.cur].own || p == 0 then Finish(s, idle)
    else if Verdict(s, core(j)).None? then Look(s, core(j))
    else DrainFrom(Look(s, core(j)), p - 1, core, j + 1, idle)
  }

  lemma BeginStep(s: State, p: nat, ready: bool)
    requires Inv(s, p)
    ensures Inv(s.(worker := Draining(ready)), p)
  {
    RingFrame(s, s.(worker := Draining(ready)), p);
    BooksFrame(s, s.(worker := Draining(ready)));
    hide Ring, Books;
  }

  lemma LookFacts(s: State, result: Result)
    requires Bounds(s) && s.worker.Draining?
    ensures var r := Look(s, result);
      && r.linkUp == s.linkUp && r.fullDuplex == s.fullDuplex
      && if Verdict(s, result).None? then r.worker.Waiting? && r.backpressured && r.outcomes == s.outcomes
              && r.pauseActive == (s.pauseActive || (s.linkUp && s.fullDuplex))
         else r.worker == s.worker && |r.outcomes| == |s.outcomes| + 1 && r.backpressured == s.backpressured
              && r.pauseActive == s.pauseActive
  {
  }

  lemma DrainNext(s: State, p: nat, core: Answers, j: nat, idle: bool)
    requires Bounds(s) && s.worker.Draining? && (s.descs[s.cur].own <==> p == 0)
    ensures DrainFrom(s, p, core, j, idle)
         == if p == 0 then Finish(s, idle)
            else if Verdict(s, core(j)).None? then Look(s, core(j))
            else DrainFrom(Look(s, core(j)), p - 1, core, j + 1, idle)
  {
  }

  /** From s with p frames in the ring to r with q of them left: without any the DMA runs and
      a paused peer is resumed if it can be, otherwise the peer is paused if the link allows. */
  ghost predicate Drained(s: State, p: nat, r: State, q: nat, idle: bool) {
    var done := Inv(r, q) && r.worker.Waiting? && q <= p && (r.backpressured <==> q > 0)
                && |r.outcomes| == |s.outcomes| + p - q
                && r.linkUp == s.linkUp && r.fullDuplex == s.fullDuplex
                && (q == 0 ==> !r.stalled && (r.pauseActive <==> s.pauseActive && !idle))
                && (q > 0 ==> r.pauseActive == (s.linkUp && s.fullDuplex));
    done
  }

  /** The loop ends by itself: of p frames in the ring each is given back, up to the first for
      which the core has no credit; backpressure is left exactly when a frame remains. */
  lemma {:induction false} DrainKeeps(s: State, p: nat, core: Answers, j: nat, idle: bool) returns (q: nat)
    requires Inv(s, p) && s.worker.Draining?
    ensures Bounds(s) && Drained(s, p, DrainFrom(s, p, core, j, idle), q, idle)
    decreases p
  {
    hide Inv, Verdict, Finish, Look, DrainFrom, Drained, Bounds;
    DrainRound(s, p, core(j), idle);
    DrainNext(s, p, core, j, idle);
    if p == 0 {
      q := 0;
    } else if Verdict(s, core(j)).None? {
      q := p;
    } else {
      q := DrainKeeps(Look(s, core(j)), p - 1, core, j + 1, idle);
      DrainedNext(s, Look(s, core(j)), p, DrainFrom(s, p, core, j, idle), q, idle);
    }
  }

  lemma DrainedNext(s: State, t: State, p: nat, r: State, q: nat, idle: bool)
    requires p > 0 && |t.outcomes| == |s.outcomes| + 1 && Drained(t, p - 1, r, q, idle)
    requires t.linkUp == s.linkUp && t.fullDuplex == s.fullDuplex && t.pauseActive == s.pauseActive
    ensures Drained(s, p, r, q, idle)
  {
    hide Inv;
  }

  /** What a round finds, and the three ways it can go. */
  lemma DrainRound(s: State, p: nat, result: Result, idle: bool)
    requires Inv(s, p) && s.worker.Draining?
    ensures Bounds(s) && (s.descs[s.cur].own <==> p == 0)
    ensures p == 0 ==> Drained(s, p, Finish(s, idle), 0, idle)
    ensures p > 0 && Verdict(s, result).None? ==> Drained(s, p, Look(s, result), p, idle)
    ensures var r := Look(s, result);
      p > 0 && Verdict(s, result).Some? ==>
        Inv(r, p - 1) && Bounds(r) && r.worker == s.worker && |r.outcomes| == |s.outcomes| + 1
        && r.linkUp == s.linkUp && r.fullDuplex == s.fullDuplex && r.pauseActive == s.pauseActive
  {
    CurOwned(s, p);
    FinishStep(s, p, idle);
    if p > 0 {
      LookStep(s, p, result);
      LookFacts(s, result);
    }
    hide Inv, Finish, Look;
  }

  lemma CurOwned(s: State, p: nat)
    requires Ring(s, p)
    ensures Bounds(s) && (s.descs[s.cur].own <==> p == 0)
  {
    assert Ahead(s, s.cur) == 0;
  }

  lemma FinishStep(s: State, p: nat, idle: bool)
    requires Inv(s, p)
    ensures var r := Finish(s, idle);
      && Inv(r, p) && r.worker.Waiting? && !r.backpressured && !r.stalled && r.outcomes == s.outcomes
      && r.linkUp == s.linkUp && r.fullDuplex == s.fullDuplex && (r.pauseActive <==> s.pauseActive && !idle)
  {
    RingFrame(s, Finish(s, idle), p);
    BooksFrame(s, Finish(s, idle));
    hide Ring, Books;
  }

  class Backend {
    const descs: array<Desc>
    var cur: nat
    var stalled: bool
    var dead: bool
    var linkUp: bool
    var fullDuplex: bool
    var backpressured: bool
    var pauseActive: bool
    var sent: seq<Bytes>
    // The DMA's position, where the worker is, and the record.
    ghost var dma: nat
    ghost var worker: Worker
    ghost var received: seq<Frame>
    ghost var outcomes: seq<Outcome>
    // How many frames wait in the ring.
    ghost var pending: nat

    ghost function Now(): State
      reads this, descs
    {
      State(descs[..], cur, dma, stalled, dead, linkUp, fullDuplex, backpressured, pauseActive, worker,
            received, outcomes, sent)
    }

    ghost predicate Valid()
      reads this, descs
    {
      var ok := Inv(Now(), pending);
      ok
    }

    /** emac_init, as far as reception goes */
    constructor (n: nat, linkUp: bool, fullDuplex: bool)
      requires n > 0
      ensures Valid() && Now() == Start(n, linkUp, fullDuplex) && pending == 0 && fresh(descs)
    {
      descs := new Desc[n](_ => Desc(true, Frame([], false)));
      cur, stalled, dead, backpressured, pauseActive, sent := 0, false, false, false, false, [];
      this.linkUp, this.fullDuplex := linkUp, fullDuplex;
      dma, worker, received, outcomes, pending := 0, Waiting, [], [], 0;
      new;
      assert descs[..] == Start(n, linkUp, fullDuplex).descs;
      StartInv(n, linkUp, fullDuplex);
      hide Inv;
    }

    /** eth_flow_control_request; `idle` is a clear FCBBPA. */
    method FlowControlRequest(idle: bool) returns (done: bool)
      ensures done == (linkUp && fullDuplex && idle)
    {
      if !linkUp || !fullDuplex {
        return false;
      }
      if !idle {
        return false;
      }
      return true;
    }

    /** eth_pause_upstream */
    method PauseUpstream(idle: bool)
      modifies this`pauseActive
      ensures pauseActive == (old(pauseActive) || (linkUp && fullDuplex))
    {
      if !linkUp || !fullDuplex {
        return;
      }
      pauseActive := true;
      var _ := FlowControlRequest(idle);
    }

    /** eth_resume_upstream */
    method ResumeUpstream(idle: bool)
      modifies this`pauseActive
      ensures pauseActive == (old(pauseActive) && !(linkUp && fullDuplex && idle))
    {
      if pauseActive {
        var done := FlowControlRequest(idle);
        if done {
          pauseActive := false;
        }
      }
    }

    /** The frame at s_rx_cur: what the loop of eth_rx_drain does with it. */
    method LookAt(ready: bool, result: Result, idle: bool) returns (blocked: bool)
      requires Bounds(Now()) && worker == Draining(ready)
      modifies this`cur, this`backpressured, this`pauseActive, this`sent, this`worker, this`outcomes, descs
      ensures Now() == Look(old(Now()), result) && blocked == Verdict(old(Now()), result).None?
    {
      var f := descs[cur].frame;
      if f.whole && ready && Fits(f) && result == NO_CREDIT {
        backpressured := true;
        PauseUpstream(idle);
        worker := Waiting;
        return true;
      }
      ghost var outcome := Verdict(Now(), result).value;
      if f.whole && ready && Fits(f) && result == OK {
        sent := sent + [Payload(f)];
      }
      RearmAt(outcome);
      return false;
    }

    method RearmAt(ghost outcome: Outcome)
      requires Bounds(Now())
      modifies this`cur, this`outcomes, descs
      ensures Now() == Rearm(old(Now()), outcome)
    {
      descs[cur] := descs[cur].(own := true);
      cur := (cur + 1) % descs.Length;
      outcomes := outcomes + [outcome];
    }

    /** One round of the loop of eth_rx_drain. */
    method Round(ready: bool, result: Result) returns (blocked: bool)
      requires Valid() && worker == Draining(ready) && cur < descs.Length && !descs[cur].own
      modifies this`cur, this`backpressured, this`pauseActive, this`sent, this`worker,
        this`outcomes, this`pending, descs
      ensures old(pending) > 0 && Valid() && Bounds(old(Now())) && Bounds(Now()) && Now() == Look(old(Now()), result)
      ensures blocked == Verdict(old(Now()), result).None?
      ensures pending == if blocked then old(pending) else old(pending) - 1
      ensures !blocked ==> worker == Draining(ready) && backpressured == old(backpressured)
    {
      LookStep(Now(), pending, result);
      LookFacts(Now(), result);
      hide Inv, Look, Verdict;
      blocked := LookAt(ready, result, true);
      if !blocked {
        pending := pending - 1;
      }
    }

    /** The loop of eth_rx_drain. */
    method Rounds(ready: bool, core: Answers, ghost idle: bool) returns (blocked: bool)
      requires Valid() && worker == Draining(ready)
      modifies this`cur, this`backpressured, this`pauseActive, this`sent, this`worker,
        this`outcomes, this`pending, descs
      ensures Valid() && Bounds(old(Now()))
      ensures DrainFrom(old(Now()), old(pending), core, 0, idle) == if blocked then Now() else Finish(Now(), idle)
      ensures !blocked ==> backpressured == old(backpressured)
    {
      blocked := false;
      var j: nat := 0;
      InBounds();
      ghost var goal := DrainFrom(Now(), pending, core, 0, idle);
      hide Inv, Look, Verdict, Finish, Valid;
      while !descs[cur].own
        invariant Valid() && Bounds(Now()) && worker == Draining(ready) && backpressured == old(backpressured)
        invariant DrainFrom(Now(), pending, core, j, idle) == goal
        decreases pending
      {
        blocked := Round(ready, core(j));
        if blocked {
          return;
        }
        j := j + 1;
      }
    }

    lemma InBounds()
      requires Valid()
      ensures Bounds(Now()) && (descs[cur].own <==> pending == 0)
    {
      CurOwned(Now(), pending);
    }

    /** eth_rx_drain with nothing received meanwhile. core(j) answers in round j, idle1 and
        idle2 tell whether the MAC is idle at each of the two attempts to resume the peer. */
    method Drain(coreReady: bool, core: Answers, idle1: bool, idle2: bool)
      requires Valid() && worker.Waiting?
      modifies this`cur, this`stalled, this`backpressured, this`pauseActive, this`sent, this`worker,
        this`outcomes, this`pending, descs
      ensures Valid() && Bounds(old(Now()))
      ensures var s := old(Now()).(worker := Draining(!dead && coreReady && linkUp));
        Now() == DrainFrom(s, old(pending), core, 0, (old(backpressured) && idle1) || idle2)
    {
      var ready := if dead then false else coreReady && linkUp;
      InBounds();
      BeginStep(Now(), pending, ready);
      worker := Draining(ready);
      assert Valid();
      hide Inv, Valid, Finish, DrainFrom;
      var blocked := Rounds(ready, core, (backpressured && idle1) || idle2);
      if !blocked {
        Settle(idle1, idle2);
      }
    }

    /** What follows the loop when no frame is retained. */
    method Settle(idle1: bool, idle2: bool)
      requires Valid()
      modifies this`stalled, this`backpressured, this`pauseActive, this`worker
      ensures Valid() && Now() == Finish(old(Now()), (old(backpressured) && idle1) || idle2)
    {
      FinishStep(Now(), pending, (backpressured && idle1) || idle2);
      hide Inv;
      stalled := false;
      worker := Waiting;
      if backpressured {
        backpressured := false;
        ResumeUpstream(idle1);
      }
      if !backpressured && pauseActive {
        ResumeUpstream(idle2);
      }
    }
  }
}
