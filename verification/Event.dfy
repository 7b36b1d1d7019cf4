/** Event flags of rt-thread/src/ipc.c: which waiters a send resumes, with which bits, and
    what is left of the event set. */
module Event {
  import opened PrioOrder
  import Opt = Options

  newtype Bit = b: int | 0 <= b < 32

  /** A 32-bit word by the bits that are one: & is *, | is +, and x & ~y is x - y. */
  type Flags = set<Bit>

  /** RT_EVENT_FLAG_AND, RT_EVENT_FLAG_OR and RT_EVENT_FLAG_CLEAR of an option byte. */
  datatype Options = Options(and: bool, or: bool, clear: bool)

  /** A thread with its priority, event_set and event_info. */
  datatype Waiter = Waiter(thread: nat, prio: nat, flags: Flags, info: Options)

  /** REFUSED is the error of rt_thread_suspend_to_list; WAITING a caller left on the list. */
  datatype Err = OK | ERROR | ETIMEOUT | EINVAL | REFUSED | WAITING

  datatype State = State(flags: Flags, waiters: seq<Waiter>)

  predicate Wellformed(info: Options) {
    info.and || info.or
  }

  /** The condition a waiter is woken on; AND takes precedence over OR. */
  predicate Satisfied(w: Waiter, flags: Flags) {
    if w.info.and then w.flags * flags == w.flags
    else w.info.or && w.flags * flags != {}
  }

  /** AND waits for all bits asked for, OR for one of them. */
  lemma SatisfiedBits(w: Waiter, flags: Flags)
    ensures w.info.and ==> (Satisfied(w, flags) <==> forall b | b in w.flags :: b in flags)
    ensures !w.info.and && w.info.or ==> (Satisfied(w, flags) <==> exists b :: b in w.flags && b in flags)
    ensures !w.info.and && !w.info.or ==> !Satisfied(w, flags)
  {
    if Satisfied(w, flags) && !w.info.and {
      var b :| b in w.flags * flags;
    }
    forall b | b in w.flags && b in flags ensures b in w.flags * flags {}
  }

  /** The waiter with the bits it receives. */
  function Given(w: Waiter, flags: Flags): Waiter {
    if w.info.and then w else w.(flags := w.flags * flags)
  }

  /** A satisfied waiter is resumed unless its timeout has fired: `late` are the threads that
      rt_sched_thread_ready refuses. */
  predicate Resumed(w: Waiter, flags: Flags, late: set<nat>) {
    Satisfied(w, flags) && w.thread !in late
  }

  /** The resumed waiters in list order. */
  function Woken(ws: seq<Waiter>, flags: Flags, late: set<nat>): seq<Waiter> {
    if ws == [] then []
    else
      var (before, w) := (ws[..|ws| - 1], ws[|ws| - 1]);
      if Resumed(w, flags, late) then Woken(before, flags, late) + [Given(w, flags)] else Woken(before, flags, late)
  }

  /** A waiter that stays; its event_set has been overwritten if it was satisfied. */
  function Kept(w: Waiter, flags: Flags): Waiter {
    if Satisfied(w, flags) then Given(w, flags) else w
  }

  /** The other waiters in list order. */
  function Rest(ws: seq<Waiter>, flags: Flags, late: set<nat>): seq<Waiter> {
    if ws == [] then []
    else
      var (before, w) := (ws[..|ws| - 1], ws[|ws| - 1]);
      if Resumed(w, flags, late) then Rest(before, flags, late) else Rest(before, flags, late) + [Kept(w, flags)]
  }

  /** The bits satisfied waiters with the clear option ask for, resumed or not. */
  function Mask(ws: seq<Waiter>, flags: Flags): Flags {
    if ws == [] then {}
    else
      var (before, w) := (ws[..|ws| - 1], ws[|ws| - 1]);
      if Satisfied(w, flags) && w.info.clear then Mask(before, flags) + Given(w, flags).flags else Mask(before, flags)
  }

  /** Length of the list up to the first waiter with neither AND nor OR. */
  function Stop(ws: seq<Waiter>): (k: nat)
    ensures k <= |ws| && (k < |ws| ==> !Wellformed(ws[k].info)) && forall i | 0 <= i < k :: Wellformed(ws[i].info)
  {
    if ws == [] || !Wellformed(ws[0].info) then 0 else 1 + Stop(ws[1..])
  }

  /** rt_event_send: the new state, the waiters resumed, the result. */
  function Sent(s: State, bits: Flags, late: set<nat>): (State, seq<Waiter>, Err) {
    if bits == {} then (s, [], ERROR)
    else
      var flags := s.flags + bits;
      var k := Stop(s.waiters);
      var (seen, left) := (s.waiters[..k], s.waiters[k..]);
      if left != [] then (State(flags, Rest(seen, flags, late) + left), Woken(seen, flags, late), EINVAL)
      else (State(flags - Mask(seen, flags), Rest(seen, flags, late)), Woken(seen, flags, late), OK)
  }

  /** Between operations: every waiter waits for something that has not happened, or its
      timeout has fired. */
  ghost predicate Calm(s: State, late: set<nat>) {
    forall w | w in s.waiters ::
      Wellformed(w.info) && w.flags != {} && (Satisfied(w, s.flags) ==> w.thread in late)
  }

  /** The waiters ws are either resumed, with the bits they receive, or kept, each once. */
  ghost predicate Parted(ws: seq<Waiter>, flags: Flags, late: set<nat>, woken: seq<Waiter>, rest: seq<Waiter>) {
    && (forall w | w in ws :: if Resumed(w, flags, late) then Given(w, flags) in woken else Kept(w, flags) in rest)
    && (forall g | g in woken :: exists w :: w in ws && Resumed(w, flags, late) && g == Given(w, flags))
    && (forall x | x in rest :: exists w :: w in ws && !Resumed(w, flags, late) && x == Kept(w, flags))
    && |woken| + |rest| == |ws|
  }

  lemma {:induction false} WokenAndRest(ws: seq<Waiter>, flags: Flags, late: set<nat>)
    ensures Parted(ws, flags, late, Woken(ws, flags, late), Rest(ws, flags, late))
  {
    if ws != [] {
      WokenAndRest(ws[..|ws| - 1], flags, late);
      PartedNext(ws[..|ws| - 1], ws[|ws| - 1], flags, late, Woken(ws[..|ws| - 1], flags, late),
                 Rest(ws[..|ws| - 1], flags, late));
      assert ws == ws[..|ws| - 1] + [ws[|ws| - 1]];
    }
    hide Resumed, Given, Kept;
  }

  lemma PartedNext(ws: seq<Waiter>, w: Waiter, flags: Flags, late: set<nat>, woken: seq<Waiter>, rest: seq<Waiter>)
    requires Parted(ws, flags, late, woken, rest)
    ensures if Resumed(w, flags, late) then Parted(ws + [w], flags, late, woken + [Given(w, flags)], rest)
            else Parted(ws + [w], flags, late, woken, rest + [Kept(w, flags)])
  {
    hide Resumed, Given, Kept;
    assert forall v | v in ws :: v in ws + [w];
    assert forall v | v in ws + [w] :: v in ws || v == w;
  }

  /** Positions of ws in increasing order. */
  ghost predicate Increasing(at: seq<nat>, n: nat) {
    (forall i | 0 <= i < |at| :: at[i] < n) && forall i, j | 0 <= i < j < |at| :: at[i] < at[j]
  }

  /** Waiters are resumed, and kept, in list order, each once: `up` are the positions of those
      resumed, `down` of those kept. */
  lemma {:induction false} InListOrder(ws: seq<Waiter>, flags: Flags, late: set<nat>) returns (up: seq<nat>, down: seq<nat>)
    ensures var (woken, rest) := (Woken(ws, flags, late), Rest(ws, flags, late));
      && |up| == |woken| && |down| == |rest| && |up| + |down| == |ws|
      && Increasing(up, |ws|) && Increasing(down, |ws|)
      && (forall i | 0 <= i < |up| :: Resumed(ws[up[i]], flags, late) && woken[i] == Given(ws[up[i]], flags))
      && (forall i | 0 <= i < |down| :: !Resumed(ws[down[i]], flags, late) && rest[i] == Kept(ws[down[i]], flags))
  {
    up, down := [], [];
    if ws != [] {
      up, down := InListOrder(ws[..|ws| - 1], flags, late);
      if Resumed(ws[|ws| - 1], flags, late) { up := up + [|ws| - 1]; } else { down := down + [|ws| - 1]; }
    }
    hide Resumed, Given, Kept;
  }

  /** A bit is cleared exactly when a satisfied waiter with the clear option asks for it. */
  lemma {:induction false} MaskBits(ws: seq<Waiter>, flags: Flags, bit: Bit)
    ensures bit in Mask(ws, flags) <==>
            exists w :: w in ws && Satisfied(w, flags) && w.info.clear && bit in Given(w, flags).flags
  {
    if ws != [] {
      MaskBits(ws[..|ws| - 1], flags, bit);
      assert ws == ws[..|ws| - 1] + [ws[|ws| - 1]];
    }
  }

  /** A waiter that flags satisfies asks for the bit and clears it. */
  ghost predicate Taken(ws: seq<Waiter>, flags: Flags, bit: Bit) {
    exists w :: w in ws && Satisfied(w, flags) && w.info.clear && bit in w.flags
  }

  lemma CalmStop(s: State, late: set<nat>)
    requires Calm(s, late)
    ensures Stop(s.waiters) == |s.waiters|
  {
  }

  /** The bits that a satisfied waiter asks for and that are set: at least one. */
  lemma GivenBits(w: Waiter, flags: Flags)
    requires Satisfied(w, flags) && w.flags != {}
    ensures Given(w, flags).flags == w.flags * flags != {}
  {
  }

  /** A late waiter for one of its bits is left with those that have come; all others wait
      for what they have asked for. */
  lemma KeptBits(w: Waiter, flags: Flags)
    ensures var x := Kept(w, flags);
      && x.thread == w.thread && x.prio == w.prio && x.info == w.info
      && x.flags == if !w.info.and && w.info.or && w.flags * flags != {} then w.flags * flags else w.flags
  {
  }

  lemma KeptCalm(s: State, flags: Flags, late: set<nat>, woken: seq<Waiter>, r: State)
    requires forall w | w in s.waiters :: Wellformed(w.info) && w.flags != {}
    requires Parted(s.waiters, flags, late, woken, r.waiters) && r.flags <= flags
    ensures Calm(r, late)
  {
    forall x | x in r.waiters
      ensures Wellformed(x.info) && x.flags != {} && (Satisfied(x, r.flags) ==> x.thread in late)
    {
      var w :| w in s.waiters && !Resumed(w, flags, late) && x == Kept(w, flags);
      if Satisfied(w, flags) { GivenBits(w, flags); }
    }
  }

  /** Between operations a send never takes the -RT_EINVAL exit. Of the waiters that
      old | bits satisfies, all judged on that one set, it resumes exactly those that are not
      late, each with those of its bits that are set, at least one. Of that set it leaves
      every bit that no satisfied waiter with the clear option asks for, late or not.
      Afterwards only late threads are satisfied and still wait. */
  lemma SendExact(s: State, bits: Flags, late: set<nat>)
    requires Calm(s, late) && bits != {}
    ensures var ((r, woken, e), flags) := (Sent(s, bits, late), s.flags + bits);
      && e == OK && Calm(r, late) && Parted(s.waiters, flags, late, woken, r.waiters)
      && (forall w | w in s.waiters && Satisfied(w, flags) :: Given(w, flags).flags == w.flags * flags != {})
      && (forall bit :: bit in r.flags <==> bit in flags && !Taken(s.waiters, flags, bit))
  {
    var (r, woken, e) := Sent(s, bits, late);
    var flags := s.flags + bits;
    CalmStop(s, late);
    assert s.waiters[..|s.waiters|] == s.waiters && s.waiters[|s.waiters|..] == [];
    WokenAndRest(s.waiters, flags, late);
    KeptCalm(s, flags, late, woken, r);
    hide Woken, Rest, Mask, Stop, Parted;
    forall bit ensures bit in r.flags <==> bit in flags && !Taken(s.waiters, flags, bit) {
      if bit in flags { MaskTaken(s.waiters, flags, bit); }
    }
  }

  lemma MaskTaken(ws: seq<Waiter>, flags: Flags, bit: Bit)
    requires bit in flags
    ensures bit in Mask(ws, flags) <==> Taken(ws, flags, bit)
  {
    MaskBits(ws, flags, bit);
    if w :| w in ws && Satisfied(w, flags) && w.info.clear && bit in w.flags { assert bit in Given(w, flags).flags; }
  }

  /** A resumed waiter with the clear option received the bit. */
  ghost predicate Received(woken: seq<Waiter>, bit: Bit) {
    exists g :: g in woken && g.info.clear && bit in g.flags
  }

  /** What a send promises: it resumes exactly the satisfied waiters with their bits, keeps
      the others as they are, and clears exactly the bits that resumed waiters with the clear
      option have received. */
  ghost predicate Delivers(s: State, flags: Flags, r: State, woken: seq<Waiter>) {
    && (forall w | w in s.waiters :: if Satisfied(w, flags) then Given(w, flags) in woken else w in r.waiters)
    && (forall g | g in woken :: exists w :: w in s.waiters && Satisfied(w, flags) && g == Given(w, flags))
    && (forall w | w in r.waiters :: w in s.waiters && !Satisfied(w, flags))
    && |woken| + |r.waiters| == |s.waiters|
    && (forall bit :: bit in r.flags <==> bit in flags && !Received(woken, bit))
  }

  /** What the resumed waiters received is what those of ws that are not late take. */
  lemma ReceivedIff(ws: seq<Waiter>, flags: Flags, late: set<nat>, woken: seq<Waiter>, rest: seq<Waiter>, bit: Bit)
    requires Parted(ws, flags, late, woken, rest) && bit in flags
    ensures Received(woken, bit) <==>
            exists w :: w in ws && Resumed(w, flags, late) && w.info.clear && bit in w.flags
  {
    if Received(woken, bit) {
      var g :| g in woken && g.info.clear && bit in g.flags;
      var w :| w in ws && Resumed(w, flags, late) && g == Given(w, flags);
      assert w.info.clear && bit in w.flags;
    }
    if w :| w in ws && Resumed(w, flags, late) && w.info.clear && bit in w.flags {
      assert bit in Given(w, flags).flags && Given(w, flags).info.clear;
    }
  }

  /** A satisfied waiter that is late is not among the resumed. */
  lemma LateStays(ws: seq<Waiter>, flags: Flags, late: set<nat>, woken: seq<Waiter>, rest: seq<Waiter>, w: Waiter)
    requires Parted(ws, flags, late, woken, rest) && w.thread in late
    ensures Given(w, flags) !in woken
  {
    forall v | v in ws && Resumed(v, flags, late) ensures Given(v, flags) != Given(w, flags) {
      assert v.thread != w.thread;
    }
  }

  /** A send keeps its promise exactly when no satisfied waiter is late. */
  lemma SendDeliversIff(s: State, bits: Flags, late: set<nat>)
    requires Calm(s, late) && bits != {}
    ensures var ((r, woken, _), flags) := (Sent(s, bits, late), s.flags + bits);
      Delivers(s, flags, r, woken) <==> forall w | w in s.waiters && w.thread in late :: !Satisfied(w, flags)
  {
    var (r, woken, e) := Sent(s, bits, late);
    var flags := s.flags + bits;
    SendExact(s, bits, late);
    hide Sent, Calm;
    if w :| w in s.waiters && w.thread in late && Satisfied(w, flags) {
      LateStays(s.waiters, flags, late, woken, r.waiters, w);
      assert !Delivers(s, flags, r, woken);
    } else {
      AllDelivered(s, flags, late, r, woken);
    }
    hide Delivers;
  }

  lemma AllDelivered(s: State, flags: Flags, late: set<nat>, r: State, woken: seq<Waiter>)
    requires Parted(s.waiters, flags, late, woken, r.waiters)
    requires forall w | w in s.waiters && w.thread in late :: !Satisfied(w, flags)
    requires forall bit :: bit in r.flags <==> bit in flags && !Taken(s.waiters, flags, bit)
    ensures Delivers(s, flags, r, woken)
  {
    assert forall w | w in s.waiters :: Resumed(w, flags, late) <==> Satisfied(w, flags);
    forall bit ensures bit in flags ==> (Received(woken, bit) <==> Taken(s.waiters, flags, bit)) {
      if bit in flags { ReceivedIff(s.waiters, flags, late, woken, r.waiters, bit); }
    }
    hide Received, Taken, Given, Satisfied;
  }

  /** A bit is lost, cleared though no resumed waiter received it with the clear option,
      exactly when only late waiters took it. */
  lemma LostBitIff(s: State, bits: Flags, late: set<nat>, bit: Bit)
    requires Calm(s, late) && bits != {} && bit in s.flags + bits
    ensures var ((r, woken, _), flags) := (Sent(s, bits, late), s.flags + bits);
      bit !in r.flags && !Received(woken, bit) <==>
        && Taken(s.waiters, flags, bit)
        && forall w | w in s.waiters && Satisfied(w, flags) && w.info.clear && bit in w.flags :: w.thread in late
  {
    var (r, woken, e) := Sent(s, bits, late);
    SendExact(s, bits, late);
    ReceivedIff(s.waiters, s.flags + bits, late, woken, r.waiters, bit);
    hide Sent, Calm, Parted, Received, Satisfied;
  }

  /** A send of bit b meets one late waiter for b with the clear option: nobody is resumed,
      and b is not set afterwards. */
  lemma LostEvent(thread: nat, prio: nat, b: Bit, late: set<nat>)
    requires thread in late
    ensures var w := Waiter(thread, prio, {b}, Options(false, true, true));
      Calm(State({}, [w]), late) && Sent(State({}, [w]), {b}, late) == (State({}, [w]), [], OK)
  {
    var w := Waiter(thread, prio, {b}, Options(false, true, true));
    var ws := [w];
    assert {} + {b} == {b} && {b} * {b} == {b} && {b} - {b} == {};
    assert Satisfied(w, {b}) && Given(w, {b}) == w && Kept(w, {b}) == w;
    Next(ws, 0, {b}, late);
    assert Stop(ws) == 1 && ws[..1] == ws && ws[1..] == [] && ws[..0] == [];
    assert Woken(ws[..0], {b}, late) == [] && Rest(ws[..0], {b}, late) == [] && Mask(ws[..0], {b}) == {};
    assert [] + [w] == ws && {} + {b} == {b};
    hide Woken, Rest, Mask, Satisfied;
    assert Rest(ws, {b}, late) == ws && Woken(ws, {b}, late) == [] && Mask(ws, {b}) == {b};
    assert State({}, ws).flags + {b} == {b};
  }

  // -- Receiving --------------------------------------------------------------------

  function Prios(ws: seq<Waiter>): (ps: seq<nat>)
    ensures |ps| == |ws|
  {
    seq(|ws|, i requires 0 <= i < |ws| => ws[i].prio)
  }

  /** The list with w where rt_thread_suspend_to_list puts it. */
  function Queued(ws: seq<Waiter>, w: Waiter, byPrio: bool): seq<Waiter> {
    Enlisted(ws, Prios(ws), w, w.prio, byPrio)
  }

  /** rt_event_recv up to its first return or its wait: new state, received bits, result. */
  function Tried(s: State, w: Waiter, timeout: int, byPrio: bool, suspends: bool): (State, Flags, Err) {
    if w.flags == {} then (s, {}, ERROR)
    else if Satisfied(w, s.flags) then
      (s.(flags := if w.info.clear then s.flags - w.flags else s.flags), s.flags * w.flags, OK)
    else if timeout == 0 then (s, {}, ETIMEOUT)
    else if !suspends then (s, {}, REFUSED)
    else (s.(waiters := Queued(s.waiters, w, byPrio)), {}, WAITING)
  }

  /** Which answer a receiver gets, and where it waits if it does. */
  lemma RecvOutcome(s: State, w: Waiter, timeout: int, byPrio: bool, suspends: bool) returns (k: nat)
    requires Wellformed(w.info)
    ensures k <= |s.waiters|
    ensures var ((r, got, e), due) := (Tried(s, w, timeout, byPrio, suspends), w.flags != {} && !Satisfied(w, s.flags));
      && (e == ERROR <==> w.flags == {})
      && (e == ETIMEOUT <==> due && timeout == 0)
      && (e == REFUSED <==> due && timeout != 0 && !suspends)
      && (e == WAITING <==> due && timeout != 0 && suspends)
      && (e == OK <==> w.flags != {} && !due) && e != EINVAL
      && (e == WAITING ==> r == State(s.flags, s.waiters[..k] + [w] + s.waiters[k..]))
    ensures !byPrio ==> k == |s.waiters|
    ensures byPrio && Sorted(Prios(s.waiters)) ==> forall i | 0 <= i < |s.waiters| :: i < k <==> s.waiters[i].prio <= w.prio
  {
    k := EnlistedOrder(s.waiters, Prios(s.waiters), w, w.prio, byPrio);
    assert forall i | 0 <= i < |s.waiters| :: Prios(s.waiters)[i] == s.waiters[i].prio;
    hide Enlisted, Sorted;
  }

  /** A receiver waits only for what has not happened; one that does not wait gets its bits,
      and with the clear option none of the bits it asked for stays set. */
  lemma RecvExact(s: State, w: Waiter, timeout: int, byPrio: bool, suspends: bool, late: set<nat>)
    requires Calm(s, late) && Wellformed(w.info)
    ensures var (r, got, e) := Tried(s, w, timeout, byPrio, suspends);
      && Calm(r, late)
      && (e == OK <==> w.flags != {} && Satisfied(w, s.flags))
      && (e == OK ==> got == w.flags * s.flags != {} && r.waiters == s.waiters)
      && (e == OK ==> r.flags == if w.info.clear then s.flags - got else s.flags)
      && (e == WAITING ==> w in r.waiters && r.flags == s.flags)
      && (e != OK && e != WAITING ==> r == s)
  {
  }

  // -- Resetting --------------------------------------------------------------------

  /** Length of the list up to the first thread that cannot be made ready. */
  function FirstLate(ws: seq<Waiter>, late: set<nat>): (k: nat)
    ensures k <= |ws| && (k < |ws| ==> ws[k].thread in late) && forall i | 0 <= i < k :: ws[i].thread !in late
  {
    if ws == [] || ws[0].thread in late then 0 else 1 + FirstLate(ws[1..], late)
  }

  /** rt_event_control with RT_IPC_CMD_RESET: rt_susp_list_resume_all ends there. */
  function Cleared(s: State, late: set<nat>): State {
    State({}, s.waiters[FirstLate(s.waiters, late)..])
  }

  /** A reset empties the wait list exactly when no waiter is late, and leaves nobody satisfied. */
  lemma ResetExact(s: State, late: set<nat>)
    requires Calm(s, late)
    ensures var r := Cleared(s, late);
      && (r.waiters == [] <==> forall w | w in s.waiters :: w.thread !in late)
      && r.flags == {} && Calm(r, {})
      && (forall w | w in s.waiters && w !in r.waiters :: w.thread !in late)
      && (exists k :: 0 <= k <= |s.waiters| && r.waiters == s.waiters[k..])
      && (r.waiters != [] ==> r.waiters[0].thread in late)
  {
    var ws, k := s.waiters, FirstLate(s.waiters, late);
    hide FirstLate, Wellformed;
    assert forall w | w in ws[k..] :: w in ws;
    assert k < |ws| ==> ws[k] in ws;
    forall w | w in ws && w !in ws[k..] ensures w.thread !in late {
      assert ws == ws[..k] + ws[k..];
      var i :| 0 <= i < k && ws[..k][i] == w;
    }
  }

  // -- Runs --------------------------------------------------------------------------

  /** An event and the waiting threads whose timeout has fired without their having left the
      wait list yet. */
  datatype World = World(s: State, late: set<nat>)

  datatype Call = DoSend(bits: Flags)
                | DoRecv(w: Waiter, timeout: int, byPrio: bool, suspends: bool)
                | DoExpire(thread: nat)
                | DoTimeout(thread: nat)
                | DoReset

  predicate Waits(s: State, thread: nat) {
    exists i :: 0 <= i < |s.waiters| && s.waiters[i].thread == thread
  }

  function Without(ws: seq<Waiter>, thread: nat): seq<Waiter> {
    if ws == [] then []
    else if ws[0].thread == thread then Without(ws[1..], thread)
    else [ws[0]] + Without(ws[1..], thread)
  }

  /** rt_event_recv asserts that one of AND and OR is given, and a waiting thread calls
      nothing; the timer of a waiting thread expires, and later the thread leaves the list. */
  predicate Enabled(v: World, call: Call) {
    match call
    case DoSend(_) => true
    case DoRecv(w, _, _, _) => Wellformed(w.info) && !Waits(v.s, w.thread)
    case DoExpire(thread) => Waits(v.s, thread)
    case DoTimeout(thread) => thread in v.late
    case DoReset => true
  }

  ghost function Step(v: World, call: Call): World
    requires Enabled(v, call)
  {
    match call
    case DoSend(bits) => v.(s := Sent(v.s, bits, v.late).0)
    case DoRecv(w, timeout, byPrio, suspends) => v.(s := Tried(v.s, w, timeout, byPrio, suspends).0)
    case DoExpire(thread) => v.(late := v.late + {thread})
    case DoTimeout(thread) => World(v.s.(waiters := Without(v.s.waiters, thread)), v.late - {thread})
    case DoReset => v.(s := Cleared(v.s, v.late))
  }

  ghost function Run(calls: seq<Call>): Opt.Option<World> {
    if calls == [] then Opt.Some(World(State({}, []), {}))
    else
      match Run(calls[..|calls| - 1])
      case None => Opt.None
      case Some(v) => if Enabled(v, calls[|calls| - 1]) then Opt.Some(Step(v, calls[|calls| - 1])) else Opt.None
  }

  lemma {:induction false} WithoutMembers(ws: seq<Waiter>, thread: nat)
    ensures forall w :: w in Without(ws, thread) <==> w in ws && w.thread != thread
  {
    if ws != [] { WithoutMembers(ws[1..], thread); }
  }

  lemma StepCalm(v: World, call: Call)
    requires Calm(v.s, v.late) && Enabled(v, call)
    ensures Calm(Step(v, call).s, Step(v, call).late)
  {
    match call
    case DoSend(bits) => if bits != {} { SendExact(v.s, bits, v.late); }
    case DoRecv(w, timeout, byPrio, suspends) => RecvExact(v.s, w, timeout, byPrio, suspends, v.late);
    case DoExpire(_) =>
    case DoTimeout(thread) => WithoutMembers(v.s.waiters, thread);
    case DoReset => ResetExact(v.s, v.late);
    hide Sent, Tried, Satisfied, Cleared;
  }

  /** After every run only late threads wait for what has already happened. */
  lemma {:induction false} RunCalm(calls: seq<Call>)
    requires Run(calls).Some?
    ensures var v := Run(calls).value; Calm(v.s, v.late)
    ensures var v := Run(calls).value; v.late == {} ==> forall w | w in v.s.waiters :: !Satisfied(w, v.s.flags)
  {
    if calls != [] {
      RunCalm(calls[..|calls| - 1]);
      StepCalm(Run(calls[..|calls| - 1]).value, calls[|calls| - 1]);
    }
    hide Step, Satisfied;
  }

  // -- The calls on mutable state ------------------------------------------------------

  /** The three functions after one more waiter. */
  lemma Next(ws: seq<Waiter>, i: nat, flags: Flags, late: set<nat>)
    requires i < |ws|
    ensures var (hit, gone) := (Satisfied(ws[i], flags), Resumed(ws[i], flags, late));
      && Woken(ws[..i + 1], flags, late)
         == (if gone then Woken(ws[..i], flags, late) + [Given(ws[i], flags)] else Woken(ws[..i], flags, late))
      && Rest(ws[..i + 1], flags, late)
         == (if gone then Rest(ws[..i], flags, late) else Rest(ws[..i], flags, late) + [Kept(ws[i], flags)])
      && Mask(ws[..i + 1], flags)
         == (if hit && ws[i].info.clear then Mask(ws[..i], flags) + Given(ws[i], flags).flags else Mask(ws[..i], flags))
  {
    assert ws[..i + 1][..i] == ws[..i];
  }

  lemma Splice(kept: seq<Waiter>, ws: seq<Waiter>, i: nat)
    requires i < |ws|
    ensures var (l, n) := (kept + ws[i..], |kept|);
      && l[n] == ws[i] && l[..n] + l[n + 1..] == kept + ws[i + 1..]
      && forall x :: l[n := x] == kept + [x] + ws[i + 1..]
  {
  }

  class EventObject {
    const byPrio: bool
    var flags: Flags
    var waiters: seq<Waiter>

    ghost function Now(): State
      reads this
    {
      State(flags, waiters)
    }

    /** rt_event_init */
    constructor (byPrio: bool)
      ensures Run([]) == Opt.Some(World(Now(), {})) && this.byPrio == byPrio
    {
      this.byPrio := byPrio;
      flags, waiters := {}, [];
    }

    /** The test of one waiter, and its event_set if it is resumed. */
    method Judge(w: Waiter) returns (resume: bool, valid: bool, thread: Waiter)
      ensures valid == Wellformed(w.info)
      ensures resume == Satisfied(w, flags) && thread == if resume then Given(w, flags) else w
    {
      resume, valid, thread := false, true, w;
      if w.info.and {
        resume := w.flags * flags == w.flags;
      } else if w.info.or {
        if w.flags * flags != {} {
          thread := thread.(flags := w.flags * flags);
          resume := true;
        }
      } else {
        valid := false;
      }
    }

    /** The loop of rt_event_send over the wait list; a waiter leaves it if it can be made ready. */
    method Resume(late: set<nat>) returns (woken: seq<Waiter>, needClear: Flags, valid: bool)
      modifies this`waiters
      ensures var (k, ws) := (Stop(old(waiters)), old(waiters));
        && woken == Woken(ws[..k], flags, late) && needClear == Mask(ws[..k], flags)
        && waiters == Rest(ws[..k], flags, late) + ws[k..] && valid == (k == |ws|)
    {
      woken, needClear, valid := [], {}, true;
      var n := 0;
      ghost var ws, kept, i: nat := waiters, [], 0;
      assert kept == Rest(ws[..i], flags, late) && woken == Woken(ws[..i], flags, late);
      assert needClear == Mask(ws[..i], flags);
      hide Given, Satisfied, Wellformed, Woken, Rest, Mask;
      while n < |waiters|
        invariant i <= |ws| && n == |kept| && waiters == kept + ws[i..]
        invariant kept == Rest(ws[..i], flags, late) && woken == Woken(ws[..i], flags, late)
        invariant needClear == Mask(ws[..i], flags) && i <= Stop(ws)
        decreases |waiters| - n
      {
        Splice(kept, ws, i);
        Next(ws, i, flags, late);
        var resume, thread;
        resume, valid, thread := Judge(waiters[n]);
        if !valid {
          break;
        }
        if resume && thread.info.clear {
          needClear := needClear + thread.flags;
        }
        if resume && waiters[n].thread !in late {
          waiters := waiters[..n] + waiters[n + 1..];
          woken := woken + [thread];
        } else {
          waiters := waiters[n := thread];
          kept := kept + [thread];
          n := n + 1;
        }
        i := i + 1;
      }
      assert i == Stop(ws);
    }

    /** rt_event_send */
    method Send(bits: Flags, late: set<nat>) returns (woken: seq<Waiter>, e: Err)
      modifies this
      ensures (Now(), woken, e) == Sent(old(Now()), bits, late)
    {
      if bits == {} {
        return [], ERROR;
      }
      flags := flags + bits;
      ghost var ws := waiters;
      var needClear, valid;
      woken, needClear, valid := Resume(late);
      assert valid <==> ws[Stop(ws)..] == [];
      assert valid ==> waiters == Rest(ws[..Stop(ws)], flags, late);
      assert needClear == {} ==> flags - needClear == flags;
      if !valid {
        return woken, EINVAL;
      }
      if needClear != {} {
        flags := flags - needClear;
      }
      return woken, OK;
    }

    /** rt_event_recv up to its first return or its wait. */
    method Recv(thread: nat, prio: nat, bits: Flags, option: Options, timeout: int, suspends: bool)
      returns (recved: Flags, e: Err)
      requires Wellformed(option)
      modifies this
      ensures (Now(), recved, e) == Tried(old(Now()), Waiter(thread, prio, bits, option), timeout, byPrio, suspends)
    {
      recved := {};
      if bits == {} {
        return recved, ERROR;
      }
      var ok := if option.and then flags * bits == bits else flags * bits != {};
      assert ok == Satisfied(Waiter(thread, prio, bits, option), flags) by {
        assert flags * bits == bits * flags;
      }
      if ok {
        recved := flags * bits;
        if option.clear {
          flags := flags - bits;
        }
        return recved, OK;
      } else if timeout == 0 {
        return recved, ETIMEOUT;
      } else if !suspends {
        return recved, REFUSED;
      }
      waiters := Queued(waiters, Waiter(thread, prio, bits, option), byPrio);
      return recved, WAITING;
    }

    /** rt_event_control with RT_IPC_CMD_RESET: the waiters resumed, with an error. */
    method Reset(late: set<nat>) returns (woken: seq<Waiter>)
      modifies this
      ensures Now() == Cleared(old(Now()), late) && old(waiters) == woken + waiters
    {
      woken := [];
      ghost var ws := waiters;
      while waiters != [] && waiters[0].thread !in late
        invariant ws == woken + waiters && |woken| <= FirstLate(ws, late)
        modifies this`waiters
        decreases |waiters|
      {
        assert waiters[0] == ws[|woken|] && |woken| < FirstLate(ws, late);
        woken := woken + [waiters[0]];
        waiters := waiters[1..];
      }
      assert waiters != [] ==> waiters[0] == ws[|woken|];
      assert |woken| == FirstLate(ws, late) && waiters == ws[|woken|..];
      flags := {};
    }
  }
}
