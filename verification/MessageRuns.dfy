/** Every interleaving of the critical sections of any number of senders, urgent senders and
    receivers, with resets in between, refines a bounded deque of messages. */
module MessageRuns {
  import opened Options
  import opened MessageNodes
  import opened MessageQueue
  import opened Octets

  /** Where a caller is between two critical sections. */
  datatype Pc = Idle
              | Reserved(node: nat, bytes: Bytes, urgent: bool)
              | Filled(node: nat, bytes: Bytes, urgent: bool)
              | Unlinked(node: nat, size: nat, message: Bytes)
              | Copied(node: nat)

  /** A completed copy: the message taken off the deque, the buffer size, what was copied. */
  datatype Receipt = Receipt(message: Bytes, size: nat, copied: Bytes)

  /** The queue's nodes and its callers, next to the deque they should amount to. */
  datatype World = World(a: Nodes, callers: seq<Pc>, deque: seq<Bytes>, receipts: seq<Receipt>)

  datatype Event = DoReserve(c: nat, bytes: Bytes, urgent: bool)
                 | DoFill(c: nat)
                 | DoLink(c: nat)
                 | DoUnlink(c: nat, size: nat)
                 | DoCopy(c: nat)
                 | DoRelease(c: nat)
                 | DoReset

  function NodeOf(pc: Pc): Option<nat> {
    if pc.Idle? then None else Some(pc.node)
  }

  ghost predicate PcOk(w: World, c: nat)
    requires c < |w.callers|
  {
    match w.callers[c]
    case Idle => true
    case Reserved(k, _, _) => k in w.a.hands && k < |w.a.payload|
    case Filled(k, bytes, urgent) =>
      k in w.a.hands && k < |w.a.payload| && w.a.payload[k] == bytes && (!urgent ==> k in w.a.ended)
    case Unlinked(k, _, message) => k in w.a.hands && k < |w.a.payload| && w.a.payload[k] == message
    case Copied(k) => k in w.a.hands && k < |w.a.payload|
  }

  /** The nodes in hands are those of the callers, each of one caller. */
  ghost predicate HandsOk(w: World) {
    && (forall c, d | 0 <= c < d < |w.callers| && !w.callers[c].Idle? :: NodeOf(w.callers[c]) != NodeOf(w.callers[d]))
    && (forall k | k in w.a.hands :: exists c :: 0 <= c < |w.callers| && NodeOf(w.callers[c]) == Some(k))
  }

  /** The messages in the linked list are the deque. */
  ghost predicate Refines(w: World) {
    && |w.deque| == |w.a.msgs|
    && (forall i | 0 <= i < |w.deque| :: w.a.msgs[i] < |w.a.payload| && w.deque[i] == w.a.payload[w.a.msgs[i]])
  }

  ghost predicate Inv(w: World) {
    && Partition(w.a) && HandsOk(w) && Refines(w)
    && (forall c | 0 <= c < |w.callers| :: PcOk(w, c))
    && (forall r | r in w.receipts :: r.copied == Truncated(r.message, r.size))
  }

  ghost predicate Enabled(w: World, msgSize: nat, ev: Event) {
    match ev
    case DoReset => true
    case DoReserve(c, bytes, _) => c < |w.callers| && w.callers[c].Idle? && w.a.free != [] && |bytes| <= msgSize
    case DoUnlink(c, _) => c < |w.callers| && w.callers[c].Idle? && w.a.msgs != []
    case DoFill(c) => c < |w.callers| && w.callers[c].Reserved?
    case DoLink(c) => c < |w.callers| && w.callers[c].Filled?
    case DoCopy(c) => c < |w.callers| && w.callers[c].Unlinked?
    case DoRelease(c) => c < |w.callers| && w.callers[c].Copied?
  }

  /** What a section does to the nodes, and what its call means for the deque: linking is
      the send, unlinking is the receive. */
  ghost function Step(w: World, msgSize: nat, ev: Event): World
    requires Inv(w) && Enabled(w, msgSize, ev)
    ensures |Step(w, msgSize, ev).a.payload| == |w.a.payload|
    ensures |Step(w, msgSize, ev).callers| == |w.callers|
  {
    match ev
    case DoReserve(c, bytes, urgent) =>
      w.(a := Reserve(w.a), callers := w.callers[c := Reserved(w.a.free[0], bytes, urgent)])
    case DoFill(c) =>
      assert PcOk(w, c);
      var Reserved(k, bytes, urgent) := w.callers[c];
      w.(a := Fill(w.a, k, bytes, urgent), callers := w.callers[c := Filled(k, bytes, urgent)])
    case DoLink(c) =>
      var Filled(k, bytes, urgent) := w.callers[c];
      w.(a := Link(w.a, k, urgent), callers := w.callers[c := Idle],
         deque := if urgent then [bytes] + w.deque else w.deque + [bytes])
    case DoUnlink(c, size) =>
      assert |w.deque| == |w.a.msgs|;
      w.(a := Unlink(w.a), callers := w.callers[c := Unlinked(w.a.msgs[0], size, w.deque[0])], deque := w.deque[1..])
    case DoCopy(c) =>
      assert PcOk(w, c);
      var Unlinked(k, size, message) := w.callers[c];
      w.(callers := w.callers[c := Copied(k)],
         receipts := w.receipts + [Receipt(message, size, Truncated(w.a.payload[k], size))])
    case DoRelease(c) =>
      w.(a := Release(w.a, w.callers[c].node), callers := w.callers[c := Idle])
    case DoReset => w.(a := Clear(w.a), deque := [])
  }

  lemma Callers(w: World, r: World, c: nat)
    requires HandsOk(w) && c < |w.callers| == |r.callers| && r.callers == w.callers[c := r.callers[c]]
    requires NodeOf(r.callers[c]) == NodeOf(w.callers[c]) && r.a.hands == w.a.hands
    ensures HandsOk(r)
  {
    forall k | k in r.a.hands ensures exists d :: 0 <= d < |r.callers| && NodeOf(r.callers[d]) == Some(k) {
      var d :| 0 <= d < |w.callers| && NodeOf(w.callers[d]) == Some(k);
      assert NodeOf(r.callers[d]) == Some(k);
    }
  }

  /** A caller takes a node nobody had. */
  lemma CallerTakes(w: World, r: World, c: nat, k: nat)
    requires HandsOk(w) && c < |w.callers| == |r.callers| && r.callers == w.callers[c := r.callers[c]]
    requires w.callers[c].Idle? && NodeOf(r.callers[c]) == Some(k) && k !in w.a.hands && r.a.hands == w.a.hands + {k}
    requires forall d | 0 <= d < |w.callers| :: PcOk(w, d)
    ensures HandsOk(r)
  {
    forall j | j in r.a.hands ensures exists d :: 0 <= d < |r.callers| && NodeOf(r.callers[d]) == Some(j) {
      if j == k { assert NodeOf(r.callers[c]) == Some(j); }
      else {
        var d :| 0 <= d < |w.callers| && NodeOf(w.callers[d]) == Some(j);
        assert NodeOf(r.callers[d]) == Some(j);
      }
    }
    forall d, e | 0 <= d < e < |r.callers| && !r.callers[d].Idle? ensures NodeOf(r.callers[d]) != NodeOf(r.callers[e]) {
      assert PcOk(w, d) && PcOk(w, e);
    }
  }

  /** A caller gives up its node. */
  lemma CallerGives(w: World, r: World, c: nat, k: nat)
    requires HandsOk(w) && c < |w.callers| && r.callers == w.callers[c := Idle]
    requires NodeOf(w.callers[c]) == Some(k) && r.a.hands == w.a.hands - {k}
    ensures HandsOk(r)
    ensures forall d | 0 <= d < |w.callers| && d != c :: NodeOf(w.callers[d]) != Some(k)
  {
    forall j | j in r.a.hands ensures exists d :: 0 <= d < |r.callers| && NodeOf(r.callers[d]) == Some(j) {
      var d :| 0 <= d < |w.callers| && NodeOf(w.callers[d]) == Some(j);
      assert NodeOf(r.callers[d]) == Some(j);
    }
  }

  lemma ReserveStep(w: World, msgSize: nat, ev: Event)
    requires Inv(w) && Enabled(w, msgSize, ev) && ev.DoReserve?
    ensures Inv(Step(w, msgSize, ev))
  {
    var r := Step(w, msgSize, ev);
    ReserveKeeps(w.a);
    assert w.a.free[0] in w.a.free;
    CallerTakes(w, r, ev.c, w.a.free[0]);
    forall c | 0 <= c < |r.callers| ensures PcOk(r, c) { assert PcOk(w, c); }
    hide HandsOk, Partition;
  }

  lemma FillStep(w: World, msgSize: nat, ev: Event)
    requires Inv(w) && Enabled(w, msgSize, ev) && ev.DoFill?
    ensures Inv(Step(w, msgSize, ev))
  {
    var r := Step(w, msgSize, ev);
    var k := w.callers[ev.c].node;
    assert PcOk(w, ev.c);
    Callers(w, r, ev.c);
    assert Partition(r.a);
    forall i | 0 <= i < |r.deque| ensures r.a.msgs[i] < |r.a.payload| && r.deque[i] == r.a.payload[r.a.msgs[i]] {
      assert w.a.msgs[i] in w.a.msgs && w.a.msgs[i] != k;
    }
    forall c | 0 <= c < |r.callers| ensures PcOk(r, c) {
      assert PcOk(w, c);
      if c != ev.c { assert NodeOf(w.callers[c]) != NodeOf(w.callers[ev.c]); }
    }
  }

  lemma LinkStep(w: World, msgSize: nat, ev: Event)
    requires Inv(w) && Enabled(w, msgSize, ev) && ev.DoLink?
    ensures Inv(Step(w, msgSize, ev))
  {
    var r := Step(w, msgSize, ev);
    var k := w.callers[ev.c].node;
    assert PcOk(w, ev.c);
    LinkKeeps(w.a, k, w.callers[ev.c].urgent);
    CallerGives(w, r, ev.c, k);
    LinkRefines(w, k, w.callers[ev.c].urgent, w.callers[ev.c].bytes);
    hide HandsOk, Partition, Refines;
    forall c | 0 <= c < |r.callers| ensures PcOk(r, c) { assert PcOk(w, c); }
  }

  lemma LinkRefines(w: World, k: nat, urgent: bool, bytes: Bytes)
    requires Refines(w) && k < |w.a.payload| && w.a.payload[k] == bytes
    ensures Refines(w.(a := Link(w.a, k, urgent), deque := if urgent then [bytes] + w.deque else w.deque + [bytes]))
  {
    var a, deque := Link(w.a, k, urgent), if urgent then [bytes] + w.deque else w.deque + [bytes];
    forall i | 0 <= i < |deque| ensures a.msgs[i] < |a.payload| && deque[i] == a.payload[a.msgs[i]] {
      var j := if urgent then i - 1 else i;
      if 0 <= j < |w.deque| { assert a.msgs[i] == w.a.msgs[j] && deque[i] == w.deque[j]; }
    }
  }

  lemma UnlinkStep(w: World, msgSize: nat, ev: Event)
    requires Inv(w) && Enabled(w, msgSize, ev) && ev.DoUnlink?
    ensures Inv(Step(w, msgSize, ev))
  {
    var r := Step(w, msgSize, ev);
    UnlinkKeeps(w.a);
    assert w.a.msgs[0] in w.a.msgs;
    CallerTakes(w, r, ev.c, w.a.msgs[0]);
    forall c | 0 <= c < |r.callers| ensures PcOk(r, c) { assert PcOk(w, c); }
    hide HandsOk, Partition;
  }

  lemma CopyStep(w: World, msgSize: nat, ev: Event)
    requires Inv(w) && Enabled(w, msgSize, ev) && ev.DoCopy?
    ensures Inv(Step(w, msgSize, ev))
  {
    var r := Step(w, msgSize, ev);
    assert PcOk(w, ev.c);
    Callers(w, r, ev.c);
    forall c | 0 <= c < |r.callers| ensures PcOk(r, c) { assert PcOk(w, c); }
    hide HandsOk, Partition;
  }

  lemma ReleaseStep(w: World, msgSize: nat, ev: Event)
    requires Inv(w) && Enabled(w, msgSize, ev) && ev.DoRelease?
    ensures Inv(Step(w, msgSize, ev))
  {
    var r := Step(w, msgSize, ev);
    var k := w.callers[ev.c].node;
    assert PcOk(w, ev.c);
    ReleaseKeeps(w.a, k);
    CallerGives(w, r, ev.c, k);
    forall c | 0 <= c < |r.callers| ensures PcOk(r, c) { assert PcOk(w, c); }
    hide HandsOk, Partition;
  }

  /** No critical section breaks the invariant, whatever the other callers are doing. */
  lemma StepKeeps(w: World, msgSize: nat, ev: Event)
    requires Inv(w) && Enabled(w, msgSize, ev)
    ensures Inv(Step(w, msgSize, ev))
  {
    match ev
    case DoReserve(_, _, _) => ReserveStep(w, msgSize, ev);
    case DoFill(_) => FillStep(w, msgSize, ev);
    case DoLink(_) => LinkStep(w, msgSize, ev);
    case DoUnlink(_, _) => UnlinkStep(w, msgSize, ev);
    case DoCopy(_) => CopyStep(w, msgSize, ev);
    case DoRelease(_) => ReleaseStep(w, msgSize, ev);
    case DoReset =>
      ClearKeeps(w.a);
      forall c | 0 <= c < |w.callers| ensures PcOk(Step(w, msgSize, ev), c) { assert PcOk(w, c); }
  }

  // -- Runs -----------------------------------------------------------------------------

  ghost function Start(n: nat, callers: nat, payload: seq<Bytes>): World {
    World(Unused(n, payload), seq(callers, _ => Idle), [], [])
  }

  lemma StartInv(n: nat, callers: nat, payload: seq<Bytes>)
    requires |payload| == n
    ensures Inv(Start(n, callers, payload))
  {
  }

  ghost function Run(n: nat, callers: nat, payload: seq<Bytes>, msgSize: nat, evs: seq<Event>): (r: Option<World>)
    requires |payload| == n
    ensures r.Some? ==> Inv(r.value) && |r.value.callers| == callers && |r.value.a.payload| == n
  {
    if evs == [] then StartInv(n, callers, payload); Some(Start(n, callers, payload))
    else
      var before := Run(n, callers, payload, msgSize, evs[..|evs| - 1]);
      var ev := evs[|evs| - 1];
      if before.None? || !Enabled(before.value, msgSize, ev) then None
      else StepKeeps(before.value, msgSize, ev); Some(Step(before.value, msgSize, ev))
  }

  lemma {:induction false} HandsBound(w: World, c: nat)
    requires c <= |w.callers| && HandsOk(w)
    ensures |set d | 0 <= d < c && !w.callers[d].Idle? :: w.callers[d].node| <= c
  {
    var s := set d | 0 <= d < c && !w.callers[d].Idle? :: w.callers[d].node;
    if c > 0 {
      HandsBound(w, c - 1);
      var t := set d | 0 <= d < c - 1 && !w.callers[d].Idle? :: w.callers[d].node;
      assert s == if w.callers[c - 1].Idle? then t else t + {w.callers[c - 1].node};
    } else {
      assert s == {};
    }
  }

  /** In every reachable state: no node is lost or in two places, at most one node per caller
      is out of both lists, and a send finds the queue full exactly when the messages and
      the nodes in hands are all there are. */
  lemma NodesConserved(n: nat, callers: nat, payload: seq<Bytes>, msgSize: nat, evs: seq<Event>)
    requires |payload| == n && Run(n, callers, payload, msgSize, evs).Some?
    ensures var w := Run(n, callers, payload, msgSize, evs).value;
      && |w.a.free| + |w.deque| + |w.a.hands| == n
      && |w.a.hands| <= callers
      && (w.a.free == [] <==> |w.deque| + |w.a.hands| == n)
      && (forall r | r in w.receipts ::
            r.copied <= r.message && |r.copied| == if |r.message| > r.size then r.size else |r.message|)
  {
    var w := Run(n, callers, payload, msgSize, evs).value;
    NodeCount(w.a);
    HandsBound(w, callers);
    var s := set d | 0 <= d < callers && !w.callers[d].Idle? :: w.callers[d].node;
    forall k | k in w.a.hands ensures k in s {
      var c :| 0 <= c < |w.callers| && NodeOf(w.callers[c]) == Some(k);
    }
    assert forall k | k in s :: k in w.a.hands by {
      forall k | k in s ensures k in w.a.hands {
        var d :| 0 <= d < callers && !w.callers[d].Idle? && w.callers[d].node == k;
        assert PcOk(w, d);
      }
    }
    assert s == w.a.hands;
  }

  // -- Order of delivery ------------------------------------------------------------------

  /** The message a section appends to the queue. */
  ghost function Linked(w: World, ev: Event): seq<Bytes> {
    if ev.DoLink? && ev.c < |w.callers| && w.callers[ev.c].Filled? then [w.callers[ev.c].bytes] else []
  }

  /** The message that a receiver has got hold of in a section. */
  ghost function Fetched(r: World, ev: Event): seq<Bytes> {
    if ev.DoUnlink? && ev.c < |r.callers| && r.callers[ev.c].Unlinked? then [r.callers[ev.c].message] else []
  }

  /** The messages sent and fetched in a run, each in the order of those sections. */
  ghost function History(n: nat, callers: nat, payload: seq<Bytes>, msgSize: nat, evs: seq<Event>): (seq<Bytes>, seq<Bytes>)
    requires |payload| == n && Run(n, callers, payload, msgSize, evs).Some?
  {
    if evs == [] then ([], [])
    else
      var (before, ev) := (evs[..|evs| - 1], evs[|evs| - 1]);
      var (sent, fetched) := History(n, callers, payload, msgSize, before);
      (sent + Linked(Run(n, callers, payload, msgSize, before).value, ev),
       fetched + Fetched(Run(n, callers, payload, msgSize, evs).value, ev))
  }

  /** No urgent message and no reset. */
  predicate Plain(ev: Event) {
    match ev
    case DoReserve(_, _, urgent) => !urgent
    case DoReset => false
    case _ => true
  }

  ghost predicate NoneUrgent(w: World) {
    forall c | 0 <= c < |w.callers| ::
      (w.callers[c].Reserved? ==> !w.callers[c].urgent) && (w.callers[c].Filled? ==> !w.callers[c].urgent)
  }

  lemma QueueNotEmpty(w: World)
    requires Refines(w) && w.a.msgs != []
    ensures w.deque != []
  {
  }

  lemma FifoStep(w: World, msgSize: nat, ev: Event)
    requires Inv(w) && Enabled(w, msgSize, ev) && Plain(ev) && NoneUrgent(w)
    ensures var r := Step(w, msgSize, ev);
      NoneUrgent(r) && Fetched(r, ev) + r.deque == w.deque + Linked(w, ev)
  {
    hide Partition, HandsOk, Refines, PcOk;
    assert w.deque + [] == w.deque && [] + w.deque == w.deque;
    if ev.DoUnlink? {
      QueueNotEmpty(w);
      assert [w.deque[0]] + w.deque[1..] == w.deque;
    }
  }

  lemma HistoryNext(n: nat, callers: nat, payload: seq<Bytes>, msgSize: nat, evs: seq<Event>)
    requires |payload| == n && evs != [] && Run(n, callers, payload, msgSize, evs).Some?
    ensures var (before, ev) := (evs[..|evs| - 1], evs[|evs| - 1]);
      && Run(n, callers, payload, msgSize, before).Some?
      && var (w, r) := (Run(n, callers, payload, msgSize, before).value, Run(n, callers, payload, msgSize, evs).value);
      && Enabled(w, msgSize, ev) && r == Step(w, msgSize, ev)
      && var (sent, fetched) := History(n, callers, payload, msgSize, before);
      History(n, callers, payload, msgSize, evs) == (sent + Linked(w, ev), fetched + Fetched(r, ev))
  {
    hide Inv, Step, Enabled, Linked, Fetched;
  }

  lemma HistoryStart(n: nat, callers: nat, payload: seq<Bytes>, msgSize: nat)
    requires |payload| == n
    ensures Run(n, callers, payload, msgSize, []) == Some(Start(n, callers, payload))
    ensures History(n, callers, payload, msgSize, []) == ([], [])
    ensures NoneUrgent(Start(n, callers, payload)) && Start(n, callers, payload).deque == []
  {
  }

  lemma Joined(fetched: seq<Bytes>, f: seq<Bytes>, after: seq<Bytes>, deque: seq<Bytes>, l: seq<Bytes>)
    requires f + after == deque + l
    ensures (fetched + f) + after == (fetched + deque) + l
  {
    assert (fetched + f) + after == fetched + (f + after);
    assert fetched + (deque + l) == (fetched + deque) + l;
  }

  /** In every interleaving without urgent messages and resets the messages fetched are the
      first ones sent, in order and each once; all later ones are still in the queue, in order. */
  lemma {:induction false} Fifo(n: nat, callers: nat, payload: seq<Bytes>, msgSize: nat, evs: seq<Event>)
    requires |payload| == n && Run(n, callers, payload, msgSize, evs).Some? && forall ev | ev in evs :: Plain(ev)
    ensures var (w, (sent, fetched)) :=
        (Run(n, callers, payload, msgSize, evs).value, History(n, callers, payload, msgSize, evs));
      NoneUrgent(w) && fetched + w.deque == sent
  {
    hide *;
    if evs == [] {
      HistoryStart(n, callers, payload, msgSize);
    } else {
      var before, ev := evs[..|evs| - 1], evs[|evs| - 1];
      HistoryNext(n, callers, payload, msgSize, evs);
      Fifo(n, callers, payload, msgSize, before);
      var w := Run(n, callers, payload, msgSize, before).value;
      var r := Run(n, callers, payload, msgSize, evs).value;
      FifoStep(w, msgSize, ev);
      Joined(History(n, callers, payload, msgSize, before).1, Fetched(r, ev), r.deque, w.deque, Linked(w, ev));
    }
  }
}
