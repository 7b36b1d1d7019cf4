/** The message queue of rt-thread/src/ipc.c on its linked nodes, one method per critical
    section; None is a NULL pointer. */
module MessageQueue {
  import opened Align
  import opened Chains
  import opened MessageNodes
  import opened Octets
  import opened Options
  import opened Seqs

  // RT_MQ_ENTRY_MAX; also the largest value of the 16-bit fields.
  const ENTRY_MAX: nat := 0xffff

  /** BLOCKED is a caller that suspends; it comes back to the same test once woken. */
  datatype Err = OK | ERROR | EFULL | ETIMEOUT | EINVAL | BLOCKED

  function Last(s: seq<nat>): Option<nat> {
    if s == [] then None else Some(s[|s| - 1])
  }

  lemma LastIsTail(s: seq<nat>)
    requires Distinct(s) && s != []
    ensures Last(s) == Some(s[0]) <==> s[1..] == []
    ensures s[1..] != [] ==> Last(s[1..]) == Last(s)
  {
  }

  lemma {:induction false} ReverseNext(s: seq<nat>, i: nat)
    requires i < |s|
    ensures Reverse(s[..i + 1]) == [s[i]] + Reverse(s[..i])
  {
    if i > 0 {
      ReverseNext(s[1..], i - 1);
      assert s[..i + 1][1..] == s[1..][..i] && s[..i][1..] == s[1..][..i - 1];
    }
  }

  /** One message goes to the free list. */
  ghost function FirstFreed(a: Nodes): Nodes
    requires a.msgs != []
  {
    a.(msgs := a.msgs[1..], free := [a.msgs[0]] + a.free)
  }

  /** Reset after i rounds. */
  ghost function AfterReset(a: Nodes, i: nat): (r: Nodes)
    requires i <= |a.msgs|
    ensures |r.msgs| == |a.msgs| - i
  {
    if i == 0 then a else FirstFreed(AfterReset(a, i - 1))
  }

  lemma {:induction false} AfterResetIs(a: Nodes, i: nat)
    requires i <= |a.msgs|
    ensures AfterReset(a, i) == a.(msgs := a.msgs[i..], free := Reverse(a.msgs[..i]) + a.free)
  {
    if i == 0 {
      assert a.msgs[0..] == a.msgs && Reverse(a.msgs[..0]) + a.free == a.free;
    } else {
      AfterResetIs(a, i - 1);
      ReverseNext(a.msgs, i - 1);
      var k, r := a.msgs[i - 1], Reverse(a.msgs[..i - 1]);
      assert a.msgs[i - 1..][1..] == a.msgs[i..] && [k] + (r + a.free) == ([k] + r) + a.free;
      hide Reverse;
    }
  }

  /** The message a node holds. */
  function Message(data: Bytes, length: nat): Bytes {
    if length <= |data| then data[..length] else data
  }

  /** What rt_mq_recv copies into a buffer of this size. */
  function Truncated(message: Bytes, size: nat): Bytes {
    if |message| > size then message[..size] else message
  }

  /** The copy is the longest beginning of the message that fits the buffer. */
  lemma TruncatedIsPrefix(message: Bytes, size: nat)
    ensures var r := Truncated(message, size);
      r <= message && |r| <= size && forall x: Bytes :: x <= message && |x| <= size ==> |x| <= |r|
  {
  }

  /** A node has room for the largest message a send accepts exactly when RT_ALIGN did not
      wrap on the size given to rt_mq_init. */
  lemma NodeHoldsMessageIff(msgSize: nat, align: nat)
    requires 0 < align <= ENTRY_MAX && msgSize < WORD
    ensures msgSize % (ENTRY_MAX + 1) <= RtAlign(msgSize, align) <==> msgSize <= WORD - align
  {
    if msgSize <= WORD - align {
      RtAlignIsCeiling(msgSize, align);
    } else {
      RtAlignWraps(msgSize, align);
      assert msgSize - (WORD - ENTRY_MAX - 1) == msgSize % (ENTRY_MAX + 1);
    }
  }

  /** For every such size nodes have no payload at all, and messages of more bytes are accepted. */
  lemma NodeTooSmall(msgSize: nat, align: nat)
    requires 0 < align <= ENTRY_MAX && WORD - align < msgSize < WORD
    ensures RtAlign(msgSize, align) == 0 && msgSize % (ENTRY_MAX + 1) > ENTRY_MAX - align
  {
    RtAlignWraps(msgSize, align);
    assert msgSize - (WORD - ENTRY_MAX - 1) == msgSize % (ENTRY_MAX + 1);
  }

  /** All nodes free, the last one first. */
  ghost function Unused(n: nat, payload: seq<Bytes>): Nodes {
    Nodes(Down(n), [], {}, {}, payload)
  }

  class Queue {
    const maxMsgs: nat
    const msgSize: nat
    const next: array<Option<nat>>
    const length: array<nat>
    const data: array<Bytes>
    var head: Option<nat>
    var tail: Option<nat>
    var free: Option<nat>
    var entry: nat
    ghost var nodes: Nodes

    ghost predicate Arrays()
      reads this`nodes, data
    {
      && 0 < maxMsgs <= ENTRY_MAX
      && next.Length == length.Length == data.Length == |nodes.payload| == maxMsgs
      && (next as object) !in {length as object, data} && (length as object) != data
      && (forall k | 0 <= k < maxMsgs :: msgSize <= |data[k]|)
    }

    ghost predicate Linked()
      requires Arrays()
      reads this`head, this`tail, this`free, this`nodes, next, data
    {
      && Partition(nodes)
      && Chain(next[..], nodes.free) && Chain(next[..], nodes.msgs)
      && free == Head(nodes.free) && head == Head(nodes.msgs) && tail == Last(nodes.msgs)
      && (forall k | k in nodes.ended :: next[k] == None)
    }

    ghost predicate Messages()
      requires Arrays()
      reads this`nodes, length, data
    {
      && (forall k | 0 <= k < maxMsgs :: nodes.payload[k] == Message(data[k], length[k]))
      && (forall k | k in nodes.msgs && k < maxMsgs :: length[k] <= |data[k]|)
    }

    /** All of it but the entry count. */
    ghost predicate Sound()
      reads this`head, this`tail, this`free, this`nodes, next, length, data
    {
      var sound := Arrays() && Linked() && Messages();
      sound
    }

    /** The linked lists and the node contents are what `nodes` says. */
    ghost predicate Valid()
      reads this, next, length, data
    {
      Sound() && entry == |nodes.msgs|
    }

    /** The loop of rt_mq_init. Every node has room for `capacity` bytes; what they and the
        lengths are at first is left open. */
    constructor (maxMsgs: nat, msgSize: nat, capacity: nat)
      requires 0 < maxMsgs <= ENTRY_MAX && msgSize <= capacity
      ensures Valid() && this.maxMsgs == maxMsgs && this.msgSize == msgSize
      ensures nodes == Unused(maxMsgs, nodes.payload)
    {
      this.maxMsgs, this.msgSize := maxMsgs, msgSize;
      next, length := new Option<nat>[maxMsgs], new nat[maxMsgs];
      data := new Bytes[maxMsgs](_ => seq(capacity, _ => 0));
      head, tail, free := None, None, None;
      entry := 0;
      new;
      var temp := 0;
      while temp < maxMsgs
        invariant temp <= maxMsgs && head == tail == None && entry == 0
        invariant Chain(next[..], Down(temp)) && free == Head(Down(temp))
        modifies this`free, next
      {
        ChainPrepend(next[..], Down(temp), temp);
        next[temp] := free;
        free := Some(temp);
        temp := temp + 1;
      }
      nodes := Unused(maxMsgs, seq(maxMsgs, k requires 0 <= k < maxMsgs reads length, data =>
        Message(data[k], length[k])));
    }

    /** rt_mq_init: the size is cut to 16 bits and so is the number of messages, and a queue
        with no message is refused. `header` is the size of a node's link and length. */
    static method Init(msgSize: nat, poolSize: nat, align: nat, header: nat) returns (e: Err, q: Queue?)
      requires 0 < align <= WORD && 0 < header && msgSize <= WORD - align && RtAlign(msgSize, align) + header < WORD
      ensures var max := (poolSize / (RtAlign(msgSize, align) + header)) % (ENTRY_MAX + 1);
        if max == 0 then e == EINVAL && q == null
        else e == OK && q != null && fresh(q) && q.Valid() && q.maxMsgs == max
             && q.msgSize == msgSize % (ENTRY_MAX + 1) && q.nodes == Unused(max, q.nodes.payload)
    {
      RtAlignIsCeiling(msgSize, align);
      var capacity := RtAlign(msgSize, align);
      var max := (poolSize / (capacity + header)) % (ENTRY_MAX + 1);
      if max == 0 {
        return EINVAL, null;
      }
      q := new Queue(max, msgSize % (ENTRY_MAX + 1), capacity);
      return OK, q;
    }

    /** The first section of a send. rt_mq_urgent is the same with no waiting. */
    method SendReserve(size: nat, timeout: int) returns (e: Err, msg: nat)
      requires Valid()
      modifies this`free, this`nodes
      ensures Valid()
      ensures e == ERROR <==> size > msgSize
      ensures e == EFULL || e == BLOCKED <==> size <= msgSize && old(nodes).free == []
      ensures e == EFULL ==> timeout == 0
      ensures if e == OK then old(nodes).free != [] && msg == old(nodes).free[0] && nodes == Reserve(old(nodes))
              else nodes == old(nodes)
    {
      msg := 0;
      if size > msgSize {
        return ERROR, msg;
      }
      if free == None {
        return if timeout == 0 then EFULL else BLOCKED, msg;
      }
      ReserveKeeps(nodes);
      ChainTail(next[..], nodes.free);
      msg := free.value;
      free := next[msg];
      nodes := Reserve(nodes);
      return OK, msg;
    }

    /** What the sender does with its node while the queue is unlocked. */
    method SendFill(msg: nat, buffer: Bytes, urgent: bool)
      requires Valid() && msg in nodes.hands && |buffer| <= msgSize
      modifies this`nodes, next, length, data
      ensures Valid() && length[msg] == |buffer| <= |data[msg]|
      ensures nodes == Fill(old(nodes), msg, buffer, urgent)
      ensures forall k | 0 <= k < maxMsgs && k != msg ::
                length[k] == old(length[k]) && data[k] == old(data[k]) && next[k] == old(next[k])
    {
      if !urgent {
        ChainFrame(next[..], nodes.free, msg, None);
        ChainFrame(next[..], nodes.msgs, msg, None);
        next[msg] := None;
      }
      length[msg] := |buffer|;
      data[msg] := buffer + data[msg][|buffer|..];
      nodes := Fill(nodes, msg, buffer, urgent);
    }

    /** The overflow test behind both links. */
    method AddEntry() returns (e: Err)
      modifies this`entry
      ensures if old(entry) < ENTRY_MAX then e == OK && entry == old(entry) + 1 else e == EFULL && entry == old(entry)
    {
      if entry < ENTRY_MAX {
        entry := entry + 1;
      } else {
        return EFULL;
      }
      return OK;
    }

    lemma RoomLeft(msg: nat)
      requires Valid() && msg in nodes.hands
      ensures entry < ENTRY_MAX && msg < maxMsgs && msg !in nodes.msgs && msg !in nodes.free
    {
      NodeCount(nodes);
    }

    /** The second section of rt_mq_send. Its overflow return is never taken. */
    method LinkTail(msg: nat) returns (e: Err)
      requires Valid() && msg in nodes.ended && msg < maxMsgs && length[msg] <= |data[msg]|
      modifies this`head, this`tail, this`entry, this`nodes, next
      ensures Valid() && e == OK && nodes == Link(old(nodes), msg, false)
    {
      RoomLeft(msg);
      LinkKeeps(nodes, msg, false);
      ChainAppend(next[..], nodes.msgs, msg);
      if tail != None {
        ChainFrame(next[..], nodes.free, tail.value, Some(msg));
        next[tail.value] := Some(msg);
      }
      tail := Some(msg);
      if head == None {
        head := Some(msg);
      }
      e := AddEntry();
      nodes := Link(nodes, msg, false);
    }

    /** The second section of rt_mq_urgent. */
    method LinkHead(msg: nat) returns (e: Err)
      requires Valid() && msg in nodes.hands && msg < maxMsgs && length[msg] <= |data[msg]|
      modifies this`head, this`tail, this`entry, this`nodes, next
      ensures Valid() && e == OK && nodes == Link(old(nodes), msg, true)
    {
      RoomLeft(msg);
      LinkKeeps(nodes, msg, true);
      ChainPrepend(next[..], nodes.msgs, msg);
      ChainFrame(next[..], nodes.free, msg, head);
      next[msg] := head;
      head := Some(msg);
      if tail == None {
        tail := Some(msg);
      }
      e := AddEntry();
      nodes := Link(nodes, msg, true);
    }

    /** The first section of rt_mq_recv. */
    method RecvUnlink(timeout: int) returns (e: Err, msg: nat)
      requires Valid()
      modifies this`head, this`tail, this`entry, this`nodes
      ensures Valid()
      ensures old(nodes).msgs == [] ==> e == (if timeout == 0 then ETIMEOUT else BLOCKED) && nodes == old(nodes)
      ensures old(nodes).msgs != [] ==>
        && e == OK && msg == old(nodes).msgs[0] && nodes == Unlink(old(nodes))
        && msg < maxMsgs && length[msg] <= |data[msg]|
    {
      msg := 0;
      if entry == 0 {
        return if timeout == 0 then ETIMEOUT else BLOCKED, msg;
      }
      UnlinkKeeps(nodes);
      ChainTail(next[..], nodes.msgs);
      assert nodes.msgs[0] in nodes.msgs;
      msg := head.value;
      LastIsTail(nodes.msgs);
      head := next[msg];
      if tail == Some(msg) {
        tail := None;
      }
      if entry > 0 {
        entry := entry - 1;
      }
      nodes := Unlink(nodes);
      return OK, msg;
    }

    /** What the receiver does with its node while the queue is unlocked. */
    method RecvCopy(msg: nat, size: nat) returns (buffer: Bytes)
      requires Valid() && msg in nodes.hands && msg < maxMsgs && length[msg] <= |data[msg]|
      ensures buffer == Truncated(nodes.payload[msg], size)
    {
      var len := length[msg];
      if len > size {
        len := size;
      }
      buffer := data[msg][..len];
    }

    /** The second section of rt_mq_recv. */
    method RecvRelease(msg: nat)
      requires Valid() && msg in nodes.hands
      modifies this`free, this`nodes, next
      ensures Valid() && nodes == Release(old(nodes), msg)
    {
      ReleaseKeeps(nodes, msg);
      ChainPrepend(next[..], nodes.free, msg);
      ChainFrame(next[..], nodes.msgs, msg, free);
      next[msg] := free;
      free := Some(msg);
      nodes := Release(nodes, msg);
    }

    lemma HeadIsFirst()
      requires Sound()
      ensures head == Head(nodes.msgs)
    {
    }

    /** One round of the loop below; the entry count is not touched. */
    method ResetOne()
      requires Sound() && nodes.msgs != []
      modifies this`head, this`tail, this`free, this`nodes, next
      ensures Sound()
      ensures nodes == FirstFreed(old(nodes))
    {
      ghost var taken := Unlink(nodes);
      UnlinkKeeps(nodes);
      ChainTail(next[..], nodes.msgs);
      LastIsTail(nodes.msgs);
      assert nodes.msgs[0] in nodes.msgs;
      var msg := head.value;
      head := next[msg];
      if tail == Some(msg) {
        tail := None;
      }
      ReleaseKeeps(taken, msg);
      ChainPrepend(next[..], taken.free, msg);
      ChainFrame(next[..], taken.msgs, msg, free);
      next[msg] := free;
      free := Some(msg);
      assert taken.hands - {msg} == nodes.hands && taken.ended - {msg} == nodes.ended;
      nodes := Release(taken, msg);
    }

    /** The loop of rt_mq_control with RT_IPC_CMD_RESET. */
    method Drain()
      requires Sound()
      modifies this`head, this`tail, this`free, this`nodes, next
      ensures Sound() && nodes == Clear(old(nodes))
    {
      ghost var was, i: nat := nodes, 0;
      HeadIsFirst();
      hide Sound, FirstFreed;
      while head != None
        invariant Sound() && head == Head(nodes.msgs) && i <= |was.msgs| && nodes == AfterReset(was, i)
        decreases |nodes.msgs|
      {
        ResetOne();
        HeadIsFirst();
        i := i + 1;
      }
      AfterResetIs(was, i);
      assert was.msgs[..i] == was.msgs && was.msgs[i..] == [];
    }

    /** rt_mq_control with RT_IPC_CMD_RESET */
    method Reset()
      requires Valid()
      modifies this`head, this`tail, this`free, this`entry, this`nodes, next
      ensures Valid() && nodes == Clear(old(nodes))
    {
      Drain();
      entry := 0;
      hide Sound;
    }
  }
}
