/** The circular doubly linked list of rt-thread/include/rtservice.h and the suspend list of
    rt-thread/src/ipc.c built on it. */
module WaitList {
  import opened PrioOrder

  /** A list node; `prio` is the current priority of the thread it is embedded in. */
  class Node {
    var next: Node
    var prev: Node
    var prio: nat

    /** rt_list_init */
    constructor (p: nat)
      ensures next == prev == this && prio == p
    {
      next, prev, prio := this, this, p;
    }
  }

  /** Position 0 and position |s| + 1 are the list head, the nodes in between are s. */
  ghost function At(l: Node, s: seq<Node>, i: nat): Node
    requires i <= |s| + 1
  {
    if i == 0 || i == |s| + 1 then l else s[i - 1]
  }

  ghost predicate Joined(l: Node, s: seq<Node>, i: nat)
    requires i <= |s|
    reads l, s
  {
    At(l, s, i).next == At(l, s, i + 1) && At(l, s, i + 1).prev == At(l, s, i)
  }

  ghost predicate Distinct(l: Node, s: seq<Node>) {
    l !in s && forall i, j | 0 <= i < j < |s| :: s[i] != s[j]
  }

  /** The list headed by l holds exactly the nodes s, linked both ways. */
  ghost predicate Ring(l: Node, s: seq<Node>)
    reads l, s
  {
    Distinct(l, s) && forall i | 0 <= i <= |s| :: Joined(l, s, i)
  }

  ghost function Prios(s: seq<Node>): (ps: seq<nat>)
    reads s
    ensures |ps| == |s|
  {
    seq(|s|, i requires 0 <= i < |s| reads s => s[i].prio)
  }

  /** rt_list_insert_before: n goes in front of the node at position i. */
  method InsertBefore(l: Node, n: Node, ghost head: Node, ghost s: seq<Node>, ghost i: nat)
    requires Ring(head, s) && 1 <= i <= |s| + 1 && l == At(head, s, i)
    requires n != head && n !in s
    modifies {head, n} + (set x | x in s)
    ensures Ring(head, InsertAt(s, i - 1, n))
    ensures n.prio == old(n.prio) && forall x | x in s :: x.prio == old(x.prio)
  {
    assert Joined(head, s, i - 1);
    l.prev.next := n;
    n.prev := l.prev;
    l.prev := n;
    n.next := l;
    ghost var r := InsertAt(s, i - 1, n);
    forall j | 0 <= j <= |r|
      ensures Joined(head, r, j)
    {
      var k := if j < i then j else j - 1;
      assert old(Joined(head, s, k));
    }
  }

  /** rt_list_insert_after: n goes behind the node at position i. */
  method InsertAfter(l: Node, n: Node, ghost head: Node, ghost s: seq<Node>, ghost i: nat)
    requires Ring(head, s) && i <= |s| && l == At(head, s, i)
    requires n != head && n !in s
    modifies {head, n} + (set x | x in s)
    ensures Ring(head, InsertAt(s, i, n))
    ensures n.prio == old(n.prio) && forall x | x in s :: x.prio == old(x.prio)
  {
    assert Joined(head, s, i);
    l.next.prev := n;
    n.next := l.next;
    l.next := n;
    n.prev := l;
    ghost var r := InsertAt(s, i, n);
    forall j | 0 <= j <= |r|
      ensures Joined(head, r, j)
    {
      var k := if j <= i then j else j - 1;
      assert old(Joined(head, s, k));
    }
  }

  /** rt_list_remove of the i-th node; the removed node becomes a list of its own. */
  method Remove(n: Node, ghost head: Node, ghost s: seq<Node>, ghost i: nat)
    requires Ring(head, s) && i < |s| && n == s[i]
    modifies {head} + (set x | x in s)
    ensures Ring(head, s[..i] + s[i + 1..]) && Ring(n, [])
    ensures forall x | x in s :: x.prio == old(x.prio)
  {
    assert Joined(head, s, i) && Joined(head, s, i + 1);
    n.next.prev := n.prev;
    n.prev.next := n.next;
    n.next := n;
    n.prev := n;
    ghost var r := s[..i] + s[i + 1..];
    forall j | 0 <= j <= |r|
      ensures Joined(head, r, j)
    {
      assert j != i ==> old(Joined(head, s, if j < i then j else j + 1));
    }
    assert Joined(n, [], 0);
  }

  datatype Policy = Fifo | Prio

  /** rt_susp_list_enqueue */
  method Enqueue(head: Node, thread: Node, policy: Policy, ghost s: seq<Node>)
    requires Ring(head, s) && thread != head && thread !in s
    modifies {head, thread} + (set x | x in s)
    ensures Ring(head, InsertAt(s, if policy.Fifo? then |s| else Slot(old(Prios(s)), old(thread.prio)), thread))
    ensures thread.prio == old(thread.prio) && forall x | x in s :: x.prio == old(x.prio)
  {
    if policy.Fifo? {
      InsertBefore(head, thread, head, s, |s| + 1);
      return;
    }
    assert Joined(head, s, 0);
    var n := head.next;
    ghost var k := 0;
    while n != head
      invariant k <= |s| && n == At(head, s, k + 1)
      invariant forall i | 0 <= i < k :: s[i].prio <= thread.prio
      decreases |s| - k
    {
      assert k < |s|;
      if thread.prio < n.prio {
        break;
      }
      assert Joined(head, s, k + 1);
      n := n.next;
      k := k + 1;
    }
    SlotUnique(Prios(s), thread.prio, k);
    // Before the thread found, or before the head when the loop ran off the end.
    InsertBefore(n, thread, head, s, k + 1);
  }

  lemma FirstRemoved(s: seq<Node>)
    requires s != []
    ensures s[..0] + s[0 + 1..] == s[1..]
  {
  }

  /** rt_susp_list_dequeue; `ready` is the answer of rt_sched_thread_ready, which takes the
      thread off the list when it succeeds. */
  method Dequeue(head: Node, ready: bool, ghost s: seq<Node>) returns (thread: Node?)
    requires Ring(head, s)
    modifies {head} + (set x | x in s)
    ensures if s == [] || !ready then thread == null && Ring(head, s) else thread == s[0] && Ring(head, s[1..])
    ensures forall x | x in s :: x.prio == old(x.prio)
  {
    assert Joined(head, s, 0);
    thread := null;
    if head.next != head {
      assert s != [];
      if ready {
        thread := head.next;
        FirstRemoved(s);
        Remove(thread, head, s, 0);
      }
    }
  }

  /** rt_list_len */
  method Length(head: Node, ghost s: seq<Node>) returns (len: nat)
    requires Ring(head, s)
    ensures len == |s|
  {
    var p := head;
    len := 0;
    assert Joined(head, s, 0);
    while p.next != head
      invariant len <= |s| && p == At(head, s, len) && p.next == At(head, s, len + 1)
      decreases |s| - len
    {
      p := p.next;
      len := len + 1;
      assert Joined(head, s, len);
    }
  }

  /** Enqueueing by priority keeps the list sorted with FIFO order among equals. */
  lemma EnqueueSorted(s: seq<Node>, thread: Node)
    requires Sorted(Prios(s))
    ensures var k := Slot(Prios(s), thread.prio);
      && Sorted(Prios(InsertAt(s, k, thread)))
      && forall i | 0 <= i < |s| :: i < k <==> s[i].prio <= thread.prio
  {
    var k := Slot(Prios(s), thread.prio);
    SlotKeepsSorted(Prios(s), thread.prio);
    assert Prios(InsertAt(s, k, thread)) == InsertAt(Prios(s), k, thread.prio);
    assert forall i | 0 <= i < |s| :: Prios(s)[i] == s[i].prio;
  }
}
