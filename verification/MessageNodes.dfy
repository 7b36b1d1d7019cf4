/** The nodes of a message queue of rt-thread/src/ipc.c as values, what each critical section
    does to them, and every interleaving of those sections. The queue drops its lock while a
    message is copied, so nodes are also in the hands of senders and receivers. */
module MessageNodes {
  import opened Octets
  import opened Seqs

  /** free and msgs are the two linked lists, hands the nodes between them, ended those in a
      sender's hand whose next link is NULL, payload[k] the message in node k. */
  datatype Nodes = Nodes(free: seq<nat>, msgs: seq<nat>, hands: set<nat>, ended: set<nat>, payload: seq<Bytes>)

  /** Every node is in exactly one place, once. */
  ghost predicate Partition(a: Nodes) {
    && Distinct(a.free) && Distinct(a.msgs) && a.ended <= a.hands
    && (forall k :: k in a.free ==> k !in a.msgs && k !in a.hands)
    && (forall k :: k in a.msgs ==> k !in a.hands)
    && (forall k: nat :: k < |a.payload| <==> k in a.free || k in a.msgs || k in a.hands)
  }

  /** A sender takes the first free node. */
  function Reserve(a: Nodes): Nodes
    requires a.free != []
  {
    a.(free := a.free[1..], hands := a.hands + {a.free[0]})
  }

  /** It copies its message in; rt_mq_send also ends the node's next link. */
  function Fill(a: Nodes, k: nat, bytes: Bytes, urgent: bool): Nodes
    requires k < |a.payload|
  {
    a.(payload := a.payload[k := bytes], ended := if urgent then a.ended else a.ended + {k})
  }

  /** It links the node at the tail, or at the head. */
  function Link(a: Nodes, k: nat, urgent: bool): Nodes {
    a.(msgs := if urgent then [k] + a.msgs else a.msgs + [k], hands := a.hands - {k}, ended := a.ended - {k})
  }

  /** A receiver takes the first message. */
  function Unlink(a: Nodes): Nodes
    requires a.msgs != []
  {
    a.(msgs := a.msgs[1..], hands := a.hands + {a.msgs[0]})
  }

  /** It gives the node back when it has copied the message out. */
  function Release(a: Nodes, k: nat): Nodes {
    a.(free := [k] + a.free, hands := a.hands - {k}, ended := a.ended - {k})
  }

  function Reverse(s: seq<nat>): (r: seq<nat>)
    ensures |r| == |s| && forall k :: k in r <==> k in s
    ensures Distinct(s) ==> Distinct(r)
  {
    if s == [] then [] else
      var r := Reverse(s[1..]);
      assert forall k :: k in s <==> k == s[0] || k in s[1..];
      assert Distinct(s) ==> s[0] !in s[1..];
      r + [s[0]]
  }

  /** Reset gives all messages back. */
  function Clear(a: Nodes): Nodes {
    a.(msgs := [], free := Reverse(a.msgs) + a.free)
  }

  /** n - 1, ..., 0 */
  function Down(n: nat): (s: seq<nat>)
    ensures |s| == n && Distinct(s) && forall k: nat :: k in s <==> k < n
  {
    if n == 0 then []
    else
      var r := Down(n - 1);
      assert forall i | 0 <= i < |r| :: r[i] in r;
      [n - 1] + r
  }

  lemma ReserveKeeps(a: Nodes)
    requires Partition(a) && a.free != []
    ensures Partition(Reserve(a)) && a.free[0] < |a.payload|
  {
  }

  lemma LinkKeeps(a: Nodes, k: nat, urgent: bool)
    requires Partition(a) && k in a.hands
    ensures Partition(Link(a, k, urgent))
  {
  }

  lemma UnlinkKeeps(a: Nodes)
    requires Partition(a) && a.msgs != []
    ensures Partition(Unlink(a)) && a.msgs[0] < |a.payload|
  {
  }

  lemma ReleaseKeeps(a: Nodes, k: nat)
    requires Partition(a) && k in a.hands
    ensures Partition(Release(a, k))
  {
  }

  lemma ClearKeeps(a: Nodes)
    requires Partition(a)
    ensures Partition(Clear(a))
  {
    var r := Reverse(a.msgs);
    DistinctConcat(r, a.free);
  }

  lemma DistinctConcat(s: seq<nat>, t: seq<nat>)
    requires Distinct(s) && Distinct(t) && forall k | k in s :: k !in t
    ensures Distinct(s + t)
  {
    var r := s + t;
    forall i, j | 0 <= i < j < |r| ensures r[i] != r[j] {
      if i < |s| <= j { assert s[i] in s && t[j - |s|] in t; }
    }
  }

  ghost function Elements(s: seq<nat>): set<nat> {
    set k | k in s
  }

  lemma {:induction false} DistinctCount(s: seq<nat>)
    requires Distinct(s)
    ensures |Elements(s)| == |s|
  {
    if s != [] {
      DistinctCount(s[1..]);
      assert Elements(s) == Elements(s[1..]) + {s[0]};
    } else {
      assert Elements(s) == {};
    }
  }

  /** The node numbers below n. */
  ghost function Below(n: nat): (r: set<nat>)
    ensures (forall k: nat :: k in r <==> k < n) && |r| == n
  {
    if n == 0 then {} else Below(n - 1) + {n - 1}
  }

  /** Node conservation in numbers. */
  lemma NodeCount(a: Nodes)
    requires Partition(a)
    ensures |a.free| + |a.msgs| + |a.hands| == |a.payload|
  {
    DistinctCount(a.free);
    DistinctCount(a.msgs);
    var f, m := Elements(a.free), Elements(a.msgs);
    assert Below(|a.payload|) == f + m + a.hands;
    assert f !! m && (f + m) !! a.hands;
  }
}
