/** The fixed-block pool of rt-thread/src/mempool.c. Each block has a pointer in front of it:
    the next free block while it is free, its pool while it is allocated. */
module MemPool {
  import opened Align
  import opened Chains
  import opened Options
  import opened Seqs

  datatype Link = Next(block: Option<nat>) | Owner(pool: Pool)

  /** The pointers in front of the blocks, block_list, block_free_count and the threads
      waiting for a block. */
  datatype State = State(links: seq<Link>, list: Option<nat>, count: nat, waiters: seq<nat>)

  function NextOf(link: Link): Option<nat> {
    if link.Next? then link.block else None
  }

  function Nexts(links: seq<Link>): (r: seq<Option<nat>>)
    ensures |r| == |links| && forall k | 0 <= k < |links| :: r[k] == NextOf(links[k])
  {
    seq(|links|, k requires 0 <= k < |links| => NextOf(links[k]))
  }

  /** The free list is the chain `free` without repetition and its length is counted; every
      block is either on it or names its pool. */
  ghost predicate Partition(s: State, p: Pool, free: seq<nat>) {
    && Distinct(free) && s.list == Head(free) && s.count == |free|
    && Chain(Nexts(s.links), free)
    && (forall k: nat | k < |s.links| :: if k in free then s.links[k].Next? else s.links[k] == Owner(p))
  }

  /** rt_mp_alloc when a block is free. */
  function Taken(s: State, p: Pool): State
    requires s.list.Some? && s.list.value < |s.links| && s.count > 0
  {
    var k := s.list.value;
    s.(links := s.links[k := Owner(p)], list := NextOf(s.links[k]), count := s.count - 1)
  }

  /** rt_mp_free. The first waiter leaves the list if it can be made `ready`; one whose
      timeout has just fired cannot. */
  function Returned(s: State, k: nat, ready: bool): State
    requires k < |s.links|
  {
    s.(links := s.links[k := Next(s.list)], list := Some(k), count := s.count + 1,
       waiters := if s.waiters == [] || !ready then s.waiters else s.waiters[1..])
  }

  lemma ListInRange(s: State, p: Pool, free: seq<nat>)
    requires Partition(s, p, free)
    ensures s.count > 0 <==> s.list.Some?
    ensures s.list.Some? ==> s.list.value < |s.links| && s.list.value in free && s.links[s.list.value].Next?
  {
    if free != [] { assert LinkedAt(Nexts(s.links), free, 0); }
  }

  /** Allocation takes the first free block; no other block is touched. */
  lemma TakenKeeps(s: State, p: Pool, free: seq<nat>)
    requires Partition(s, p, free) && s.count > 0
    ensures s.list == Some(free[0]) && free[0] < |s.links| && Partition(Taken(s, p), p, free[1..])
  {
    ListInRange(s, p, free);
    var r, k := Taken(s, p), free[0];
    ChainTail(Nexts(s.links), free);
    assert forall x :: x in free <==> x == k || x in free[1..];
    ChainFrame(Nexts(s.links), free[1..], k, None);
    assert Nexts(r.links) == Nexts(s.links)[k := None];
    hide Chain;
  }

  /** An allocated block goes back to the front. */
  lemma ReturnedKeeps(s: State, p: Pool, free: seq<nat>, k: nat, ready: bool)
    requires Partition(s, p, free) && k < |s.links| && k !in free
    ensures Partition(Returned(s, k, ready), p, [k] + free)
  {
    var r := Returned(s, k, ready);
    ChainPrepend(Nexts(s.links), free, k);
    assert Nexts(r.links) == Nexts(s.links)[k := Head(free)];
    hide Chain;
  }

  /** A free resumes the first waiter exactly if there is one and it can be made ready. */
  lemma ReturnedWakes(s: State, k: nat, ready: bool)
    requires k < |s.links|
    ensures var r := Returned(s, k, ready);
      if s.waiters != [] && ready then s.waiters == [s.waiters[0]] + r.waiters else r.waiters == s.waiters
  {
  }

  /** Freeing the block just allocated restores every pointer, the list and the count. */
  lemma RoundTrip(s: State, p: Pool, free: seq<nat>, ready: bool)
    requires Partition(s, p, free) && s.count > 0 && s.waiters == []
    ensures s.list.Some? && s.list.value < |s.links| && Returned(Taken(s, p), s.list.value, ready) == s
  {
    ListInRange(s, p, free);
    var k := s.list.value;
    assert s.links[k := Owner(p)][k := Next(NextOf(s.links[k]))] == s.links;
  }

  /** 0, ..., n - 1 */
  ghost function UpTo(n: nat): (r: seq<nat>)
    ensures |r| == n && forall k | 0 <= k < n :: r[k] == k
  {
    seq(n, k => k)
  }

  /** What rt_mp_init writes is the list of all blocks in order. */
  lemma StartKeeps(s: State, p: Pool, n: nat)
    requires 0 < n == |s.links| && s.list == Some(0) && s.count == n
    requires forall k | 0 <= k < n :: s.links[k] == Next(if k + 1 < n then Some(k + 1) else None)
    ensures Partition(s, p, UpTo(n))
  {
    var free := UpTo(n);
    forall i | 0 <= i < n ensures LinkedAt(Nexts(s.links), free, i) {
      assert i < n - 1 ==> free[i + 1..][0] == free[i + 1];
    }
    forall k: nat | k < |s.links| ensures k in free { assert free[k] == k; }
    assert Distinct(free);
  }

  /** The blocks of a pool lie one after the other inside the memory it was given, and behind
      its pointer each is as large as asked for exactly when RT_ALIGN did not wrap. */
  lemma BlocksFit(size: nat, blockSize: nat, align: nat, pointer: nat, k: nat)
    requires 0 < align <= WORD && 0 < pointer && blockSize < WORD
    requires k < Blocks(size, blockSize, align, pointer)
    ensures var stride := RtAlign(blockSize, align) + pointer;
      k * stride + stride <= size && (pointer + blockSize <= stride <==> blockSize <= WORD - align)
  {
    if blockSize <= WORD - align { RtAlignIsCeiling(blockSize, align); }
    else { RtAlignWraps(blockSize, align); }
    SlotsFit(RtAlignDown(size, align), RtAlign(blockSize, align) + pointer, k);
  }

  /** block_total_count */
  function Blocks(size: nat, blockSize: nat, align: nat, pointer: nat): nat
    requires 0 < align && 0 < pointer
  {
    RtAlignDown(size, align) / (RtAlign(blockSize, align) + pointer)
  }

  /** For every such size the pool has a block for each pointer that fits, with no room behind it. */
  lemma BlockTooSmall(size: nat, blockSize: nat, align: nat, pointer: nat)
    requires 0 < align <= WORD && 0 < pointer && WORD - align < blockSize < WORD
    ensures RtAlign(blockSize, align) == 0
    ensures Blocks(size, blockSize, align, pointer) == RtAlignDown(size, align) / pointer
  {
    RtAlignWraps(blockSize, align);
  }

  class Pool {
    const links: array<Link>
    var list: Option<nat>
    var count: nat
    var waiters: seq<nat>
    ghost var free: seq<nat>

    ghost function Now(): State
      reads this, links
    {
      State(links[..], list, count, waiters)
    }

    ghost predicate Valid()
      reads this, links
    {
      Partition(Now(), this, free)
    }

    /** rt_mp_init. It needs room for one block: with none it would write in front of the
        memory, at block number -1. */
    constructor (size: nat, blockSize: nat, align: nat, pointer: nat)
      requires 0 < align && 0 < pointer && size < WORD && Blocks(size, blockSize, align, pointer) > 0
      ensures Valid() && fresh(links) && waiters == []
      ensures links.Length == count == Blocks(size, blockSize, align, pointer)
    {
      var total := Blocks(size, blockSize, align, pointer);
      var start: Option<nat> := None;
      links := new Link[total](_ => Next(start));
      list, count, waiters := None, total, [];
      new;
      var offset := 0;
      while offset < total
        invariant offset <= total && list == None && count == total && waiters == []
        invariant forall k | 0 <= k < offset :: links[k] == Next(Some(k + 1))
        modifies links
      {
        links[offset] := Next(Some(offset + 1));
        offset := offset + 1;
      }
      links[offset - 1] := Next(None);
      list := Some(0);
      free := UpTo(total);
      StartKeeps(Now(), this, total);
      hide Partition, Blocks, UpTo;
    }

    /** rt_mp_alloc up to its first return or its wait. The pointer it asserts to be non-NULL
        is one. */
    method Alloc(thread: nat, time: int) returns (block: Option<nat>)
      requires Valid()
      modifies this`list, this`count, this`waiters, this`free, links
      ensures Valid()
      ensures old(free) == [] ==> block == None && free == []
      ensures old(free) == [] ==>
        Now() == old(Now()).(waiters := if time == 0 then old(waiters) else old(waiters) + [thread])
      ensures old(free) != [] ==> block == Some(old(free)[0]) && free == old(free)[1..]
      ensures old(free) != [] ==>
        old(list).Some? && old(list).value < links.Length && old(count) > 0 && Now() == Taken(old(Now()), this)
    {
      if count == 0 {
        if time == 0 {
          return None;
        }
        waiters := waiters + [thread];
        return None;
      }
      TakenKeeps(Now(), this, free);
      ghost var s := Now();
      ListInRange(s, this, free);
      count := count - 1;
      block := list;
      assert block != None;
      list := links[block.value].block;
      links[block.value] := Owner(this);
      free := free[1..];
      assert Now() == Taken(s, this);
    }

    /** rt_mp_free from where it has found the pool. */
    method Return(block: nat, ready: bool)
      requires Valid() && block < links.Length && block !in free
      modifies this`list, this`count, this`waiters, this`free, links
      ensures Valid() && free == [block] + old(free) && Now() == Returned(old(Now()), block, ready)
    {
      ghost var s := Now();
      ReturnedKeeps(s, this, free, block, ready);
      count := count + 1;
      links[block] := Next(list);
      list := Some(block);
      if waiters != [] && ready {
        waiters := waiters[1..];
      }
      free := [block] + free;
      assert Now() == Returned(s, block, ready);
    }
  }

  /** rt_mp_free: the pool is found through the pointer in front of the block. */
  method Free(memory: array<Link>, block: Option<nat>, ready: bool)
    requires block.Some? ==> block.value < memory.Length && memory[block.value].Owner?
    requires block.Some? ==> var p := memory[block.value].pool; p.links == memory && p.Valid()
    modifies if block.Some? then {memory as object, memory[block.value].pool} else {}
    ensures block.Some? ==> var p := old(memory[block.value].pool);
      p.Valid() && p.free == [block.value] + old(p.free) && p.Now() == Returned(old(p.Now()), block.value, ready)
    ensures block.None? ==> memory[..] == old(memory[..])
  {
    if block.None? {
      return;
    }
    var mp := memory[block.value].pool;
    assert block.value !in mp.free;
    mp.Return(block.value, ready);
  }
}
