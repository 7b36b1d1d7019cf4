/** The allocator of rt-thread/src/mem.c in place: headers threaded through one byte region
    by `next` and `prev` offsets, the lowest-free hint and the usage counters. */
module SmallMem {
  import opened Align
  import opened Octets
  import opened Options
  import opened SmallMemModel
  import opened SmallMemCalls

  /** pool_ptr of a header: zero, or this heap's address with the used bit clear or set. */
  datatype Pool = NoPool | Freed | Used

  function PoolOf(used: bool): Pool { if used then Used else Freed }

  ghost predicate LinkedAt(nx: seq<nat>, pv: seq<nat>, pl: seq<Pool>, bs: seq<Block>, end: nat, i: nat)
    requires |nx| == |pv| == |pl| == end + 1 && i < |bs|
  {
    && bs[i].off < end
    && nx[bs[i].off] == At(bs, end, i + 1)
    && pl[bs[i].off] == PoolOf(bs[i].used)
    && pv[bs[i].off] == if i == 0 then 0 else bs[i - 1].off
  }

  /** The header fields stored at each offset describe exactly the blocks bs. heap_end->prev
      is excluded: the split in rt_smem_alloc leaves it stale. */
  ghost predicate Linked(nx: seq<nat>, pv: seq<nat>, pl: seq<Pool>, bs: seq<Block>, end: nat) {
    && |nx| == |pv| == |pl| == end + 1
    && nx[end] == end && pl[end] == Used
    && forall i | 0 <= i < |bs| :: LinkedAt(nx, pv, pl, bs, end, i)
  }

  /** No byte of the payloads `safe` lies in the header at p. */
  ghost predicate Misses(h: nat, p: nat, safe: set<(nat, nat)>) {
    forall x | x in safe :: p + h <= x.0 + h || x.1 <= p
  }

  /** The payload bytes of the blocks `safe` are the same in d and e. */
  ghost predicate Keeps(h: nat, safe: set<(nat, nat)>, d: seq<Byte>, e: seq<Byte>) {
    |d| == |e| && forall x, i | x in safe && x.0 + h <= i < x.1 && i < |d| :: d[i] == e[i]
  }

  lemma HeaderMisses(h: nat, bs: seq<Block>, end: nat, k: nat)
    requires Tiled(h, bs, end) && k <= |bs|
    ensures Misses(h, At(bs, end, k), Live(bs, end))
  {
    forall x | x in Live(bs, end)
      ensures At(bs, end, k) <= x.0 || x.1 <= At(bs, end, k)
    {
      var j :| 0 <= j < |bs| && bs[j].used && x == (bs[j].off, At(bs, end, j + 1));
      if k < j { Ordered(h, bs, end, k, j); }
      if j < k { Ordered(h, bs, end, j, k); }
    }
  }

  // -- The header stores of one call relink the list -----------------------------

  lemma LinkedMark(nx: seq<nat>, pv: seq<nat>, pl: seq<Pool>, h: nat, bs: seq<Block>, end: nat, k: nat, used: bool)
    requires Linked(nx, pv, pl, bs, end) && Tiled(h, bs, end) && h > 0 && k < |bs|
    ensures bs[k].off < end
    ensures Linked(nx, pv, pl[bs[k].off := PoolOf(used)], bs[k := Block(bs[k].off, used)], end)
  {
    var m := bs[k := Block(bs[k].off, used)];
    assert LinkedAt(nx, pv, pl, bs, end, k);
    OffsetsDiffer(h, bs, end, k);
    var pl' := pl[bs[k].off := PoolOf(used)];
    forall i | 0 <= i < |m|
      ensures LinkedAt(nx, pv, pl', m, end, i)
    {
      assert LinkedAt(nx, pv, pl, bs, end, i);
    }
  }

  lemma LinkedCut(nx: seq<nat>, pv: seq<nat>, pl: seq<Pool>, c: Config, bs: seq<Block>, end: nat, k: nat, size: nat)
    requires Linked(nx, pv, pl, bs, end) && Tiled(c.header, bs, end) && c.header > 0 && k < |bs|
    requires 0 < size && size + c.header <= Payload(c, bs, end, k)
    ensures
      var (p, q, n) := (bs[k].off, bs[k].off + c.header + size, At(bs, end, k + 1));
      q < n <= end &&
      Linked(nx[q := n][p := q], pv[q := p][n := q], pl[q := Freed][p := Used], Cut(c, bs, k, size), end)
  {
    var (p, q, n) := (bs[k].off, bs[k].off + c.header + size, At(bs, end, k + 1));
    var r := Cut(c, bs, k, size);
    Ordered(c.header, bs, end, k, |bs|);
    CutShape(c, bs, end, k, size);
    var (nx', pv', pl') := (nx[q := n][p := q], pv[q := p][n := q], pl[q := Freed][p := Used]);
    assert LinkedAt(nx, pv, pl, bs, end, k);
    forall i | 0 <= i < |r|
      ensures LinkedAt(nx', pv', pl', r, end, i)
    {
      hide Cut, Tiled;
      if i < k {
        Ordered(c.header, bs, end, i, k);
        assert LinkedAt(nx, pv, pl, bs, end, i);
        assert r[i] == bs[i] && (i > 0 ==> r[i - 1] == bs[i - 1]);
      } else if i > k + 1 {
        Ordered(c.header, bs, end, k, i - 1);
        if i > k + 2 { Ordered(c.header, bs, end, k + 1, i - 1); }
        assert LinkedAt(nx, pv, pl, bs, end, i - 1);
        assert r[i] == bs[i - 1] && (i > k + 2 ==> r[i - 1] == bs[i - 2]);
      } else if i == k && k > 0 {
        assert r[k - 1] == bs[k - 1];
      }
    }
  }

  /** Absorbing block k into block k - 1. */
  lemma LinkedRemove(nx: seq<nat>, pv: seq<nat>, pl: seq<Pool>, h: nat, bs: seq<Block>, end: nat, k: nat)
    requires Linked(nx, pv, pl, bs, end) && Tiled(h, bs, end) && h > 0 && 0 < k < |bs|
    ensures
      var (p, q, n) := (bs[k - 1].off, bs[k].off, At(bs, end, k + 1));
      p < q < n <= end &&
      Linked(nx[p := n], pv[n := p], pl[q := NoPool], Remove(bs, k), end)
  {
    var (p, q, n) := (bs[k - 1].off, bs[k].off, At(bs, end, k + 1));
    var r := Remove(bs, k);
    Ordered(h, bs, end, k - 1, k);
    Ordered(h, bs, end, k, k + 1);
    if k + 1 < |bs| { Ordered(h, bs, end, k + 1, |bs|); }
    assert LinkedAt(nx, pv, pl, bs, end, k - 1);
    var (nx', pv', pl') := (nx[p := n], pv[n := p], pl[q := NoPool]);
    forall i | 0 <= i < |r|
      ensures LinkedAt(nx', pv', pl', r, end, i)
    {
      hide Tiled;
      if i < k {
        if i < k - 1 { Ordered(h, bs, end, i, k - 1); }
        assert LinkedAt(nx, pv, pl, bs, end, i);
        assert r[i] == bs[i] && At(r, end, i + 1) == (if i == k - 1 then n else At(bs, end, i + 1));
        assert i > 0 ==> r[i - 1] == bs[i - 1];
      } else {
        Ordered(h, bs, end, k, i + 1);
        if i > k { Ordered(h, bs, end, k + 1, i + 1); }
        assert LinkedAt(nx, pv, pl, bs, end, i + 1);
        assert r[i] == bs[i + 1] && At(r, end, i + 1) == At(bs, end, i + 2);
        assert r[i - 1] == if i == k then bs[k - 1] else bs[i];
      }
    }
  }

  /** heap_end->prev does not matter. */
  lemma LinkedButEnd(nx: seq<nat>, pv: seq<nat>, pv': seq<nat>, pl: seq<Pool>, bs: seq<Block>, end: nat)
    requires Linked(nx, pv, pl, bs, end) && |pv'| == |pv|
    requires forall o | 0 <= o < end :: pv'[o] == pv[o]
    ensures Linked(nx, pv', pl, bs, end)
  {
    forall i | 0 <= i < |bs|
      ensures LinkedAt(nx, pv', pl, bs, end, i)
    {
      assert LinkedAt(nx, pv, pl, bs, end, i);
    }
  }

  /** Combining block j with block j - 1 keeps the payloads and stores into none of them. */
  lemma AbsorbKeeps(h: nat, bs: seq<Block>, end: nat, j: nat)
    requires Tiled(h, bs, end) && 0 < j < |bs| && !bs[j - 1].used && !bs[j].used
    ensures Tiled(h, Remove(bs, j), end) && Live(Remove(bs, j), end) == Live(bs, end)
    ensures Misses(h, bs[j - 1].off, Live(bs, end)) && Misses(h, bs[j].off, Live(bs, end))
    ensures Misses(h, At(bs, end, j + 1), Live(bs, end))
  {
    RemoveKeeps(h, bs, end, j);
    RemoveLive(bs, end, j);
    HeaderMisses(h, bs, end, j - 1);
    HeaderMisses(h, bs, end, j);
    HeaderMisses(h, bs, end, j + 1);
    hide Tiled, Live, Misses, Remove;
  }

  /** Combining free blocks does not move the lowest free block. */
  lemma AbsorbHint(h: nat, bs: seq<Block>, end: nat, j: nat)
    requires Tiled(h, bs, end) && 0 < j < |bs| && !bs[j - 1].used
    ensures At(bs, end, LowestFree(bs)) == At(Remove(bs, j), end, LowestFree(Remove(bs, j))) <= bs[j - 1].off
  {
    var f := LowestFree(bs);
    if f < j - 1 { Ordered(h, bs, end, f, j - 1); }
    LowestFreeUnique(Remove(bs, j), f);
  }

  /** Freeing is marking followed by plug_holes. */
  lemma ReleaseFacts(c: Config, bs: seq<Block>, end: nat, k: nat)
    requires WellFormed(c, bs, end) && k < |bs| && bs[k].used
    ensures var m, r := bs[k := Block(bs[k].off, false)], Release(bs, k);
      WellFormed(c, r, end) && UsedBytes(r, end) == UsedBytes(m, end) && Live(r, end) == Live(m, end)
  {
    MarkLive(c.header, bs, end, k, false);
    MarkBytes(bs, end, k, false);
    ReleaseKeeps(c.header, bs, end, k);
    hide Live, UsedBytes, Release, Tiled, Coalesced;
  }

  /** Every data block is at least MIN_SIZE_ALIGNED long. */
  method RequestSize(c: Config, n: nat) returns (size: nat)
    requires c.Valid()
    ensures size == Request(c, n) > 0
  {
    size := RtAlign(n, c.align);
    if size < MinAligned(c) {
      size := MinAligned(c);
    }
  }

  class SmallMem {
    const c: Config
    const end: nat                 // heap_end: mem_size_aligned + SIZEOF_STRUCT_MEM
    const next: array<nat>         // header fields, by header offset
    const prev: array<nat>
    const pool: array<Pool>
    const data: array<Byte>         // the bytes of the region, headers included
    var lfree: nat
    var used: nat
    var max: nat
    ghost var blocks: seq<Block>   // the blocks reachable by `next`, in address order

    ghost predicate Shape()
      reads this
    {
      && Region(c, end)
      && next != prev
      && (pool as object) !in {next as object, prev}
      && (data as object) !in {next as object, prev, pool}
      && next.Length == prev.Length == pool.Length == end + 1
      && data.Length == end + c.header
    }

    ghost predicate Chained()
      reads this, next, prev, pool
    {
      Shape() && Linked(next[..], prev[..], pool[..], blocks, end)
    }

    ghost predicate Hint()
      reads this
    {
      lfree == At(blocks, end, LowestFree(blocks))
    }

    ghost predicate Valid()
      reads this, next, prev, pool
    {
      && Chained() && Hint()
      && WellFormed(c, blocks, end)
      && used == UsedBytes(blocks, end) <= max
    }

    /** rt_smem_init once the usable size is known: one free block. */
    constructor (c: Config, memSize: nat)
      requires Region(c, memSize + c.header)
      ensures Valid()
      ensures this.c == c && this.end == memSize + c.header
      ensures blocks == [Block(0, false)] && used == max == 0
      ensures fresh(next) && fresh(prev) && fresh(pool) && fresh(data)
    {
      this.c := c;
      end := memSize + c.header;
      next := new nat[memSize + c.header + 1];
      prev := new nat[memSize + c.header + 1];
      pool := new Pool[memSize + c.header + 1];
      data := new Byte[memSize + c.header + c.header];
      lfree, used, max := 0, 0, 0;
      blocks := [Block(0, false)];
      new;
      pool[0], next[0], prev[0] := Freed, end, 0;
      pool[end], next[end], prev[end] := Used, end, end;
      assert LinkedAt(next[..], prev[..], pool[..], blocks, end, 0);
      assert Holds(c.header, blocks, end, 0);
    }

    /** A header store also overwrites bytes of the region, in the header's own extent. */
    method StoreBytes(p: nat, ghost safe: set<(nat, nat)>)
      requires Shape() && p <= end && Misses(c.header, p, safe)
      modifies data
      ensures Keeps(c.header, safe, old(data[..]), data[..])
    {
      for i := p to p + c.header
        invariant forall j | 0 <= j < data.Length && !(p <= j < p + c.header) :: data[j] == old(data[j])
      {
        data[i] := *;
      }
    }

    method SetNext(p: nat, n: nat, ghost safe: set<(nat, nat)>)
      requires Shape() && p <= end && Misses(c.header, p, safe)
      modifies next, data
      ensures next[..] == old(next[..])[p := n]
      ensures Keeps(c.header, safe, old(data[..]), data[..])
    {
      StoreBytes(p, safe);
      next[p] := n;
    }

    method SetPrev(p: nat, n: nat, ghost safe: set<(nat, nat)>)
      requires Shape() && p <= end && Misses(c.header, p, safe)
      modifies prev, data
      ensures prev[..] == old(prev[..])[p := n]
      ensures Keeps(c.header, safe, old(data[..]), data[..])
    {
      StoreBytes(p, safe);
      prev[p] := n;
    }

    method SetPool(p: nat, v: Pool, ghost safe: set<(nat, nat)>)
      requires Shape() && p <= end && Misses(c.header, p, safe)
      modifies pool, data
      ensures pool[..] == old(pool[..])[p := v]
      ensures Keeps(c.header, safe, old(data[..]), data[..])
    {
      StoreBytes(p, safe);
      pool[p] := v;
    }

    /** Combines the free block at q with the free block at p before it; a hint at q moves to p. */
    method Absorb(p: nat, q: nat, ghost j: nat)
      requires Chained() && Tiled(c.header, blocks, end)
      requires Hint() || (lfree == q && At(blocks, end, LowestFree(blocks)) == p)
      requires 0 < j < |blocks| && blocks[j - 1] == Block(p, false) && blocks[j] == Block(q, false)
      modifies this`lfree, this`blocks, next, prev, pool, data
      ensures Chained() && Hint() && Tiled(c.header, blocks, end)
      ensures blocks == Remove(old(blocks), j) && Live(blocks, end) == Live(old(blocks), end)
      ensures Keeps(c.header, Live(blocks, end), old(data[..]), data[..])
    {
      AbsorbLinks(j);
      AbsorbKeeps(c.header, blocks, end, j);
      AbsorbHint(c.header, blocks, end, j);
      hide Linked, Tiled, Live, Misses, At, LowestFree, Remove;
      ghost var live := Live(blocks, end);
      if lfree == q {
        lfree := p;
      }
      SetPool(q, NoPool, live);
      SetNext(p, next[q], live);
      SetPrev(next[q], p, live);
      blocks := Remove(blocks, j);
    }

    /** plug_holes on the free block k at mem. */
    method PlugHoles(mem: nat, ghost k: nat)
      requires Chained() && Hint() && Tiled(c.header, blocks, end)
      requires k < |blocks| && blocks[k] == Block(mem, false)
      modifies this`lfree, this`blocks, next, prev, pool, data
      ensures Chained() && Hint()
      ensures blocks == Plug(old(blocks), k)
      ensures Keeps(c.header, Live(old(blocks), end), old(data[..]), data[..])
    {
      Neighbours(k);
      assert 0 <= mem < end;
      var nmem := next[mem];
      if mem != nmem && pool[nmem] != Used && nmem != end {
        Absorb(mem, nmem, k + 1);
      }
      Neighbours(k);
      var pmem := prev[mem];
      if pmem != mem && pool[pmem] != Used {
        Absorb(pmem, mem, k);
      }
    }

    /** The headers around block k. */
    lemma Neighbours(k: nat)
      requires Chained() && Tiled(c.header, blocks, end) && k < |blocks|
      ensures var mem := blocks[k].off;
        && mem < end
        && next[mem] == At(blocks, end, k + 1) && mem < next[mem] <= end && mem + c.header <= next[mem]
        && pool[mem] == PoolOf(blocks[k].used)
        && (next[mem] == end <==> k + 1 == |blocks|)
        && pool[next[mem]] == PoolOf(k + 1 == |blocks| || blocks[k + 1].used)
        && (k == 0 ==> prev[mem] == mem)
        && (k > 0 ==> prev[mem] == blocks[k - 1].off < mem && pool[prev[mem]] == PoolOf(blocks[k - 1].used))
    {
      assert LinkedAt(next[..], prev[..], pool[..], blocks, end, k) && Holds(c.header, blocks, end, k);
      Ordered(c.header, blocks, end, k, k + 1);
      if k + 1 < |blocks| { assert LinkedAt(next[..], prev[..], pool[..], blocks, end, k + 1); }
      if k > 0 {
        assert LinkedAt(next[..], prev[..], pool[..], blocks, end, k - 1);
        Ordered(c.header, blocks, end, k - 1, k);
      }
    }

    /** The links after Absorb combines block j with block j - 1. */
    lemma AbsorbLinks(j: nat)
      requires Chained() && Tiled(c.header, blocks, end) && 0 < j < |blocks|
      ensures var (p, q, n) := (blocks[j - 1].off, blocks[j].off, At(blocks, end, j + 1));
        && p < q < end && next[p] == q && next[q] == n <= end
        && Linked(next[..][p := n], prev[..][n := p], pool[..][q := NoPool], Remove(blocks, j), end)
    {
      LinkedRemove(next[..], prev[..], pool[..], c.header, blocks, end, j);
      Neighbours(j - 1);
      Neighbours(j);
      hide Linked, Tiled;
    }

    lemma FreeFacts(k: nat)
      requires Valid() && k < |blocks| && blocks[k].used
      ensures var m, n := blocks[k := Block(blocks[k].off, false)], At(blocks, end, k + 1);
        && blocks[k].off < end && blocks[k].off < n <= end
        && Linked(next[..], prev[..], pool[..][blocks[k].off := Freed], m, end)
        && Tiled(c.header, m, end)
        && At(m, end, LowestFree(m)) == (if blocks[k].off < lfree then blocks[k].off else lfree)
        && Misses(c.header, blocks[k].off, Live(m, end))
        && 0 <= UsedBytes(m, end) == used - (n - blocks[k].off)
    {
      var m, f := blocks[k := Block(blocks[k].off, false)], LowestFree(blocks);
      LinkedMark(next[..], prev[..], pool[..], c.header, blocks, end, k, false);
      MarkTiles(c.header, blocks, end, k, false);
      MarkBytes(blocks, end, k, false);
      HeaderMisses(c.header, m, end, k);
      UsedBytesNonnegative(c.header, m, end, 0);
      assert m[0..] == m;
      Neighbours(k);
      hide Linked, Live, UsedBytes;
      if k < f {
        Ordered(c.header, blocks, end, k, f);
        LowestFreeUnique(m, k);
      } else {
        Ordered(c.header, blocks, end, f, k);
        LowestFreeUnique(m, f);
      }
    }

    /** The first half of rt_smem_free: block k at mem is marked free, hint and counter follow. */
    method MarkFree(mem: nat, ghost k: nat)
      requires Valid() && k < |blocks| && blocks[k] == Block(mem, true)
      modifies this`lfree, this`used, this`blocks, pool, data
      ensures Chained() && Hint() && Tiled(c.header, blocks, end)
      ensures used == UsedBytes(blocks, end) <= max
      ensures blocks == old(blocks)[k := Block(mem, false)]
      ensures Keeps(c.header, Live(blocks, end), old(data[..]), data[..])
    {
      Neighbours(k);
      FreeFacts(k);
      hide Linked, Tiled, Coalesced, Live, Misses, At, LowestFree, UsedBytes;
      SetPool(mem, Freed, Live(blocks[k := Block(mem, false)], end));
      if mem < lfree {
        lfree := mem;
      }
      used := used - (next[mem] - mem);
      blocks := blocks[k := Block(mem, false)];
    }

    /** rt_smem_free of block k at mem. */
    method FreeBlock(mem: nat, ghost k: nat)
      requires Valid() && k < |blocks| && blocks[k] == Block(mem, true)
      modifies this`lfree, this`used, this`blocks, next, prev, pool, data
      ensures Valid()
      ensures blocks == Release(old(blocks), k)
      ensures Keeps(c.header, Live(blocks, end), old(data[..]), data[..])
    {
      ReleaseFacts(c, blocks, end, k);
      hide Linked, Tiled, Coalesced, Live, At, LowestFree, UsedBytes, Plug, Misses, Keeps;
      ghost var d := data[..];
      MarkFree(mem, k);
      ghost var live, d1 := Live(blocks, end), data[..];
      PlugHoles(mem, k);
      KeepsTwice(c.header, live, d, d1, data[..]);
    }

    /** rt_smem_free */
    method Free(rmem: Option<nat>)
      requires Valid() && Freeable(c, blocks, rmem)
      modifies this`lfree, this`used, this`blocks, next, prev, pool, data
      ensures Valid()
      ensures blocks == SmallMemCalls.Free(c, old(blocks), rmem)
      ensures Keeps(c.header, Live(blocks, end), old(data[..]), data[..])
    {
      KeepsItself(c.header, Live(blocks, end), data[..]);
      if rmem.None? {
        return;
      }
      var mem := rmem.value - c.header;
      ghost var k := IndexOf(blocks, mem);
      Neighbours(k);
      hide Linked, Tiled, Coalesced, Live, LowestFree, UsedBytes, Release, Keeps;
      assert pool[mem] == Used && mem < end && pool[next[mem]] != NoPool;
      FreeBlock(mem, k);
    }

    /** What the split in rt_smem_alloc and rt_smem_realloc needs. */
    lemma CutFacts(k: nat, size: nat)
      requires Chained() && Tiled(c.header, blocks, end)
      requires k < |blocks| && 0 < size && size + c.header <= Payload(c, blocks, end, k)
      ensures var (p, q, n) := (blocks[k].off, blocks[k].off + c.header + size, At(blocks, end, k + 1));
        && p < q < n <= end && next[p] == n
        && (n == end <==> k + 1 == |blocks|)
        && Linked(next[..][q := n][p := q], prev[..][q := p][n := q], pool[..][q := Freed][p := Used],
                  Cut(c, blocks, k, size), end)
        && Tiled(c.header, Cut(c, blocks, k, size), end)
    {
      LinkedCut(next[..], prev[..], pool[..], c, blocks, end, k, size);
      CutTiles(c, blocks, end, k, size);
      Neighbours(k);
    }

    /** The headers written by the split lie outside every payload of the resulting blocks. */
    lemma CutMisses(k: nat, size: nat)
      requires Tiled(c.header, blocks, end) && c.header > 0
      requires k < |blocks| && 0 < size && size + c.header <= Payload(c, blocks, end, k)
      ensures var safe := Live(Cut(c, blocks, k, size), end);
        && Misses(c.header, blocks[k].off, safe)
        && Misses(c.header, blocks[k].off + c.header + size, safe)
        && Misses(c.header, At(blocks, end, k + 1), safe)
    {
      var r := Cut(c, blocks, k, size);
      CutTiles(c, blocks, end, k, size);
      CutShape(c, blocks, end, k, size);
      assert At(r, end, k + 2) == At(blocks, end, k + 1);
      HeaderMisses(c.header, r, end, k);
      HeaderMisses(c.header, r, end, k + 1);
      HeaderMisses(c.header, r, end, k + 2);
    }

    /** The split of rt_smem_alloc and rt_smem_realloc: block k keeps `size` payload bytes and
        the rest becomes a free block. */
    method Split(ptr: nat, size: nat, ghost k: nat)
      requires Chained() && Tiled(c.header, blocks, end)
      requires k < |blocks| && blocks[k].off == ptr && 0 < size && size + c.header <= Payload(c, blocks, end, k)
      modifies this`blocks, next, prev, pool, data
      ensures Chained() && Tiled(c.header, blocks, end)
      ensures blocks == Cut(c, old(blocks), k, size)
      ensures Keeps(c.header, Live(blocks, end), old(data[..]), data[..])
    {
      ghost var safe := Live(Cut(c, blocks, k, size), end);
      CutFacts(k, size);
      CutMisses(k, size);
      var ptr2 := ptr + c.header + size;
      ghost var nx, pv, pl, bs := next[..], prev[..], pool[..], blocks;
      hide Linked, Tiled, Live, Misses, At, Cut, LowestFree, UsedBytes;
      SetPool(ptr2, Freed, safe);
      SetNext(ptr2, next[ptr], safe);
      SetPrev(ptr2, ptr, safe);
      SetNext(ptr, ptr2, safe);
      if next[ptr2] != end {
        SetPrev(next[ptr2], ptr2, safe);
      }
      SetPool(ptr, Used, safe);
      blocks := Cut(c, bs, k, size);
      LinkedButEnd(next[..], pv[ptr2 := ptr][next[ptr2] := ptr2], prev[..], pool[..], blocks, end);
    }

    /** The hint moves up to the next free block, or to heap_end. */
    method AdvanceHint(ghost from: nat)
      requires Chained() && Tiled(c.header, blocks, end)
      requires from <= |blocks| && lfree == At(blocks, end, from)
      requires forall i | 0 <= i < from :: blocks[i].used
      modifies this`lfree
      ensures Hint()
    {
      ghost var f := from;
      if f < |blocks| { Neighbours(f); }
      while pool[lfree] == Used && lfree != end
        invariant f <= |blocks| && lfree == At(blocks, end, f)
        invariant f < |blocks| ==>
          lfree < end && pool[lfree] == PoolOf(blocks[f].used) && next[lfree] == At(blocks, end, f + 1)
        invariant forall i | 0 <= i < f :: blocks[i].used
        decreases |blocks| - f
      {
        lfree := next[lfree];
        f := f + 1;
        if f < |blocks| { Neighbours(f); }
      }
      LowestFreeUnique(blocks, f);
    }

    /** Block k at ptr becomes a used block of at least `size` payload bytes. */
    method Carve(ptr: nat, size: nat, ghost k: nat)
      requires Valid()
      requires k < |blocks| && blocks[k] == Block(ptr, false) && 0 < size <= Payload(c, blocks, end, k)
      modifies this`used, this`blocks, next, prev, pool, data
      ensures Chained()
      ensures blocks == Occupy(c, old(blocks), end, k, size)
      ensures k < |blocks| && used == old(used) + At(blocks, end, k + 1) - ptr
      ensures Keeps(c.header, Live(blocks, end), old(data[..]), data[..])
    {
      Neighbours(k);
      var payload: nat := next[ptr] - (ptr + c.header);
      if payload >= size + c.header + MinAligned(c) {
        CutShape(c, blocks, end, k, size);
        hide Linked, Tiled, Live, Cut;
        Split(ptr, size, k);
        used := used + (size + c.header);
      } else {
        ghost var r := blocks[k := Block(ptr, true)];
        LinkedMark(next[..], prev[..], pool[..], c.header, blocks, end, k, true);
        MarkTiles(c.header, blocks, end, k, true);
        HeaderMisses(c.header, r, end, k);
        hide Linked, Tiled, Live;
        used := used + (next[ptr] - ptr);
        SetPool(ptr, Used, Live(r, end));
        blocks := r;
      }
    }

    /** The body of the search loop once block k at ptr has been found to fit. */
    method Take(ptr: nat, size: nat, ghost k: nat)
      requires Valid()
      requires k < |blocks| && blocks[k] == Block(ptr, false) && 0 < size <= Payload(c, blocks, end, k)
      modifies this`lfree, this`used, this`max, this`blocks, next, prev, pool, data
      ensures Valid()
      ensures blocks == Occupy(c, old(blocks), end, k, size)
      ensures max == if old(max) < used then used else old(max)
      ensures Keeps(c.header, Live(old(blocks), end), old(data[..]), data[..])
    {
      OccupyKeeps(c, blocks, end, k, size);
      OccupyHint(c, blocks, end, k, size);
      hide Linked, Coalesced, Live, Occupy, UsedBytes;
      Carve(ptr, size, k);
      if max < used {
        max := used;
      }
      if ptr == lfree {
        AdvanceHint(k);
      }
    }

    /** The search loop of rt_smem_alloc: it starts at the hint, stops where no block can
        fit, and finds what plain first fit over the whole heap finds. */
    method Search(size: nat) returns (fit: Option<nat>)
      requires Valid() && 0 < size <= end - c.header
      ensures var k := FirstFit(c, blocks, end, size);
        && fit == (if k == |blocks| then None else Some(blocks[k].off))
        && (fit.Some? ==> k < |blocks| && !blocks[k].used && size <= Payload(c, blocks, end, k))
    {
      var memSize := end - c.header;
      var ptr := lfree;
      ghost var k: nat := LowestFree(blocks);
      hide Linked, Tiled, Coalesced, UsedBytes, LowestFree;
      var last: nat := memSize - size;
      while ptr <= last
        invariant 0 <= k <= |blocks| && ptr == At(blocks, end, k)
        invariant forall i | 0 <= i < k :: blocks[i].used || Payload(c, blocks, end, i) < size
        decreases |blocks| - k
      {
        Neighbours(k);
        var payload: nat := next[ptr] - (ptr + c.header);
        if pool[ptr] != Used && payload >= size {
          FirstFitUnique(c, blocks, end, size, k);
          return Some(ptr);
        }
        ptr := next[ptr];
        k := k + 1;
      }
      NothingFitsFrom(c, blocks, end, size, k);
      return None;
    }

    /** rt_smem_alloc */
    method Alloc(n: nat) returns (r: Option<nat>)
      requires Valid()
      modifies this`lfree, this`used, this`max, this`blocks, next, prev, pool, data
      ensures Valid()
      ensures (blocks, r) == SmallMemCalls.Alloc(c, old(blocks), end, n)
      ensures max == if old(max) < used then used else old(max)
      ensures Keeps(c.header, Live(old(blocks), end), old(data[..]), data[..])
    {
      if n == 0 {
        return None;
      }
      KeepsItself(c.header, Live(blocks, end), data[..]);
      hide Linked, Tiled, Coalesced, Live, UsedBytes, LowestFree, RtAlign, MinAligned, Occupy, Request, FirstFit, Keeps;
      var size := RequestSize(c, n);
      if size > end - c.header {
        return None;
      }
      var ptr := Search(size);
      if ptr.None? {
        return None;
      }
      Take(ptr.value, size, FirstFit(c, blocks, end, size));
      return Some(ptr.value + c.header);
    }

    /** The split of the in-place shrink, with the counter and the hint. */
    method CutOff(ptr: nat, size: nat, ghost k: nat) returns (mem2: nat)
      requires Valid()
      requires k < |blocks| && blocks[k] == Block(ptr, true)
      requires 0 < size && size + c.header <= Payload(c, blocks, end, k)
      modifies this`lfree, this`used, this`blocks, next, prev, pool, data
      ensures Chained() && Hint() && Tiled(c.header, blocks, end)
      ensures blocks == Cut(c, old(blocks), k, size)
      ensures k + 1 < |blocks| && blocks[k + 1] == Block(mem2, false)
      ensures used == old(used) - (Payload(c, old(blocks), end, k) - size)
      ensures Keeps(c.header, Live(blocks, end), old(data[..]), data[..])
    {
      ShrinkFacts(c, blocks, end, k, size);
      Neighbours(k);
      hide Linked, Tiled, Coalesced, Live, UsedBytes, LowestFree, Cut, Shrink, Keeps;
      used := used - (next[ptr] - ptr - c.header - size);
      Split(ptr, size, k);
      Neighbours(k);
      mem2 := next[ptr];
      if mem2 < lfree {
        lfree := mem2;
      }
    }

    /** The in-place shrink of rt_smem_realloc. */
    method ShrinkBlock(ptr: nat, size: nat, ghost k: nat)
      requires Valid()
      requires k < |blocks| && blocks[k] == Block(ptr, true)
      requires 0 < size && size + c.header <= Payload(c, blocks, end, k)
      modifies this`lfree, this`used, this`blocks, next, prev, pool, data
      ensures Valid()
      ensures blocks == Shrink(c, old(blocks), k, size)
      ensures Keeps(c.header, Live(blocks, end), old(data[..]), data[..])
    {
      ShrinkFacts(c, blocks, end, k, size);
      ghost var d := data[..];
      hide Linked, Tiled, Coalesced, Live, UsedBytes, LowestFree, Cut, Plug, Keeps;
      var mem2 := CutOff(ptr, size, k);
      ghost var live, d1 := Live(blocks, end), data[..];
      PlugHoles(mem2, k + 1);
      KeepsTwice(c.header, live, d, d1, data[..]);
    }

    /** rt_memcpy of `len` payload bytes from p to the freshly allocated q. */
    method CopyPayload(q: nat, p: nat, len: nat, ghost safe: set<(nat, nat)>)
      requires Shape() && q + len <= data.Length && p + len <= data.Length
      requires q + len <= p || p + len <= q
      requires forall x | x in safe :: q + len <= x.0 + c.header || x.1 <= q
      modifies data
      ensures Copied(old(data[..]), data[..], p, q, len)
      ensures Keeps(c.header, safe, old(data[..]), data[..])
    {
      for i := 0 to len
        invariant forall j | 0 <= j < data.Length && !(q <= j < q + i) :: data[j] == old(data[j])
        invariant data[q..q + i] == old(data[p..p + i])
      {
        data[q + i] := data[p + i];
      }
    }

    method PayloadToCopy(p: nat, size: nat) returns (len: nat)
      requires Valid() && IsLive(c, blocks, p)
      ensures len == CopyLength(c, blocks, end, p, size) <= BlockEnd(c, blocks, end, p) - p
      ensures len <= size
    {
      Neighbours(IndexOf(blocks, p - c.header));
      assert Holds(c.header, blocks, end, IndexOf(blocks, p - c.header));
      var payload := next[p - c.header] - p;
      len := if payload < size then payload else size;
    }

    /** The first half of a moving realloc: a new block with a copy of the payload at p. */
    method AllocCopy(p: nat, size: nat) returns (r: Option<nat>)
      requires Valid() && IsLive(c, blocks, p) && 0 < size <= end - c.header && size == RtAlign(size, c.align)
      modifies this`lfree, this`used, this`max, this`blocks, next, prev, pool, data
      ensures Valid()
      ensures (blocks, r) == SmallMemCalls.Alloc(c, old(blocks), end, size)
      ensures max == if old(max) < used then used else old(max)
      ensures Keeps(c.header, Live(old(blocks), end), old(data[..]), data[..])
      ensures r.Some? ==>
        IsLive(c, blocks, p) && Copied(old(data[..]), data[..], p, r.value, CopyLength(c, old(blocks), end, p, size))
    {
      MoveCopyFits(c, blocks, end, p, size);
      ghost var bs, d := blocks, data[..];
      var len := PayloadToCopy(p, size);
      hide Linked, Tiled, Coalesced, Live, UsedBytes, LowestFree, Keeps, SmallMemCalls.Alloc;
      hide IndexOf, RtAlign, Copied, At;
      r := Alloc(size);
      if r.Some? {
        ghost var d1 := data[..];
        CopyPayload(r.value, p, len, Live(bs, end));
        KeepsTwice(c.header, Live(bs, end), d, d1, data[..]);
        CopiedFrom(c.header, Live(bs, end), d, d1, data[..], (p - c.header, BlockEnd(c, bs, end, p)), p, r.value, len);
      }
    }

    /** rt_smem_realloc when the block must move. */
    method Move(p: nat, size: nat) returns (r: Option<nat>)
      requires Valid() && IsLive(c, blocks, p) && 0 < size <= end - c.header && size == RtAlign(size, c.align)
      modifies this`lfree, this`used, this`max, this`blocks, next, prev, pool, data
      ensures Valid()
      ensures var (moved, q) := SmallMemCalls.Alloc(c, old(blocks), end, size);
        && r == q
        && (q.None? ==> blocks == moved)
        && (q.Some? ==> IsLive(c, moved, p) && blocks == SmallMemCalls.Free(c, moved, Some(p)))
      ensures Keeps(c.header, Live(old(blocks), end) * Live(blocks, end), old(data[..]), data[..])
      ensures r.Some? ==>
        Copied(old(data[..]), data[..], p, r.value, old(CopyLength(c, blocks, end, p, size)))
      ensures max == Peak(old(max), SmallMemCalls.Alloc(c, old(blocks), end, size).0, end)
    {
      MoveResult(c, blocks, end, p, size);
      ghost var bs, d, len := blocks, data[..], CopyLength(c, blocks, end, p, size);
      hide Linked, Tiled, Coalesced, Live, UsedBytes, LowestFree, Keeps, SmallMemCalls.Alloc, SmallMemCalls.Free;
      hide IndexOf, RtAlign, CopyLength;
      r := AllocCopy(p, size);
      ghost var d1 := data[..];
      assert max == Peak(old(max), SmallMemCalls.Alloc(c, bs, end, size).0, end);
      if r.Some? {
        Free(Some(p));
        KeepsBoth(c.header, Live(bs, end), Live(blocks, end), d, d1, data[..]);
        CopiedThen(c.header, Live(blocks, end), d, d1, data[..],
                   (r.value - c.header, BlockEnd(c, blocks, end, r.value)),
                   p, r.value, len);
      } else {
        KeepsLess(c.header, Live(bs, end), Live(blocks, end), d, d1);
      }
    }

    /** rt_smem_realloc */
    method Realloc(rmem: Option<nat>, n: nat) returns (r: Option<nat>)
      requires Valid() && Freeable(c, blocks, rmem)
      modifies this`lfree, this`used, this`max, this`blocks, next, prev, pool, data
      ensures Valid()
      ensures (blocks, r) == SmallMemCalls.Realloc(c, old(blocks), end, rmem, n)
      ensures Keeps(c.header, Live(old(blocks), end) * Live(blocks, end), old(data[..]), data[..])
      ensures r.Some? && rmem.Some? ==>
        Copied(old(data[..]), data[..], rmem.value, r.value,
               CopyLength(c, old(blocks), end, rmem.value, RtAlign(n, c.align)))
      ensures max == Peak(old(max), Fullest(c, old(blocks), end, rmem, n), end)
    {
      ghost var bs, d := blocks, data[..];
      KeepsItself(c.header, Live(bs, end) * Live(bs, end), d);
      hide Linked, Tiled, Coalesced, UsedBytes, LowestFree, Keeps, Copied, CopyLength, RtAlign, SmallMemCalls.Resize;
      var size := AlignedSize(c, n);
      if size > end - c.header {
        return None;
      } else if size == 0 {
        Free(rmem);
        KeepsLess(c.header, Live(blocks, end), Live(bs, end), d, data[..]);
        return None;
      }
      if rmem.None? {
        r := Alloc(size);
        KeepsLess(c.header, Live(bs, end), Live(blocks, end), d, data[..]);
        return;
      }
      r := Resize(rmem.value, size);
    }

    method ResizeInPlace(p: nat, size: nat, ghost k: nat)
      requires Valid() && p >= c.header && k < |blocks| && blocks[k] == Block(p - c.header, true)
      requires 0 < size && size + c.header <= Payload(c, blocks, end, k)
      modifies this`lfree, this`used, this`blocks, next, prev, pool, data
      ensures Valid()
      ensures blocks == Shrink(c, old(blocks), k, size)
      ensures Keeps(c.header, Live(old(blocks), end) * Live(blocks, end), old(data[..]), data[..])
      ensures Copied(old(data[..]), data[..], p, p, size)
    {
      ghost var bs, d := blocks, data[..];
      ReallocInPlace(c, blocks, end, k, size);
      assert (p - c.header, p + size) in Live(Shrink(c, bs, k, size), end);
      Ordered(c.header, bs, end, k, k + 1);
      if k + 1 < |bs| { Ordered(c.header, bs, end, k + 1, |bs|); }
      hide Linked, Tiled, Coalesced, UsedBytes, LowestFree, Keeps, Shrink, Live;
      ShrinkBlock(p - c.header, size, k);
      KeepsLess(c.header, Live(blocks, end), Live(bs, end), d, data[..]);
      KeepsSlice(c.header, Live(blocks, end), d, data[..], (p - c.header, p + size), p, size);
    }

    /** rt_smem_realloc of a block to a nonzero aligned size. */
    method Resize(p: nat, size: nat) returns (r: Option<nat>)
      requires Valid() && IsLive(c, blocks, p) && 0 < size <= end - c.header && size == RtAlign(size, c.align)
      modifies this`lfree, this`used, this`max, this`blocks, next, prev, pool, data
      ensures Valid()
      ensures (blocks, r) == SmallMemCalls.Resize(c, old(blocks), end, p, size)
      ensures Keeps(c.header, Live(old(blocks), end) * Live(blocks, end), old(data[..]), data[..])
      ensures r.Some? ==>
        Copied(old(data[..]), data[..], p, r.value, CopyLength(c, old(blocks), end, p, size))
      ensures max == Peak(old(max), FullestResize(c, old(blocks), end, p, size), end)
    {
      var mem := p - c.header;
      ghost var k := IndexOf(blocks, mem);
      Neighbours(k);
      KeepsItself(c.header, Live(blocks, end) * Live(blocks, end), data[..]);
      hide Linked, Tiled, Coalesced, UsedBytes, LowestFree, Keeps, Shrink, Live, IndexOf, RtAlign, SmallMemCalls.Alloc;
      var payload: nat := next[mem] - mem - c.header;
      if payload == size {
        r := Some(p);
      } else if size + c.header + c.minSize < payload {
        ResizeInPlace(p, size, k);
        r := Some(p);
      } else {
        r := Move(p, size);
      }
    }
  }

  function Peak(max: nat, bs: seq<Block>, end: nat): int {
    if max < UsedBytes(bs, end) then UsedBytes(bs, end) else max
  }

  method AlignedSize(c: Config, n: nat) returns (size: nat)
    requires c.Valid()
    ensures size == RtAlign(n, c.align)
    ensures size <= WORD - c.align ==> size == RtAlign(size, c.align)
  {
    size := RtAlign(n, c.align);
    if size <= WORD - c.align { RtAlignTwice(n, c.align); }
  }

  /** How many payload bytes a moving realloc copies. */
  function CopyLength(c: Config, bs: seq<Block>, end: nat, p: nat, size: nat): nat
    requires IsLive(c, bs, p)
  {
    var q := BlockEnd(c, bs, end, p);
    if q < p then 0 else if q - p < size then q - p else size
  }

  /** The `len` bytes that were at p in d are at q in e. */
  ghost predicate Copied(d: seq<Byte>, e: seq<Byte>, p: nat, q: nat, len: nat) {
    p + len <= |d| && q + len <= |e| && e[q..q + len] == d[p..p + len]
  }

  lemma CopiedFrom(h: nat, safe: set<(nat, nat)>, d: seq<Byte>, d1: seq<Byte>, e: seq<Byte>, x: (nat, nat),
                   p: nat, q: nat, len: nat)
    requires Keeps(h, safe, d, d1) && x in safe && x.0 + h <= p && p + len <= x.1 && Copied(d1, e, p, q, len)
    ensures Copied(d, e, p, q, len)
  {
  }

  lemma CopiedThen(h: nat, safe: set<(nat, nat)>, d: seq<Byte>, d1: seq<Byte>, e: seq<Byte>, x: (nat, nat),
                   p: nat, q: nat, len: nat)
    requires Copied(d, d1, p, q, len) && Keeps(h, safe, d1, e) && x in safe && x.0 + h <= q && q + len <= x.1
    ensures Copied(d, e, p, q, len)
  {
  }

  lemma KeepsLess(h: nat, s: set<(nat, nat)>, t: set<(nat, nat)>, d: seq<Byte>, e: seq<Byte>)
    requires Keeps(h, s, d, e)
    ensures Keeps(h, s * t, d, e)
  {
  }

  lemma KeepsSlice(h: nat, safe: set<(nat, nat)>, d: seq<Byte>, e: seq<Byte>, x: (nat, nat), lo: nat, len: nat)
    requires Keeps(h, safe, d, e) && x in safe && x.0 + h <= lo && lo + len <= x.1 && lo + len <= |d|
    ensures d[lo..lo + len] == e[lo..lo + len]
  {
  }

  lemma KeepsItself(h: nat, safe: set<(nat, nat)>, d: seq<Byte>)
    ensures Keeps(h, safe, d, d)
  {
  }

  lemma KeepsTwice(h: nat, safe: set<(nat, nat)>, d: seq<Byte>, d1: seq<Byte>, d2: seq<Byte>)
    requires Keeps(h, safe, d, d1) && Keeps(h, safe, d1, d2)
    ensures Keeps(h, safe, d, d2)
  {
  }

  lemma KeepsBoth(h: nat, s: set<(nat, nat)>, t: set<(nat, nat)>, d: seq<Byte>, d1: seq<Byte>, d2: seq<Byte>)
    requires Keeps(h, s, d, d1) && Keeps(h, t, d1, d2)
    ensures Keeps(h, s * t, d, d2)
  {
  }

  /** The copy of a moving realloc stays inside the new payload and misses every other. */
  ghost predicate CopyFits(c: Config, bs: seq<Block>, end: nat, p: nat, q: nat, size: nat)
    requires IsLive(c, bs, p)
  {
    && q + size <= end && p <= BlockEnd(c, bs, end, p) <= end
    && (q + size <= p || BlockEnd(c, bs, end, p) <= q)
    && (p - c.header, BlockEnd(c, bs, end, p)) in Live(bs, end)
    && (forall x | x in Live(bs, end) :: q + size <= x.0 + c.header || x.1 <= q)
  }

  lemma MoveCopyFits(c: Config, bs: seq<Block>, end: nat, p: nat, size: nat)
    requires Region(c, end) && WellFormed(c, bs, end) && IsLive(c, bs, p)
    requires 0 < size <= end - c.header && size == RtAlign(size, c.align)
    ensures var (moved, q) := SmallMemCalls.Alloc(c, bs, end, size);
      if q.None? then moved == bs else IsLive(c, moved, p) && CopyFits(c, bs, end, p, q.value, size)
  {
    AllocCorrect(c, bs, end, size);
    OthersStayLive(c, bs, end, size, p);
    RequestOfAligned(c, size);
    LiveIntro(bs, end, IndexOf(bs, p - c.header));
    hide SmallMemCalls.Alloc, RtAlign, Request, Tiled, Coalesced, Live, UsedBytes;
    var (moved, q) := SmallMemCalls.Alloc(c, bs, end, size);
    if q.Some? {
      var y := (q.value - c.header, BlockEnd(c, moved, end, q.value));
      NewIsNew(c, bs, end, q.value, y);
      forall x | x in Live(bs, end)
        ensures q.value + size <= x.0 + c.header || x.1 <= q.value
        ensures x.0 + c.header < x.1 <= end && y.1 <= end
      {
        LiveDisjoint(c.header, moved, end, x, y);
        LiveDisjoint(c.header, moved, end, y, x);
      }
    }
  }

  lemma NewIsNew(c: Config, bs: seq<Block>, end: nat, q: nat, y: (nat, nat))
    requires Tiled(c.header, bs, end) && c.header > 0 && !IsLive(c, bs, q) && q >= c.header && y.0 == q - c.header
    ensures y !in Live(bs, end)
  {
    if y in Live(bs, end) {
      var i :| 0 <= i < |bs| && bs[i].used && y == (bs[i].off, At(bs, end, i + 1));
      IndexOfUnique(c.header, bs, end, i);
    }
  }

  lemma MoveResult(c: Config, bs: seq<Block>, end: nat, p: nat, size: nat)
    requires Region(c, end) && WellFormed(c, bs, end) && IsLive(c, bs, p)
    requires 0 < size <= end - c.header && size == RtAlign(size, c.align)
    ensures var (moved, q) := SmallMemCalls.Alloc(c, bs, end, size);
      q.Some? ==>
        && IsLive(c, moved, p)
        && var r := SmallMemCalls.Free(c, moved, Some(p));
        && IsLive(c, r, q.value) && q.value + size <= BlockEnd(c, r, end, q.value)
        && (q.value - c.header, BlockEnd(c, r, end, q.value)) in Live(r, end)
  {
    ReallocMoves(c, bs, end, p, size);
    hide SmallMemCalls.Alloc, RtAlign, Tiled, Coalesced, Release;
    var (moved, q) := SmallMemCalls.Alloc(c, bs, end, size);
    if q.Some? {
      var r := SmallMemCalls.Free(c, moved, Some(p));
      LiveIntro(r, end, IndexOf(r, q.value - c.header));
    }
  }

  lemma ShrinkFacts(c: Config, bs: seq<Block>, end: nat, k: nat, size: nat)
    requires WellFormed(c, bs, end) && k < |bs| && bs[k].used
    requires 0 < size && size + c.header <= Payload(c, bs, end, k)
    ensures var m, r, q := Cut(c, bs, k, size), Shrink(c, bs, k, size), bs[k].off + c.header + size;
      && |m| > k + 1 && m[k] == Block(bs[k].off, true) && m[k + 1] == Block(q, false)
      && WellFormed(c, r, end) && Live(r, end) == Live(m, end)
      && 0 <= UsedBytes(r, end) == UsedBytes(bs, end) - (Payload(c, bs, end, k) - size)
      && At(m, end, LowestFree(m)) == var hint := At(bs, end, LowestFree(bs)); if q < hint then q else hint
  {
    ShrinkKeeps(c, bs, end, k, size);
    CutTiles(c, bs, end, k, size);
    CutShape(c, bs, end, k, size);
    CutLive(c, bs, end, k, size);
    var m, r, f := Cut(c, bs, k, size), Shrink(c, bs, k, size), LowestFree(bs);
    UsedBytesNonnegative(c.header, r, end, 0);
    assert r[0..] == r;
    hide Cut, Live, UsedBytes, Plug;
    if f < k {
      Ordered(c.header, m, end, f, k + 1);
      LowestFreeUnique(m, f);
    } else {
      Ordered(c.header, bs, end, k, f);
      LowestFreeUnique(m, k + 1);
    }
  }

  /** No block at or above an offset past end - header - size can hold `size` bytes. */
  lemma NothingFitsFrom(c: Config, bs: seq<Block>, end: nat, size: nat, k: nat)
    requires WellFormed(c, bs, end) && k <= |bs| && At(bs, end, k) + c.header + size > end
    requires forall i | 0 <= i < k :: bs[i].used || Payload(c, bs, end, i) < size
    ensures FirstFit(c, bs, end, size) == |bs|
  {
    forall i | k <= i < |bs|
      ensures Payload(c, bs, end, i) < size
    {
      Ordered(c.header, bs, end, i, |bs|);
      if k < i { Ordered(c.header, bs, end, k, i); }
    }
    FirstFitUnique(c, bs, end, size, |bs|);
  }

  lemma OccupyPrefix(c: Config, bs: seq<Block>, end: nat, k: nat, size: nat)
    requires c.Valid() && k < |bs|
    ensures var r := Occupy(c, bs, end, k, size);
      k < |r| && r[k] == Block(bs[k].off, true) && forall i | 0 <= i < k :: r[i] == bs[i]
  {
  }

  /** Taking a block moves the lowest free block only if it was that block. */
  lemma OccupyHint(c: Config, bs: seq<Block>, end: nat, k: nat, size: nat)
    requires WellFormed(c, bs, end) && k < |bs| && !bs[k].used
    ensures var r, hint := Occupy(c, bs, end, k, size), At(bs, end, LowestFree(bs));
      && (hint != bs[k].off ==> hint == At(r, end, LowestFree(r)))
      && (hint == bs[k].off ==> k < |r| && At(r, end, k) == hint && forall i | 0 <= i < k :: r[i].used)
  {
    OccupyPrefix(c, bs, end, k, size);
    hide Occupy, Coalesced;
    var r, f := Occupy(c, bs, end, k, size), LowestFree(bs);
    if f < k {
      Ordered(c.header, bs, end, f, k);
      LowestFreeUnique(r, f);
    }
  }
}
